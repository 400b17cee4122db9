/**
 The memory system as the simulator runs it.  Its objects refine the state machine of one step, so
 what is proved of all runs holds of every sequence of calls.
*/
module DramMemorySystem {
  import opened Wrappers
  import opened DramTypes
  import opened DramRank
  import opened DramQueue
  import opened DramSystem
  import opened DramController

  class MemorySystem {
    const c: Config
    const ranks: seq<Rank>
    const memoryController: MemoryController
    var pendingTransactions: seq<Transaction>

    ghost predicate Valid()
      reads this, memoryController, memoryController.commandQueue, ranks
    {
      memoryController.c == c && memoryController.ranks == ranks && memoryController.Valid(pendingTransactions)
    }

    function State(): Sys
      requires memoryController.ranks == ranks
      reads this, memoryController, memoryController.commandQueue, ranks
    {
      memoryController.State(pendingTransactions)
    }

    static method MakeRanks(c: Config) returns (ranks: seq<Rank>)
      ensures |ranks| == c.ranks
      ensures forall i :: 0 <= i < |ranks| ==>
        fresh(ranks[i]) && ranks[i].c == c && ranks[i].currentClockCycle == 0 && ranks[i].State() == FreshRank(c)
      ensures forall i, j :: 0 <= i < j < |ranks| ==> ranks[i] != ranks[j]
    {
      ranks := [];
      for n := 0 to c.ranks
        invariant |ranks| == n
        invariant forall i :: 0 <= i < n ==>
          fresh(ranks[i]) && ranks[i].c == c && ranks[i].currentClockCycle == 0 && ranks[i].State() == FreshRank(c)
        invariant forall i, j :: 0 <= i < j < n ==> ranks[i] != ranks[j]
      {
        var rank := new Rank(c);
        ranks := ranks + [rank];
      }
    }

    constructor (c: Config, firstRefresh: seq<nat>)
      requires c.Sensible() && |firstRefresh| == c.ranks
      ensures this.c == c && Valid() && Initial(c, State()) && State().refreshCountdown == firstRefresh
      ensures fresh(memoryController) && fresh(memoryController.commandQueue)
      ensures forall i :: 0 <= i < |ranks| ==> fresh(ranks[i])
    {
      hide Shape, Initial, FreshRank, Config.Sensible;
      this.c := c;
      var rs := MakeRanks(c);
      ranks := rs;
      memoryController := new MemoryController(c, rs, firstRefresh);
      pendingTransactions := [];
    }

    /** A request from outside; it waits here if the controller cannot take it. */
    method AddTransaction(t: Transaction)
      requires Valid() && Placed(c, t)
      modifies this, memoryController
      ensures Valid() && State() == Submit(c, old(State()), t)
    {
      hide Shape, Config.Sensible;
      ghost var s := State();
      SubmitCases(c, s, t);
      if |memoryController.transactionQueue| < c.transQueueDepth {
        var _ := memoryController.AddTransaction(t, pendingTransactions);
      } else {
        pendingTransactions := pendingTransactions + [t];
        assert State() == Submit(c, s, t);
      }
    }

    /** A request that goes straight to the controller, which may refuse it. */
    method OfferTransaction(t: Transaction) returns (accepted: bool)
      requires Valid() && Placed(c, t)
      modifies memoryController
      ensures Valid() && State() == Offer(c, old(State()), t) && accepted == WillAccept(c, old(State()))
    {
      hide Shape, Config.Sensible, Offer;
      accepted := memoryController.AddTransaction(t, pendingTransactions);
    }

    /** Rank i moves on by one cycle and hands its read data over. */
    method UpdateRank(i: nat) returns (r: Result<()>)
      requires Valid() && i < c.ranks
      modifies memoryController, ranks
      ensures match AdvanceRank(c, old(State()), i)
              case Ok(s) => r.Ok? && Valid() && State() == s
              case Exit(f) => r == Exit(f)
    {
      hide Shape, AdvanceRank, Advance, Config.Sensible;
      ghost var s := State();
      AdvanceCases(c, s, i);
      ghost var before := memoryController.RankStates();
      var sent := ranks[i].Update();
      assert memoryController.RankStates() == before[i := ranks[i].State()];
      if sent.Some? {
        r := memoryController.ReceiveFromBus(sent.value);
        if r.Exit? {
          return;
        }
      }
      assert AdvanceRank(c, s, i) == Ok(State());
      return Ok(());
    }

    method UpdateRanks() returns (r: Result<()>)
      requires Valid()
      modifies memoryController, ranks
      ensures match AdvanceRanks(c, old(State()), 0)
              case Ok(s) => r.Ok? && Valid() && State() == s
              case Exit(f) => r == Exit(f)
    {
      hide Shape, AdvanceRank, AdvanceRanks, Config.Sensible;
      ghost var s := State();
      AdvanceRanksNext(c, s, 0);
      for i := 0 to c.ranks
        invariant Valid() && |State().ranks| == c.ranks && AdvanceRanks(c, s, 0) == AdvanceRanks(c, State(), i)
      {
        AdvanceRanksNext(c, State(), i);
        r := UpdateRank(i);
        if r.Exit? {
          return;
        }
        AdvanceRanksNext(c, State(), i + 1);
      }
      AdvanceRanksNext(c, State(), c.ranks);
      return Ok(());
    }

    /** The oldest waiting request enters the controller's queue if there is a place. */
    method AdmitPending()
      requires Valid()
      modifies this, memoryController
      ensures Valid() && State() == AdmitWaiting(c, old(State()))
    {
      hide Shape, Config.Sensible, AdmitWaiting;
      ghost var s := State();
      AdmitCases(c, s);
      if |pendingTransactions| > 0 && |memoryController.transactionQueue| < c.transQueueDepth {
        var _ := memoryController.AddTransaction(pendingTransactions[0], pendingTransactions);
        pendingTransactions := pendingTransactions[1..];
        assert State() == AdmitWaiting(c, s);
      }
    }

    /** The clocks of the ranks move on. */
    method StepRanks()
      requires memoryController.ranks == ranks && memoryController.Linked(memoryController.currentClockCycle + 1)
      modifies ranks
      ensures forall i :: 0 <= i < |ranks| ==> ranks[i].currentClockCycle == memoryController.currentClockCycle + 1
      ensures memoryController.RankStates() == old(memoryController.RankStates())
    {
      var now := memoryController.currentClockCycle;
      ghost var before := memoryController.RankStates();
      for i := 0 to |ranks|
        invariant forall j :: 0 <= j < i ==> ranks[j].currentClockCycle == now + 1
        invariant forall j :: i <= j < |ranks| ==> ranks[j].currentClockCycle == now
        invariant forall j :: 0 <= j < |ranks| ==> ranks[j].State() == before[j]
      {
        ranks[i].Step();
      }
      assert memoryController.RankStates() == before;
    }

    /** The controller's update and then the clocks. */
    method UpdateAndStep() returns (r: Result<()>)
      requires Valid()
      modifies memoryController, memoryController.commandQueue, ranks
      ensures match UpdateController(c, old(State()))
              case Ok(s) => r.Ok? && Valid() && State() == s
              case Exit(f) => r == Exit(f)
    {
      hide Shape, UpdateController, Config.Sensible;
      r := memoryController.Update(pendingTransactions);
      if r.Exit? {
        return;
      }
      StepRanks();
      memoryController.Step();
    }

    /** One step of the whole system. */
    method Update() returns (r: Result<()>)
      requires Valid()
      modifies this, memoryController, memoryController.commandQueue, ranks
      ensures match Step(c, old(State()))
              case Ok(s) => r.Ok? && Valid() && State() == s
              case Exit(f) => r == Exit(f)
    {
      hide Shape, UpdateController, AdvanceRanks, AdmitWaiting, Step, Config.Sensible;
      StepCases(c, State());
      r := UpdateRanks();
      if r.Exit? {
        return;
      }
      AdmitPending();
      r := UpdateAndStep();
    }
  }

  lemma SubmitCases(c: Config, s: Sys, t: Transaction)
    requires Shape(c, s) && Placed(c, t)
    ensures Shape(c, Submit(c, s, t))
    ensures Submit(c, s, t) ==
      if |s.transactions| < c.transQueueDepth then Offer(c, s, t) else s.(waiting := s.waiting + [t])
  {
  }

  /** Rank i after its cycle, and the read data it has sent. */
  function TakeSent(s: Sys, i: nat, rank: RankState, sent: Option<Packet>): Result<Sys>
    requires i < |s.ranks|
  {
    var s1 := s.(ranks := s.ranks[i := rank]);
    match sent
    case None => Ok(s1)
    case Some(p) => if p.kind.Data? then Ok(s1.(returned := s1.returned + [p.addr])) else Exit(NotData)
  }

  lemma AdvanceCases(c: Config, s: Sys, i: nat)
    requires Shape(c, s) && i < c.ranks
    ensures |s.ranks| == c.ranks
    ensures AdvanceRank(c, s, i).Ok? ==> Shape(c, AdvanceRank(c, s, i).value)
    ensures AdvanceRank(c, s, i) == TakeSent(s, i, Advance(c, s.ranks[i]).0, Advance(c, s.ranks[i]).1)
  {
    hide Advance;
  }

  lemma AdvanceRanksNext(c: Config, s: Sys, i: nat)
    requires Shape(c, s) && i <= c.ranks
    ensures |s.ranks| == c.ranks
    ensures AdvanceRanks(c, s, i) ==
      if i == |s.ranks| then Ok(s)
      else match AdvanceRank(c, s, i)
           case Exit(f) => Exit(f)
           case Ok(s1) => AdvanceRanks(c, s1, i + 1)
  {
  }

  lemma AdmitCases(c: Config, s: Sys)
    requires Shape(c, s)
    ensures Shape(c, AdmitWaiting(c, s))
    ensures forall i :: 0 <= i < |s.waiting| ==> Placed(c, s.waiting[i])
    ensures AdmitWaiting(c, s) ==
      if |s.waiting| > 0 && |s.transactions| < c.transQueueDepth
      then Offer(c, s, s.waiting[0]).(waiting := s.waiting[1..])
      else s
  {
  }

  /** One step is the ranks, a waiting request, and the controller, in this order. */
  lemma StepCases(c: Config, s: Sys)
    requires c.Sensible() && Shape(c, s)
    ensures |s.ranks| == c.ranks
    ensures Step(c, s) == if AdvanceRanks(c, s, 0).Exit? then Exit(AdvanceRanks(c, s, 0).fault)
                          else UpdateController(c, AdmitWaiting(c, AdvanceRanks(c, s, 0).value))
  {
    hide CountDown, MoveBuses, Command, Close, AdvanceRanks, AdmitWaiting;
  }
}
