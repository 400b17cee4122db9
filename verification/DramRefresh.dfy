/** When refreshes are requested: in every run each rank's turn comes exactly once in a refresh period. */
module DramRefresh {
  import opened Arith
  import opened DramTypes
  import opened DramBank
  import opened DramQueue
  import opened DramRank
  import opened DramSystem
  import opened DramSafety
  import opened DramTheorems
  import DramOrderTheorems

  // ---- the counters ----

  /** Rank i comes before rank j when the ranks are counted from k on. */
  predicate Before(k: nat, i: nat, j: nat) { if (i >= k) == (j >= k) then i < j else i >= k }

  /** The ranks are due one after the other, from rank k on, all within one period. */
  ghost predicate Staggered(period: nat, cs: seq<nat>, k: nat) {
    && k < |cs| && period > 0
    && forall i, j :: 0 <= i < |cs| && 0 <= j < |cs| && Before(k, i, j) ==> cs[i] < cs[j] < cs[i] + period
  }

  /** The cycles from now to the next request, for a rank that is first due at cycle first. */
  function Left(period: nat, first: nat, now: nat): nat
    requires period > 0
  {
    if now <= first then first - now else (first - now) % period
  }

  /** In this cycle the rank is due. */
  predicate DueAt(period: nat, first: nat, now: nat)
    requires period > 0
  {
    now >= first && (now - first) % period == 0
  }

  lemma LeftStep(period: nat, first: nat, now: nat)
    requires period > 0
    ensures Left(period, first, now) == 0 <==> DueAt(period, first, now)
    ensures Left(period, first, now + 1) ==
      if Left(period, first, now) == 0 then period - 1 else Left(period, first, now) - 1
  {
    if now >= first {
      OneLess(first - now, period);
      NegatedZero(now - first, period);
    }
  }

  lemma OneLess(x: int, p: nat)
    requires p > 0
    ensures (x - 1) % p == if x % p == 0 then p - 1 else x % p - 1
  {
    Division(x, p);
    if x % p == 0 {
      assert (x / p - 1) * p == x / p * p - p;
      QuotientUnique(x - 1, p, x / p - 1);
    } else {
      QuotientUnique(x - 1, p, x / p);
    }
  }

  lemma NegatedZero(x: int, p: nat)
    requires p > 0
    ensures x % p == 0 <==> (0 - x) % p == 0
  {
    Division(x, p);
    Division(0 - x, p);
    if x % p == 0 {
      assert (0 - x / p) * p == 0 - x / p * p;
      QuotientUnique(0 - x, p, 0 - x / p);
    }
    if (0 - x) % p == 0 {
      assert (0 - (0 - x) / p) * p == 0 - (0 - x) / p * p;
      QuotientUnique(x, p, 0 - (0 - x) / p);
    }
  }

  /** The counters after one cycle. */
  function Counted(period: nat, cs: seq<nat>, k: nat): seq<nat>
    requires k < |cs|
  {
    CountRefresh(if cs[k] == 0 then cs[k := period] else cs)
  }

  function NextRank(cs: seq<nat>, k: nat): nat
    requires k < |cs|
  {
    if cs[k] != 0 then k else if k + 1 == |cs| then 0 else k + 1
  }

  /** Every counter holds the time left, and the rank that is looked at is the next one due. */
  ghost predicate OnTime(period: nat, cs: seq<nat>, k: nat, first: seq<nat>, now: nat) {
    && |first| == |cs| && Staggered(period, cs, k)
    && forall i :: 0 <= i < |cs| ==> cs[i] == Left(period, first[i], now)
  }

  lemma CountedOnTime(period: nat, cs: seq<nat>, k: nat, first: seq<nat>, now: nat)
    requires OnTime(period, cs, k, first, now)
    ensures OnTime(period, Counted(period, cs, k), NextRank(cs, k), first, now + 1)
  {
    var cs1 := Counted(period, cs, k);
    forall i | 0 <= i < |cs| && i != k ensures cs[i] > 0 && cs1[i] == cs[i] - 1 {
      assert Before(k, k, i);
    }
    forall i | 0 <= i < |cs| ensures cs1[i] == Left(period, first[i], now + 1) {
      LeftStep(period, first[i], now);
    }
    var k1 := NextRank(cs, k);
    forall i, j | 0 <= i < |cs| && 0 <= j < |cs| && Before(k1, i, j) ensures cs1[i] < cs1[j] < cs1[i] + period {
      if cs[k] == 0 && j == k {
        assert Before(k, k, i);
      } else {
        assert Before(k, i, j);
      }
    }
  }

  /** At most the rank that is looked at is due. */
  lemma OnlyOneDue(period: nat, cs: seq<nat>, k: nat, first: seq<nat>, now: nat, i: nat)
    requires OnTime(period, cs, k, first, now) && i < |cs|
    ensures DueAt(period, first[i], now) <==> i == k && cs[k] == 0
  {
    LeftStep(period, first[i], now);
    if i != k {
      assert Before(k, k, i);
    }
  }

  /** The counters that the controller starts with, for a period that is no shorter than the number of ranks. */
  lemma StartsStaggered(period: nat, cs: seq<nat>)
    requires |cs| > 0 && period / |cs| > 0
    requires forall i :: 0 <= i < |cs| ==> cs[i] == period / |cs| * (i + 1)
    ensures Staggered(period, cs, 0)
  {
    var q := period / |cs|;
    Division(period, |cs|);
    assert period > 0;
    forall i, j | 0 <= i < |cs| && 0 <= j < |cs| && Before(0, i, j) ensures cs[i] < cs[j] < cs[i] + period {
      MulOrder(i + 1, j + 1, q);
      assert q * (i + 1) == (i + 1) * q && q * (j + 1) == (j + 1) * q && q * |cs| == |cs| * q;
      MulOrder(j + 1, i + 1 + |cs|, q);
      assert (i + 1 + |cs|) * q == (i + 1) * q + |cs| * q;
    }
  }

  // ---- steps and runs ----

  predicate SameTimer(s: Sys, s1: Sys) {
    s1.refreshCountdown == s.refreshCountdown && s1.refreshRank == s.refreshRank
  }

  lemma {:induction false} AdvanceRanksTimer(c: Config, s: Sys, i: nat)
    requires Shape(c, s) && i <= c.ranks && AdvanceRanks(c, s, i).Ok?
    ensures SameTimer(s, AdvanceRanks(c, s, i).value)
    decreases c.ranks - i
  {
    hide QueueShape, Advance;
    if i < c.ranks {
      AdvanceRanksTimer(c, AdvanceRank(c, s, i).value, i + 1);
    }
  }

  lemma FirstHalfTimer(c: Config, s: Sys)
    requires c.Sensible() && Shape(c, s) && Arrive(c, s).Ok? && MoveBuses(c, Arrive(c, s).value).Ok?
    ensures SameTimer(s, MoveBuses(c, Arrive(c, s).value).value)
  {
    ArriveTimer(c, s);
    hide QueueShape, Arrive, MoveBuses;
    BusesTimer(c, Arrive(c, s).value);
  }

  lemma ArriveTimer(c: Config, s: Sys)
    requires c.Sensible() && Shape(c, s) && Arrive(c, s).Ok?
    ensures SameTimer(s, Arrive(c, s).value)
  {
    AdvanceRanksTimer(c, s, 0);
    hide QueueShape, AdvanceRanks, TickTable;
  }

  lemma BusesTimer(c: Config, s: Sys)
    requires c.Sensible() && Shape(c, s) && MoveBuses(c, s).Ok?
    ensures SameTimer(s, MoveBuses(c, s).value)
  {
    hide QueueShape, Receive, CountReturns;
  }

  lemma {:induction false} PowerRanksTimer(c: Config, s: Sys, i: nat)
    requires c.Sensible() && Shape(c, s) && i <= c.ranks && PowerRanks(c, s, i).Ok?
    ensures SameTimer(s, PowerRanks(c, s, i).value)
    decreases c.ranks - i
  {
    hide QueueShape, Wake, Sleep, WakeBanks, SleepBanks;
    if i < c.ranks && c.lowPower {
      PowerRanksTimer(c, PowerRank(c, s, i).value, i + 1);
    }
  }

  lemma CommandTimer(c: Config, s: Sys)
    requires c.Sensible() && Shape(c, s) && IssueNext(c, s).Ok?
    ensures SameTimer(s, IssueNext(c, s).value)
    ensures var s1 := IssueNext(c, s).value; Schedule(c, s1).Ok? ==> SameTimer(s, Schedule(c, s1).value)
  {
    hide QueueShape, Pop;
  }

  lemma CloseTimer(c: Config, s: Sys)
    requires c.Sensible() && Shape(c, s) && Close(c, s).Ok?
    ensures Close(c, s).value.refreshCountdown == CountRefresh(s.refreshCountdown)
    ensures Close(c, s).value.refreshRank == s.refreshRank
  {
    hide QueueShape, PowerRanks;
    PowerRanksTimer(c, s, 0);
  }

  lemma TimerCounts(c: Config, s: Sys)
    requires c.Sensible() && Shape(c, s) && |s.refreshCountdown| == c.ranks
    ensures var s1 := RefreshTimer(c, s);
      && CountRefresh(s1.refreshCountdown) == Counted(c.refreshCycles, s.refreshCountdown, s.refreshRank)
      && s1.refreshRank == NextRank(s.refreshCountdown, s.refreshRank)
  {
    hide QueueShape;
  }

  lemma StepTimer(c: Config, s: Sys)
    requires c.Sensible() && Shape(c, s) && Step(c, s).Ok?
    ensures var e := Step(c, s).value;
      && e.refreshCountdown == Counted(c.refreshCycles, s.refreshCountdown, s.refreshRank)
      && e.refreshRank == NextRank(s.refreshCountdown, s.refreshRank)
  {
    var s1 := Arrive(c, s).value;
    var s2 := MoveBuses(c, s1).value;
    var s3 := RefreshTimer(c, s2);
    var s4 := IssueNext(c, s3).value;
    var s5 := Schedule(c, s4).value;
    hide QueueShape, Arrive, MoveBuses, RefreshTimer, IssueNext, Schedule, Close;
    FirstHalfTimer(c, s);
    TimerCounts(c, s2);
    CommandTimer(c, s3);
    CloseTimer(c, s5);
  }

  ghost predicate Timed(c: Config, s: Sys, first: seq<nat>) {
    OnTime(c.refreshCycles, s.refreshCountdown, s.refreshRank, first, s.now)
  }

  lemma {:induction false} RunTimed(c: Config, s: Sys, ops: seq<Op>, first: seq<nat>)
    requires c.Sensible() && Shape(c, s) && Good(c, s) && DramOrderTheorems.Orderly(c, s, s.now - 1)
    requires Timed(c, s, first) && forall i :: 0 <= i < |ops| ==> ValidOp(c, ops[i])
    requires Run(c, s, ops).Ok?
    ensures Timed(c, Run(c, s, ops).value, first)
    decreases |ops|
  {
    hide Shape, Good, Step, DramOrderTheorems.Orderly, OnTime;
    if ops != [] {
      var s1 := Do(c, s, ops[0]).value;
      match ops[0] {
        case Request(t) =>
          OfferGood(c, s, t);
          DramOrderTheorems.SubmitOrderly(c, s, t);
        case Direct(t) =>
          OfferGood(c, s, t);
          DramOrderTheorems.SubmitOrderly(c, s, t);
        case Cycle =>
          StepGood(c, s);
          DramOrderTheorems.StepOrderly(c, s);
          StepTimer(c, s);
          CountedOnTime(c.refreshCycles, s.refreshCountdown, s.refreshRank, first, s.now);
      }
      RunTimed(c, s1, ops[1..], first);
    }
  }

  /** The system when its timer is looked at, in the update that follows. */
  function AtTimer(c: Config, s: Sys): (r: Sys)
    requires c.Sensible() && Shape(c, s) && Step(c, s).Ok?
    ensures Shape(c, r)
  {
    MoveBuses(c, Arrive(c, s).value).value
  }

  /** The refresh of rank i is asked for, at the queue and at the rank. */
  predicate Asks(s: Sys, s1: Sys, i: nat) {
    && s1.queue == s.queue.(refreshWaiting := true, refreshRank := i)
    && |s1.ranks| == |s.ranks| && i < |s.ranks| && s1.ranks[i].refreshWaiting
  }

  /**
   In every run, in the update of cycle n the refresh of rank i is asked for exactly if its first request was n or a
   whole number of periods before; at most one rank is due in a cycle, and otherwise the queue is left alone.
  */
  lemma RefreshesOnTime(c: Config, s: Sys, ops: seq<Op>, i: nat)
    requires c.Sensible() && Initial(c, s) && forall i :: 0 <= i < |ops| ==> ValidOp(c, ops[i])
    requires Staggered(c.refreshCycles, s.refreshCountdown, 0) && i < c.ranks
    requires Run(c, s, ops).Ok? && Step(c, Run(c, s, ops).value).Ok?
    ensures var e := Run(c, s, ops).value; var m := AtTimer(c, e); var m1 := RefreshTimer(c, m);
      && |s.refreshCountdown| == c.ranks
      && (DueAt(c.refreshCycles, s.refreshCountdown[i], e.now) ==> Asks(m, m1, i))
      && (DueAt(c.refreshCycles, s.refreshCountdown[i], e.now) ==>
           forall j :: 0 <= j < c.ranks && j != i ==> !DueAt(c.refreshCycles, s.refreshCountdown[j], e.now))
      && ((forall j :: 0 <= j < c.ranks ==> !DueAt(c.refreshCycles, s.refreshCountdown[j], e.now)) ==>
           m1.queue == m.queue)
  {
    var first := s.refreshCountdown;
    hide Run, Good, DramOrderTheorems.Orderly, QueueShape, InitialQueue, Arrive, MoveBuses, Command, Close;
    InitialGood(c, s);
    DramOrderTheorems.InitialOrderly(c, s);
    assert Timed(c, s, first);
    RunTimed(c, s, ops, first);
    var e := Run(c, s, ops).value;
    FirstHalfTimer(c, e);
    forall j: nat | j < c.ranks
      ensures DueAt(c.refreshCycles, first[j], e.now) <==> j == e.refreshRank && e.refreshCountdown[j] == 0
    {
      OnlyOneDue(c.refreshCycles, e.refreshCountdown, e.refreshRank, first, e.now, j);
    }
  }

  /** A sleeping rank that is the next one due is told so when no more cycles are left than it takes to wake. */
  lemma WokenInTime(c: Config, s: Sys, ops: seq<Op>, i: nat)
    requires c.Sensible() && Initial(c, s) && forall i :: 0 <= i < |ops| ==> ValidOp(c, ops[i])
    requires Staggered(c.refreshCycles, s.refreshCountdown, 0) && i < c.ranks == |s.refreshCountdown|
    requires Run(c, s, ops).Ok? && Step(c, Run(c, s, ops).value).Ok?
    requires var e := Run(c, s, ops).value;
      var left := Left(c.refreshCycles, s.refreshCountdown[i], e.now);
      && AtTimer(c, e).powerDown[i] && left <= c.tXP
      && forall j :: 0 <= j < c.ranks ==> left <= Left(c.refreshCycles, s.refreshCountdown[j], e.now)
    ensures RefreshTimer(c, AtTimer(c, Run(c, s, ops).value)).ranks[i].refreshWaiting
  {
    var first := s.refreshCountdown;
    hide Run, Good, DramOrderTheorems.Orderly, QueueShape, InitialQueue, Arrive, MoveBuses, Command, Close, Left;
    InitialGood(c, s);
    DramOrderTheorems.InitialOrderly(c, s);
    StartsTimed(c, s);
    RunTimed(c, s, ops, first);
    var e := Run(c, s, ops).value;
    FirstHalfTimer(c, e);
    assert i != e.refreshRank ==> Before(e.refreshRank, e.refreshRank, i);
  }

  lemma StartsTimed(c: Config, s: Sys)
    requires c.Sensible() && Initial(c, s) && Staggered(c.refreshCycles, s.refreshCountdown, 0)
    ensures Timed(c, s, s.refreshCountdown)
  {
  }
}
