/** Whole simulations: the objects, built anew and driven by any sequence of outside operations. */
module DramSimulation {
  import opened DramTypes
  import opened DramSystem
  import opened DramMemorySystem
  import opened DramWrites
  import opened DramTheorems

  /** Runs split at any place. */
  lemma {:induction false} RunThen(c: Config, s: Sys, ops: seq<Op>, op: Op)
    requires c.Sensible() && Shape(c, s) && (forall i :: 0 <= i < |ops| ==> ValidOp(c, ops[i])) && ValidOp(c, op)
    ensures Run(c, s, ops + [op]) ==
      if Run(c, s, ops).Exit? then Run(c, s, ops) else Do(c, Run(c, s, ops).value, op)
    decreases |ops|
  {
    hide Do, Shape;
    if ops == [] {
      assert ops + [op] == [op];
      assert [op][1..] == [];
    } else {
      assert (ops + [op])[0] == ops[0] && (ops + [op])[1..] == ops[1..] + [op];
      match Do(c, s, ops[0])
      case Exit(f) =>
      case Ok(s1) => RunThen(c, s1, ops[1..], op);
    }
  }

  /** A run that has stopped stays stopped. */
  lemma {:induction false} StopsAt(c: Config, s: Sys, ops: seq<Op>, n: nat)
    requires c.Sensible() && Shape(c, s) && (forall i :: 0 <= i < |ops| ==> ValidOp(c, ops[i])) && n <= |ops|
    requires Run(c, s, ops[..n]).Exit?
    ensures Run(c, s, ops) == Run(c, s, ops[..n])
    decreases n
  {
    hide Do, Shape;
    if n > 0 {
      assert ops[..n][0] == ops[0] && ops[..n][1..] == ops[1..][..n - 1];
      match Do(c, s, ops[0])
      case Exit(f) =>
      case Ok(s1) => StopsAt(c, s1, ops[1..], n - 1);
    }
  }

  lemma InitialShape(c: Config, s: Sys)
    requires Initial(c, s)
    ensures Shape(c, s)
  {
  }

  lemma RunNothing(c: Config, s: Sys)
    requires c.Sensible() && Shape(c, s)
    ensures Run(c, s, []) == Ok(s)
  {
  }

  /** Builds a memory system, drives it, and gives the addresses of the reads it has answered, in order. */
  method Simulate(c: Config, firstRefresh: seq<nat>, ops: seq<Op>) returns (r: Result<seq<nat>>, ghost start: Sys)
    requires c.Sensible() && |firstRefresh| == c.ranks && forall i :: 0 <= i < |ops| ==> ValidOp(c, ops[i])
    ensures WritesFit(c) ==> r.Ok?
    ensures r.Exit? ==> r.fault.DataBusCollision?
    ensures Initial(c, start) && start.refreshCountdown == firstRefresh
    ensures match Run(c, start, ops) case Ok(e) => r == Ok(e.history.answered) case Exit(f) => r == Exit(f)
  {
    hide Shape, Step, Submit, Offer, Initial, Run, Config.Sensible;
    var system := new MemorySystem(c, firstRefresh);
    start := system.State();
    InitialShape(c, start);
    NoExitReachable(c, start, ops);
    RunNothing(c, start);
    assert ops[..0] == [];
    for i := 0 to |ops|
      invariant fresh(system) && fresh(system.memoryController) && fresh(system.memoryController.commandQueue)
      invariant forall k :: 0 <= k < |system.ranks| ==> fresh(system.ranks[k])
      invariant system.c == c && system.Valid() && Run(c, start, ops[..i]) == Ok(system.State())
    {
      RunThen(c, start, ops[..i], ops[i]);
      assert ops[..i + 1] == ops[..i] + [ops[i]];
      match ops[i] {
        case Request(t) => system.AddTransaction(t);
        case Direct(t) => var _ := system.OfferTransaction(t);
        case Cycle =>
          var step := system.Update();
          if step.Exit? {
            StopsAt(c, start, ops, i + 1);
            return Exit(step.fault), start;
          }
      }
    }
    assert ops[..|ops|] == ops;
    return Ok(system.memoryController.history.answered), start;
  }
}
