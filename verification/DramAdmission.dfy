/** How requests get into the controller: none is lost or doubled on the way, and those that wait are taken in order. */
module DramAdmission {
  import opened Wrappers
  import opened DramTypes
  import opened DramBank
  import opened DramQueue
  import opened DramSystem
  import opened DramReads
  import opened DramTheorems
  import opened Sums

  predicate SameRequests(s: Sys, s1: Sys) { s1.waiting == s.waiting && s1.history.accepted == s.history.accepted }

  lemma {:induction false} AdvanceKeepsRequests(c: Config, s: Sys, i: nat)
    requires c.Sensible() && Shape(c, s) && i <= c.ranks && AdvanceRanks(c, s, i).Ok?
    ensures var s1 := AdvanceRanks(c, s, i).value; SameRequests(s, s1) && s1.transactions == s.transactions
    decreases c.ranks - i
  {
    if i < c.ranks {
      AdvanceKeepsRequests(c, AdvanceRank(c, s, i).value, i + 1);
    }
  }

  lemma OnePowerKeepsRequests(c: Config, s: Sys, i: nat)
    requires c.Sensible() && Shape(c, s) && i < c.ranks && PowerRank(c, s, i).Ok?
    ensures SameRequests(s, PowerRank(c, s, i).value)
  {
    hide QueueShape, Empty;
  }

  lemma {:induction false} PowerKeepsRequests(c: Config, s: Sys, i: nat)
    requires c.Sensible() && Shape(c, s) && i <= c.ranks && PowerRanks(c, s, i).Ok?
    ensures SameRequests(s, PowerRanks(c, s, i).value)
    decreases c.ranks - i
  {
    if i < c.ranks && c.lowPower {
      OnePowerKeepsRequests(c, s, i);
      hide QueueShape, PowerRank;
      PowerKeepsRequests(c, PowerRank(c, s, i).value, i + 1);
    }
  }

  lemma CommandKeepsRequests(c: Config, s: Sys)
    requires c.Sensible() && Shape(c, s) && Command(c, s).Ok?
    ensures SameRequests(s, Command(c, s).value)
  {
    hide QueueShape, Pop, HasRoom, Enqueue;
  }

  lemma BusesKeepRequests(c: Config, s: Sys)
    requires c.Sensible() && Shape(c, s) && MoveBuses(c, s).Ok?
    ensures SameRequests(s, MoveBuses(c, s).value)
  {
    hide QueueShape;
  }

  /** How many of those that wait are taken by the next update. */
  function Entering(c: Config, s: Sys): (n: nat)
    ensures n <= |s.waiting|
  {
    if |s.transactions| < c.transQueueDepth && s.waiting != [] then 1 else 0
  }

  lemma ArriveAdmits(c: Config, s: Sys)
    requires c.Sensible() && Shape(c, s) && Arrive(c, s).Ok?
    ensures var s1 := Arrive(c, s).value; var n := Entering(c, s);
      s1.waiting == s.waiting[n..] && s1.history.accepted == s.history.accepted + s.waiting[..n]
  {
    AdvanceKeepsRequests(c, s, 0);
    hide QueueShape, AdvanceRanks, TickTable;
  }

  lemma CloseKeepsRequests(c: Config, s: Sys)
    requires c.Sensible() && Shape(c, s) && Close(c, s).Ok?
    ensures SameRequests(s, Close(c, s).value)
  {
    PowerKeepsRequests(c, s, 0);
    hide QueueShape, PowerRanks;
  }

  /** An update takes the request that has waited longest, if the controller has a place, and no other. */
  lemma UpdateAdmits(c: Config, s: Sys)
    requires c.Sensible() && Shape(c, s) && Step(c, s).Ok?
    ensures var s1 := Step(c, s).value; var n := Entering(c, s);
      s1.waiting == s.waiting[n..] && s1.history.accepted == s.history.accepted + s.waiting[..n]
  {
    hide QueueShape, Arrive, MoveBuses, Command, Close;
    ArriveAdmits(c, s);
    var s1 := Arrive(c, s).value;
    var s2 := MoveBuses(c, s1).value;
    BusesKeepRequests(c, s1);
    CommandKeepsRequests(c, s2);
    CloseKeepsRequests(c, Command(c, s2).value);
  }

  /** The transactions that were handed over, in order: a direct one only if it was taken. */
  function Requested(c: Config, s: Sys, ops: seq<Op>): seq<Transaction>
    requires c.Sensible() && Shape(c, s) && forall i :: 0 <= i < |ops| ==> ValidOp(c, ops[i])
    decreases |ops|
  {
    if ops == [] || Do(c, s, ops[0]).Exit? then []
    else
      var now := match ops[0]
        case Request(t) => [t]
        case Direct(t) => if |s.transactions| < c.transQueueDepth then [t] else []
        case Cycle => [];
      now + Requested(c, Do(c, s, ops[0]).value, ops[1..])
  }

  lemma DoKeepsRequests(c: Config, s: Sys, op: Op, w: Transaction -> nat)
    requires c.Sensible() && Shape(c, s) && ValidOp(c, op) && Do(c, s, op).Ok?
    ensures var s1 := Do(c, s, op).value;
      Sum(s1.history.accepted, w) + Sum(s1.waiting, w) == Sum(s.history.accepted, w) + Sum(s.waiting, w) +
        match op
        case Request(t) => w(t)
        case Direct(t) => if |s.transactions| < c.transQueueDepth then w(t) else 0
        case Cycle => 0
  {
    hide Sum, Step, QueueShape;
    match op
    case Cycle =>
      UpdateAdmits(c, s);
      Moved(s.history.accepted, s.waiting, Entering(c, s), w);
    case Request(t) =>
      SumPush(s.history.accepted, t, w);
      SumPush(s.waiting, t, w);
    case Direct(t) =>
      SumPush(s.history.accepted, t, w);
  }

  lemma Moved(a: seq<Transaction>, b: seq<Transaction>, n: nat, w: Transaction -> nat)
    requires n <= |b|
    ensures Sum(a + b[..n], w) + Sum(b[n..], w) == Sum(a, w) + Sum(b, w)
  {
    hide Sum;
    SumAppend(a, b[..n], w);
    SumAppend(b[..n], b[n..], w);
    assert b[..n] + b[n..] == b;
  }

  lemma {:induction false} RunKeepsRequests(c: Config, s: Sys, ops: seq<Op>, w: Transaction -> nat)
    requires c.Sensible() && Shape(c, s) && forall i :: 0 <= i < |ops| ==> ValidOp(c, ops[i])
    requires Run(c, s, ops).Ok?
    ensures var e := Run(c, s, ops).value;
      Sum(e.history.accepted, w) + Sum(e.waiting, w) ==
        Sum(s.history.accepted, w) + Sum(s.waiting, w) + Sum(Requested(c, s, ops), w)
    decreases |ops|
  {
    hide Do, QueueShape;
    if ops != [] {
      var s1 := Do(c, s, ops[0]).value;
      DoKeepsRequests(c, s, ops[0], w);
      RunKeepsRequests(c, s1, ops[1..], w);
      var rest := Requested(c, s1, ops[1..]);
      if ops[0].Cycle? {
        assert [] + rest == rest;
      } else {
        SumAppend([ops[0].t], rest, w);
        SumOne(ops[0].t, w);
        assert [] + rest == rest;
      }
    }
  }

  /** In every run a read is answered, under way, or waiting inside or outside, as often as it was requested. */
  lemma RequestsConserved(c: Config, s: Sys, ops: seq<Op>, a: nat)
    requires c.Sensible() && Initial(c, s) && forall i :: 0 <= i < |ops| ==> ValidOp(c, ops[i])
    requires Run(c, s, ops).Ok?
    ensures var e := Run(c, s, ops).value;
      Sum(Requested(c, s, ops), ReadWeight(a)) == Sum(e.waiting, ReadWeight(a)) +
        Sum(e.transactions, ReadWeight(a)) + OnTheWay(e, a) + Sum(e.history.answered, AddrWeight(a))
  {
    hide Run, Requested, QueueShape, InitialQueue, OnTheWay;
    ReadsConserved(c, s, ops, a);
    RunKeepsRequests(c, s, ops, ReadWeight(a));
  }

  /** Whatever is counted, what was requested was accepted or still waits. */
  lemma NothingLost(c: Config, s: Sys, ops: seq<Op>, w: Transaction -> nat)
    requires c.Sensible() && Initial(c, s) && forall i :: 0 <= i < |ops| ==> ValidOp(c, ops[i])
    requires Run(c, s, ops).Ok?
    ensures var e := Run(c, s, ops).value;
      Sum(e.history.accepted, w) + Sum(e.waiting, w) == Sum(Requested(c, s, ops), w)
  {
    hide Run, Requested, QueueShape, InitialQueue;
    RunKeepsRequests(c, s, ops, w);
  }
}
