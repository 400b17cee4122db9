/** What pop gives while no bank but one has commands queued. */
module DramOneBank {
  import opened Wrappers
  import opened DramTypes
  import opened DramBank
  import opened DramQueue
  import opened DramRank
  import opened DramSystem
  import opened DramOrder

  // ---- the search finds what can go ----

  /** The walk that started at (r0, b0) and is at (r, b) has still to visit queue (rt, bt). */
  predicate Ahead(c: Config, rt: nat, bt: nat, r: nat, b: nat, r0: nat, b0: nat)
    requires rt < c.ranks && bt < c.banks && r < c.ranks && b < c.banks && r0 < c.ranks && b0 < c.banks
  {
    || QueueLaps(c, rt, bt, r0, b0) < QueueLaps(c, r, b, r0, b0)
    || (QueueLaps(c, rt, bt, r0, b0) == QueueLaps(c, r, b, r0, b0) && PairRest(c, rt, bt) <= PairRest(c, r, b))
  }

  lemma AheadAtStart(c: Config, rt: nat, bt: nat, r0: nat, b0: nat)
    requires rt < c.ranks && bt < c.banks && r0 < c.ranks && b0 < c.banks && (!c.perBank ==> bt == b0)
    ensures Ahead(c, rt, bt, r0, b0, r0, b0)
  {
  }

  lemma AheadNext(c: Config, rt: nat, bt: nat, r: nat, b: nat, r0: nat, b0: nat)
    requires rt < c.ranks && bt < c.banks && r < c.ranks && b < c.banks && r0 < c.ranks && b0 < c.banks
    requires (rt, bt) != (r, b) && (!c.perBank ==> b == b0 && bt == b0) && Ahead(c, rt, bt, r, b, r0, b0)
    ensures var n := NextQueue(c, r, b); n != (r0, b0) && Ahead(c, rt, bt, n.0, n.1, r0, b0)
  {
  }

  /** The round robin does not come back empty-handed while a queue ahead has a packet that may go. */
  lemma {:induction false} ScanReaches(c: Config, q: QueueState, t: Table, r: nat, b: nat, r0: nat, b0: nat, now: nat,
      rt: nat, bt: nat)
    requires c.Sensible() && QueueShape(c, q) && TableShape(c, t) && !q.refreshWaiting
    requires r < c.ranks && b < c.banks && r0 < c.ranks && b0 < c.banks && (!c.perBank ==> b == b0 && bt == b0)
    requires rt < c.ranks && bt < c.banks && Ahead(c, rt, bt, r, b, r0, b0)
    requires FirstEligible(c, q, t, Line(c, q, rt, bt), rt, Slot(c, bt), 0, now) < |Line(c, q, rt, bt)|
    ensures ScanQueues(c, q, t, r, b, r0, b0, now).FromQueue?
    decreases QueueLaps(c, r, b, r0, b0), PairRest(c, r, b)
  {
    hide QueueShape, FirstEligible, Ahead, NextQueue, QueueLaps, PairRest;
    var line := Line(c, q, r, b);
    if FirstEligible(c, q, t, line, r, Slot(c, b), 0, now) < |line| {
    } else {
      AheadNext(c, rt, bt, r, b, r0, b0);
      QueueWalk(c, r, b, r0, b0);
      var n := NextQueue(c, r, b);
      ScanReaches(c, q, t, n.0, n.1, r0, b0, now, rt, bt);
    }
  }

  /** Only the queues of bank bt hold anything, that of rank r lines[r]. */
  ghost predicate Only(c: Config, q: QueueState, bt: nat, lines: seq<seq<Packet>>)
    requires c.Sensible() && QueueShape(c, q) && bt < c.banks && |lines| == c.ranks
  {
    forall r, b :: 0 <= r < c.ranks && 0 <= b < c.banks ==>
      Line(c, q, r, b) == if Slot(c, b) == Slot(c, bt) then lines[r] else []
  }

  /** None of these packets may go. */
  ghost predicate Stuck(c: Config, q: QueueState, t: Table, line: seq<Packet>, now: nat)
    requires QueueShape(c, q) && TableShape(c, t)
  {
    forall i :: 0 <= i < |line| ==>
      line[i].rank < c.ranks && line[i].bank < c.banks && !Eligible(c, q, t, line, i, now)
  }

  /** No refresh is waiting and no row has been used twice. */
  ghost predicate Plain(c: Config, q: QueueState)
    requires QueueShape(c, q)
  {
    !q.refreshWaiting && forall r, b :: 0 <= r < c.ranks && 0 <= b < c.banks ==> q.rowAccess[r][b] == 0
  }

  function Aged(q: QueueState): QueueState { q.(faw := AgeAll(q.faw)) }

  lemma AgedLines(c: Config, q: QueueState)
    requires c.Sensible() && QueueShape(c, q)
    ensures QueueShape(c, Aged(q)) && (Plain(c, q) <==> Plain(c, Aged(q)))
    ensures forall r, b :: 0 <= r < c.ranks && 0 <= b < c.banks ==> Line(c, Aged(q), r, b) == Line(c, q, r, b)
  {
    hide LineShape;
  }

  /** The walk over the rows to close finds one if there is one ahead. */
  lemma {:induction false} RowsReached(c: Config, q: QueueState, t: Table, r: nat, b: nat, r0: nat, b0: nat, now: nat,
      rt: nat, bt: nat)
    requires c.Sensible() && QueueShape(c, q) && TableShape(c, t)
    requires r < c.ranks && b < c.banks && r0 < c.ranks && b0 < c.banks && rt < c.ranks && bt < c.banks
    requires Ahead(c.(perBank := true), rt, bt, r, b, r0, b0) && Closable(c, q, t, rt, bt, now)
    ensures ScanRows(c, q, t, r, b, r0, b0, now).CloseRow?
    decreases PairLaps(c, r, b, r0, b0), PairRest(c, r, b)
  {
    hide QueueShape, Closable;
    if !Closable(c, q, t, r, b, now) {
      AheadNext(c.(perBank := true), rt, bt, r, b, r0, b0);
      QueueWalk(c.(perBank := true), r, b, r0, b0);
      var n := NextRankAndBank(c, r, b);
      RowsReached(c, q, t, n.0, n.1, r0, b0, now, rt, bt);
    }
  }

  /** If the first packet of rank rt's queue is the only one that may go, it is chosen. */
  lemma ChoosesFirst(c: Config, q: QueueState, t: Table, now: nat, rt: nat, bt: nat, lines: seq<seq<Packet>>)
    requires c.Sensible() && QueueShape(c, q) && TableShape(c, t) && rt < c.ranks == |lines| && bt < c.banks
    requires Only(c, q, bt, lines) && Plain(c, q) && |lines[rt]| > 0
    requires forall r :: 0 <= r < c.ranks && r != rt ==> Stuck(c, q, t, lines[r], now)
    requires var p := lines[rt][0]; p.rank < c.ranks && p.bank < c.banks && Eligible(c, q, t, lines[rt], 0, now)
    ensures var pick := Choose(c, q, t, now);
      pick.FromQueue? && pick.rank == rt && pick.bank < c.banks && Slot(c, pick.bank) == Slot(c, bt) && pick.index == 0
  {
    var r0, b0 := q.nextRank, q.nextBank;
    var b1: nat := if c.perBank then bt else b0;
    assert Line(c, q, rt, b1) == lines[rt];
    hide QueueShape, Eligible;
    assert FirstEligible(c, q, t, lines[rt], rt, Slot(c, b1), 0, now) == 0;
    AheadAtStart(c, rt, b1, r0, b0);
    ScanReaches(c, q, t, r0, b0, r0, b0, now, rt, b1);
    var pick := ScanQueues(c, q, t, r0, b0, r0, b0, now);
    assert Line(c, q, pick.rank, pick.bank) == lines[pick.rank] && Eligible(c, q, t, lines[pick.rank], pick.index, now);
    hide FirstEligible, ScanQueues;
  }

  /** If none may go, at most a row is closed. */
  lemma ChoosesNoPacket(c: Config, q: QueueState, t: Table, now: nat, bt: nat, lines: seq<seq<Packet>>)
    requires c.Sensible() && QueueShape(c, q) && TableShape(c, t) && bt < c.banks && |lines| == c.ranks
    requires Only(c, q, bt, lines) && Plain(c, q) && forall r :: 0 <= r < c.ranks ==> Stuck(c, q, t, lines[r], now)
    ensures var pick := Choose(c, q, t, now);
      pick.Nothing? || (pick.CloseRow? && c.openPage && pick.rank < c.ranks && pick.bank < c.banks &&
          Closable(c, q, t, pick.rank, pick.bank, now))
    ensures c.openPage && Choose(c, q, t, now).Nothing? ==>
      forall r, b :: 0 <= r < c.ranks && 0 <= b < c.banks ==> !Closable(c, q, t, r, b, now)
  {
    var r0: nat, b0: nat := q.nextRank, q.nextBank;
    var pick := ScanQueues(c, q, t, r0, b0, r0, b0, now);
    hide QueueShape, Eligible, Closable;
    assert !pick.FromQueue?;
    forall r, b | 0 <= r < c.ranks && 0 <= b < c.banks && Closable(c, q, t, r, b, now)
      ensures ScanRows(c, q, t, q.nextRankPRE, q.nextBankPRE, q.nextRankPRE, q.nextBankPRE, now).CloseRow?
    {
      AheadAtStart(c.(perBank := true), r, b, q.nextRankPRE, q.nextBankPRE);
      RowsReached(c, q, t, q.nextRankPRE, q.nextBankPRE, q.nextRankPRE, q.nextBankPRE, now, r, b);
    }
  }

  // ---- one call of pop ----

  lemma PopsFirst(c: Config, q: QueueState, t: Table, now: nat, rt: nat, bt: nat, lines: seq<seq<Packet>>)
    requires c.Sensible() && QueueShape(c, q) && TableShape(c, t) && rt < c.ranks == |lines| && bt < c.banks
    requires Only(c, q, bt, lines) && Plain(c, q) && |lines[rt]| > 0 && QueueShape(c, Aged(q))
    requires forall r :: 0 <= r < c.ranks && r != rt ==> Stuck(c, Aged(q), t, lines[r], now)
    requires var p := lines[rt][0]; p.rank == rt && p.bank < c.banks && Eligible(c, Aged(q), t, lines[rt], 0, now)
    ensures var (q1, popped) := DramQueue.Pop(c, q, t, now); var p := lines[rt][0];
      && popped == Some(p) && Only(c, q1, bt, lines[rt := lines[rt][1..]]) && Plain(c, q1)
      && |q1.faw| == |q.faw| && forall r :: 0 <= r < c.ranks ==>
          q1.faw[r] == if r == rt && p.kind.Activate? then Age(q.faw[r]) + [c.tFAW] else Age(q.faw[r])
  {
    AgedLines(c, q);
    var q0 := Aged(q);
    hide Stuck;
    ChoosesFirst(c, q0, t, now, rt, bt, lines);
    var pick := Choose(c, q0, t, now);
    hide Choose, Eligible, LineShape;
    ChoiceValid(c, q0, t, now);
    RemoveKeepsShape(c, q0, pick);
    TookFirst(c, q0, pick.rank, pick.bank, lines);
    var q1 := Remove(c, q0, pick);
    FinishKeepsShape(c, q1, lines[rt][0]);
    Finished(c, q1, lines[rt][0]);
    hide Remove, Finish;
  }

  lemma TookFirst(c: Config, q: QueueState, r: nat, b: nat, lines: seq<seq<Packet>>)
    requires c.Sensible() && QueueShape(c, q) && r < c.ranks == |lines| && b < c.banks
    requires Only(c, q, b, lines) && Plain(c, q) && |lines[r]| > 0 && QueueShape(c, Take(c, q, r, b, 0))
    ensures var q1 := Take(c, q, r, b, 0);
      Only(c, q1, b, lines[r := lines[r][1..]]) && Plain(c, q1) && q1.faw == q.faw
  {
    assert Line(c, q, r, b) == lines[r];
    assert Without(lines[r], 0) == lines[r][1..];
    hide LineShape;
    var q1 := Take(c, q, r, b, 0);
    assert q1 == SetLine(c, q.(nextRank := r, nextBank := b), r, b, lines[r][1..]);
    forall r1, b1 | 0 <= r1 < c.ranks && 0 <= b1 < c.banks
      ensures Line(c, q1, r1, b1) == if Slot(c, b1) == Slot(c, b) then lines[r := lines[r][1..]][r1] else []
    {
      assert Line(c, q, r1, b1) == if Slot(c, b1) == Slot(c, b) then lines[r1] else [];
    }
  }

  lemma Finished(c: Config, q: QueueState, p: Packet)
    requires c.Sensible() && QueueShape(c, q) && p.rank < c.ranks && QueueShape(c, Finish(c, q, p))
    ensures var q1 := Finish(c, q, p);
      && (Plain(c, q) ==> Plain(c, q1))
      && (forall r, b :: 0 <= r < c.ranks && 0 <= b < c.banks ==> Line(c, q1, r, b) == Line(c, q, r, b))
      && |q1.faw| == |q.faw| && forall r :: 0 <= r < c.ranks ==>
          q1.faw[r] == if r == p.rank && p.kind.Activate? then q.faw[r] + [c.tFAW] else q.faw[r]
  {
    hide LineShape;
  }

  /** With nothing to go, pop gives nothing or closes a row that nobody waits for. */
  lemma PopsNoPacket(c: Config, q: QueueState, t: Table, now: nat, bt: nat, lines: seq<seq<Packet>>)
    requires c.Sensible() && QueueShape(c, q) && TableShape(c, t) && bt < c.banks && |lines| == c.ranks
    requires Only(c, q, bt, lines) && Plain(c, q) && QueueShape(c, Aged(q))
    requires forall r :: 0 <= r < c.ranks ==> Stuck(c, Aged(q), t, lines[r], now)
    ensures var (q1, popped) := DramQueue.Pop(c, q, t, now);
      && Only(c, q1, bt, lines) && Plain(c, q1) && |q1.faw| == |q.faw|
      && (forall r :: 0 <= r < c.ranks ==> q1.faw[r] == Age(q.faw[r]))
      && (popped.Some? ==>
           var p := popped.value;
           && c.openPage && p == Packet(Precharge, 0, 0, 0, p.rank, p.bank) && p.rank < c.ranks && p.bank < c.banks
           && Closable(c, Aged(q), t, p.rank, p.bank, now))
      && (c.openPage && popped.None? ==>
           forall r, b :: 0 <= r < c.ranks && 0 <= b < c.banks ==> !Closable(c, Aged(q), t, r, b, now))
  {
    AgedLines(c, q);
    var q0 := Aged(q);
    hide Stuck;
    ChoosesNoPacket(c, q0, t, now, bt, lines);
    var pick := Choose(c, q0, t, now);
    hide Choose, Eligible, Closable, LineShape;
    if !pick.Nothing? {
      ChoiceValid(c, q0, t, now);
      RemoveKeepsShape(c, q0, pick);
      ClosedOnly(c, q0, pick, bt, lines);
      var q1 := Remove(c, q0, pick);
      FinishKeepsShape(c, q1, Chosen(c, q0, pick));
      Finished(c, q1, Chosen(c, q0, pick));
      hide Remove, Finish;
    }
  }

  /** With nothing queued, the one row that may be closed is closed. */
  lemma PopsTheRow(c: Config, q: QueueState, t: Table, now: nat, bt: nat, lines: seq<seq<Packet>>, r: nat, b: nat)
    requires c.Sensible() && QueueShape(c, q) && TableShape(c, t) && r < c.ranks == |lines| && b < c.banks && c.openPage
    requires bt < c.banks && Only(c, q, bt, lines) && Plain(c, q) && QueueShape(c, Aged(q))
    requires forall r1 :: 0 <= r1 < c.ranks ==> Stuck(c, Aged(q), t, lines[r1], now)
    requires Closable(c, q, t, r, b, now)
    requires forall r1, b1 :: 0 <= r1 < c.ranks && 0 <= b1 < c.banks && (r1 != r || b1 != b) ==>
      !Closable(c, q, t, r1, b1, now)
    ensures var (q1, popped) := DramQueue.Pop(c, q, t, now);
      && popped == Some(Packet(Precharge, 0, 0, 0, r, b)) && Only(c, q1, bt, lines) && Plain(c, q1)
      && |q1.faw| == |q.faw| && forall r1 :: 0 <= r1 < c.ranks ==> q1.faw[r1] == Age(q.faw[r1])
  {
    hide QueueShape, Closable, Only, Plain, DramQueue.Pop, Age, AgeAll, Stuck;
    PopsNoPacket(c, q, t, now, bt, lines);
    AgedClosable(c, q, t, r, b, now);
    var popped := DramQueue.Pop(c, q, t, now).1;
    assert popped.Some?;
    AgedClosable(c, q, t, popped.value.rank, popped.value.bank, now);
  }

  lemma ClosedOnly(c: Config, q: QueueState, pick: Pick, bt: nat, lines: seq<seq<Packet>>)
    requires c.Sensible() && QueueShape(c, q) && bt < c.banks && |lines| == c.ranks
    requires Only(c, q, bt, lines) && Plain(c, q) && pick.CloseRow? && Valid(c, q, pick)
    requires QueueShape(c, Remove(c, q, pick))
    ensures var q1 := Remove(c, q, pick); Only(c, q1, bt, lines) && Plain(c, q1) && q1.faw == q.faw
  {
    hide LineShape;
    var q1 := Remove(c, q, pick);
    forall r1, b1 | 0 <= r1 < c.ranks && 0 <= b1 < c.banks ensures Line(c, q1, r1, b1) == Line(c, q, r1, b1) {
    }
  }

  lemma AgedClosable(c: Config, q: QueueState, t: Table, r: nat, b: nat, now: nat)
    requires c.Sensible() && QueueShape(c, q) && TableShape(c, t) && r < c.ranks && b < c.banks &&
      QueueShape(c, Aged(q))
    ensures Closable(c, Aged(q), t, r, b, now) == Closable(c, q, t, r, b, now)
  {
  }

  lemma InitialLines(c: Config, q: QueueState, bt: nat)
    requires c.Sensible() && InitialQueue(c, q) && bt < c.banks
    ensures Plain(c, q) && Only(c, q, bt, NoLines(c)) && forall r :: 0 <= r < c.ranks ==> q.faw[r] == []
  {
    forall r, b | 0 <= r < c.ranks && 0 <= b < c.banks ensures Line(c, q, r, b) == [] {
      assert q.queues[r][Slot(c, b)] == [];
    }
    hide LineShape;
  }

  function NoLines(c: Config): seq<seq<Packet>> { seq(c.ranks, r => []) }
}
