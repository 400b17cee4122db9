/**
 The distance between activates: any five to one rank span the activate window, and the controller's
 table remembers the row cycle time and the activate-to-activate time of every activate.
*/
module DramActivates {
  import opened Wrappers
  import opened DramTypes
  import opened DramBank
  import opened DramQueue
  import opened DramSystem
  import opened DramSafety
  import opened Filters

  function ActivateAt(r: nat): Event -> Option<nat> {
    (e: Event) => if e.packet.kind.Activate? && e.packet.rank == r then Some(e.at) else None
  }

  /** When rank r was sent activates. */
  function ActivateTimes(h: History, r: nat): seq<nat> { Filter(h.issued, ActivateAt(r)) }

  // ---- the sliding window of one rank ----

  /** Five successive activates span at least the window. */
  predicate FiveApart(faw: nat, acts: seq<nat>) {
    forall i :: 0 <= i && i + 4 < |acts| ==> acts[i + 4] - acts[i] >= faw
  }

  /** The counters stand for the last activates; the ones before have left the window at cycle t. */
  predicate InWindow(faw: nat, w: seq<nat>, acts: seq<nat>, t: int) {
    && |w| <= |acts|
    && (forall i :: 0 <= i < |w| ==> w[i] >= 1 && w[i] == acts[|acts| - |w| + i] + faw - t)
    && (forall i :: 0 <= i < |acts| - |w| ==> acts[i] + faw <= t)
  }

  predicate Increasing(acts: seq<nat>, t: int) {
    && (forall i, j :: 0 <= i < j < |acts| ==> acts[i] < acts[j])
    && (forall i :: 0 <= i < |acts| ==> acts[i] <= t)
  }

  predicate WindowOk(faw: nat, w: seq<nat>, acts: seq<nat>, t: int) {
    |w| <= 4 && InWindow(faw, w, acts, t) && Increasing(acts, t) && FiveApart(faw, acts)
  }

  /** Only the first counter can run out, because the later ones are strictly larger. */
  lemma AgeKeepsWindow(faw: nat, w: seq<nat>, acts: seq<nat>, t: int)
    requires WindowOk(faw, w, acts, t)
    ensures WindowOk(faw, Age(w), acts, t + 1)
  {
    LaterCounters(faw, w, acts, t);
    var w1 := seq(|w|, i requires 0 <= i < |w| => Dec32(w[i]));
    CountedWindow(faw, w, w1, acts, t);
    assert Age(w) == if |w1| > 0 && w1[0] == 0 then w1[1..] else w1;
    hide InWindow, FiveApart, Age;
  }

  lemma CountedWindow(faw: nat, w: seq<nat>, w1: seq<nat>, acts: seq<nat>, t: int)
    requires InWindow(faw, w, acts, t) && |w1| == |w|
    requires forall i :: 0 <= i < |w1| ==> w1[i] == acts[|acts| - |w| + i] + faw - (t + 1) && (i > 0 ==> w1[i] >= 1)
    ensures InWindow(faw, if |w1| > 0 && w1[0] == 0 then w1[1..] else w1, acts, t + 1)
  {
    var n := |acts| - |w|;
    assert forall i :: 0 <= i < n ==> acts[i] + faw <= t;
    hide InWindow;
    if |w1| > 0 && w1[0] == 0 {
      DroppedWindow(faw, w1, acts, t + 1);
    } else {
      KeptWindow(faw, w1, acts, t + 1);
    }
  }

  lemma DroppedWindow(faw: nat, w: seq<nat>, acts: seq<nat>, t: int)
    requires 0 < |w| <= |acts| && w[0] == 0
    requires forall i :: 0 <= i < |w| ==> w[i] == acts[|acts| - |w| + i] + faw - t && (i > 0 ==> w[i] >= 1)
    requires forall i :: 0 <= i < |acts| - |w| ==> acts[i] + faw <= t
    ensures InWindow(faw, w[1..], acts, t)
  {
    forall i | 0 <= i < |w[1..]| ensures w[1..][i] >= 1 && w[1..][i] == acts[|acts| - |w[1..]| + i] + faw - t {
      assert w[1..][i] == w[i + 1];
    }
  }

  lemma KeptWindow(faw: nat, w: seq<nat>, acts: seq<nat>, t: int)
    requires |w| <= |acts| && (|w| > 0 ==> w[0] >= 1)
    requires forall i :: 0 <= i < |w| ==> w[i] == acts[|acts| - |w| + i] + faw - t && (i > 0 ==> w[i] >= 1)
    requires forall i :: 0 <= i < |acts| - |w| ==> acts[i] + faw <= t
    ensures InWindow(faw, w, acts, t)
  {
    forall i | 0 <= i < |w| ensures w[i] >= 1 {
      assert i == 0 || w[i] >= 1;
    }
  }

  lemma LaterCounters(faw: nat, w: seq<nat>, acts: seq<nat>, t: int)
    requires InWindow(faw, w, acts, t) && Increasing(acts, t)
    ensures forall i :: 0 <= i < |w| ==>
      Dec32(w[i]) == acts[|acts| - |w| + i] + faw - (t + 1) && (i > 0 ==> Dec32(w[i]) >= 1)
  {
    forall i | 0 < i < |w| ensures Dec32(w[i]) >= 1 {
      assert w[i] - w[0] == acts[|acts| - |w| + i] - acts[|acts| - |w|];
    }
  }

  /** An activate is issued only while fewer than four are in the window. */
  lemma PushKeepsWindow(faw: nat, w: seq<nat>, acts: seq<nat>, t: nat)
    requires WindowOk(faw, w, acts, t) && |w| < 4 && faw >= 1 && forall i :: 0 <= i < |acts| ==> acts[i] < t
    ensures WindowOk(faw, w + [faw], acts + [t], t)
  {
    PushFiveApart(faw, w, acts, t);
    PushInWindow(faw, w, acts, t);
    hide FiveApart, InWindow;
  }

  lemma PushInWindow(faw: nat, w: seq<nat>, acts: seq<nat>, t: nat)
    requires InWindow(faw, w, acts, t) && |w| < 4 && faw >= 1 && forall i :: 0 <= i < |acts| ==> acts[i] < t
    ensures InWindow(faw, w + [faw], acts + [t], t)
  {
    var w1, acts1 := w + [faw], acts + [t];
    forall i | 0 <= i < |w1| ensures w1[i] >= 1 && w1[i] == acts1[|acts1| - |w1| + i] + faw - t {
      if i < |w| {
        assert acts1[|acts1| - |w1| + i] == acts[|acts| - |w| + i];
      }
    }
    forall i | 0 <= i < |acts1| - |w1| ensures acts1[i] + faw <= t {
      assert acts1[i] == acts[i];
    }
  }

  lemma PushFiveApart(faw: nat, w: seq<nat>, acts: seq<nat>, t: nat)
    requires WindowOk(faw, w, acts, t) && |w| < 4
    ensures FiveApart(faw, acts + [t])
  {
    var acts1 := acts + [t];
    forall i | 0 <= i && i + 4 < |acts1| ensures acts1[i + 4] - acts1[i] >= faw {
      if i + 4 < |acts| {
        assert acts1[i + 4] - acts1[i] == acts[i + 4] - acts[i];
      } else {
        assert acts1[i] == acts[i] && acts[i] + faw <= t;
      }
    }
  }

  ghost predicate Windows(c: Config, s: Sys, t: int)
    requires Shape(c, s)
  {
    forall r :: 0 <= r < c.ranks ==> WindowOk(c.tFAW, s.queue.faw[r], ActivateTimes(s.history, r), t)
  }

  /** What pop does to the window of rank r. */
  lemma PopWindow(c: Config, q: QueueState, t: Table, now: nat, r: nat)
    requires c.Sensible() && QueueShape(c, q) && TableShape(c, t) && r < c.ranks
    ensures var (q1, popped) := Pop(c, q, t, now);
      if popped.Some? && popped.value.kind.Activate? && popped.value.rank == r
      then |Age(q.faw[r])| < 4 && q1.faw[r] == Age(q.faw[r]) + [c.tFAW]
      else q1.faw[r] == Age(q.faw[r])
  {
    var q0 := q.(faw := AgeAll(q.faw));
    var pick := Choose(c, q0, t, now);
    hide Choose, Age, Eligible, Remove, Finish, Chosen;
    if !pick.Nothing? {
      ChoiceValid(c, q0, t, now);
      RemoveKeepsShape(c, q0, pick);
      ActivateInWindow(c, q0, t, pick, now);
      RemovedWindows(c, q0, pick);
      FinishedWindows(c, Remove(c, q0, pick), Chosen(c, q0, pick));
    }
  }

  lemma RemovedWindows(c: Config, q: QueueState, pick: Pick)
    requires c.Sensible() && QueueShape(c, q) && Valid(c, q, pick)
    ensures Remove(c, q, pick).faw == q.faw
  {
    hide LineShape;
  }

  lemma FinishedWindows(c: Config, q: QueueState, p: Packet)
    requires c.Sensible() && QueueShape(c, q) && p.rank < c.ranks
    ensures Finish(c, q, p).faw == if p.kind.Activate? then q.faw[p.rank := q.faw[p.rank] + [c.tFAW]] else q.faw
  {
    hide LineShape;
  }

  lemma ActivateInWindow(c: Config, q: QueueState, t: Table, pick: Pick, now: nat)
    requires c.Sensible() && QueueShape(c, q) && TableShape(c, t) && pick == Choose(c, q, t, now) && Valid(c, q, pick)
    ensures var p := Chosen(c, q, pick); p.kind.Activate? ==> p.rank < c.ranks && |q.faw[p.rank]| < 4
  {
    match pick
    case FromQueue(r, b, i) =>
      var line := Line(c, q, r, b);
      assert Belongs(c, line[i], r, Slot(c, b)) && Eligible(c, q, t, line, i, now);
    case LastColumn(b, i) =>
      assert pick == RefreshBank(c, q, t, b, now);
    case _ =>
  }

  lemma IssueNextWindows(c: Config, s: Sys)
    requires c.Sensible() && Shape(c, s) && Windows(c, s, s.now - 1) && IssueNext(c, s).Ok?
    ensures Windows(c, IssueNext(c, s).value, s.now)
  {
    hide IssueNext, WindowOk;
    forall r | 0 <= r < c.ranks
      ensures WindowOk(c.tFAW, IssueNext(c, s).value.queue.faw[r],
        ActivateTimes(IssueNext(c, s).value.history, r), s.now)
    {
      assert WindowOk(c.tFAW, s.queue.faw[r], ActivateTimes(s.history, r), s.now - 1);
      IssueNextWindow(c, s, r);
    }
  }

  lemma IssueNextWindow(c: Config, s: Sys, r: nat)
    requires c.Sensible() && Shape(c, s) && r < c.ranks && IssueNext(c, s).Ok?
    requires WindowOk(c.tFAW, s.queue.faw[r], ActivateTimes(s.history, r), s.now - 1)
    ensures WindowOk(c.tFAW, IssueNext(c, s).value.queue.faw[r], ActivateTimes(IssueNext(c, s).value.history, r), s.now)
  {
    var w, acts := s.queue.faw[r], ActivateTimes(s.history, r);
    AgeKeepsWindow(c.tFAW, w, acts, s.now - 1);
    PopWindow(c, s.queue, s.table, s.now, r);
    IssuedTimes(c, s, r);
    TimesBefore(c.tFAW, w, acts, s.now - 1);
    hide Pop, Age, ActivateTimes, WindowOk, IssueNext, LineShape;
    if |Age(w)| < 4 {
      PushKeepsWindow(c.tFAW, Age(w), acts, s.now);
    }
    assert acts + [] == acts;
  }

  lemma TimesBefore(faw: nat, w: seq<nat>, acts: seq<nat>, t: int)
    requires WindowOk(faw, w, acts, t)
    ensures forall i :: 0 <= i < |acts| ==> acts[i] < t + 1
  {
  }

  lemma IssuedTimes(c: Config, s: Sys, r: nat)
    requires c.Sensible() && Shape(c, s) && IssueNext(c, s).Ok?
    ensures var s1 := IssueNext(c, s).value; var (q1, popped) := Pop(c, s.queue, s.table, s.now);
      && s1.queue == q1
      && ActivateTimes(s1.history, r) == ActivateTimes(s.history, r) +
           (if popped.Some? && popped.value.kind.Activate? && popped.value.rank == r then [s.now] else [])
  {
    hide Pop, Filter, QueueShape, TableShape;
    var popped := Pop(c, s.queue, s.table, s.now).1;
    if popped.Some? {
      FilterPush(s.history.issued, Event(popped.value, s.now), ActivateAt(r));
    }
  }

  // ---- row cycle and activate-to-activate times ----

  /** The time that must pass between activates e and f to the same rank. */
  function ActivateGap(c: Config, sameBank: bool): nat { if sameBank then c.tRC else c.tRRD }

  predicate IsActivate(e: Event, r: nat) { e.packet.kind.Activate? && e.packet.rank == r }

  /** Every two activates to one rank have kept their distance. */
  ghost predicate Distant(c: Config, issued: seq<Event>) {
    forall i, j ::
      0 <= i < j < |issued| && IsActivate(issued[i], issued[j].packet.rank) && issued[j].packet.kind.Activate? ==>
      issued[j].at - issued[i].at >= ActivateGap(c, issued[i].packet.bank == issued[j].packet.bank)
  }

  /**
   The controller's entry of a bank remembers every activate to its rank: before the distance is kept the
   bank is not activated in cycle next or later.
  */
  ghost predicate Remembered(c: Config, s: Sys, r: nat, b: nat, next: int)
    requires Shape(c, s) && r < c.ranks && b < c.banks
  {
    forall i :: 0 <= i < |s.history.issued| && IsActivate(s.history.issued[i], r) ==>
      Max(s.table[r][b].nextActivate, next) >=
        s.history.issued[i].at + ActivateGap(c, s.history.issued[i].packet.bank == b)
  }

  ghost predicate Apart(c: Config, s: Sys, next: int)
    requires Shape(c, s)
  {
    Distant(c, s.history.issued) &&
    forall r, b :: 0 <= r < c.ranks && 0 <= b < c.banks ==> Remembered(c, s, r, b, next)
  }

  /** A permitted command never lets a bank be activated earlier. */
  lemma IssueDelaysActivate(c: Config, ms: seq<Bank>, i: nat, j: nat, p: Packet, now: nat)
    requires c.Sensible() && j < |ms| && (i == p.rank ==> Permitted(c, ms, p, now))
    ensures Issue(c, ms[j], i, j, p, now).nextActivate >= ms[j].nextActivate
    ensures p.kind.Activate? && i == p.rank ==>
      Issue(c, ms[j], i, j, p, now).nextActivate >= now + ActivateGap(c, j == p.bank)
  {
    if i == p.rank && p.kind.Refresh? {
      assert RefreshableAt(ms[j], now);
    }
  }

  lemma IssueNextApart(c: Config, s: Sys)
    requires c.Sensible() && Shape(c, s) && Apart(c, s, s.now) && AllSleepAgrees(c, s) && IssueNext(c, s).Ok?
    ensures Apart(c, IssueNext(c, s).value, s.now + 1)
  {
    var s1 := IssueNext(c, s).value;
    var popped := Pop(c, s.queue, s.table, s.now).1;
    var next := s.now + 1;
    if popped.Some? {
      var p := popped.value;
      WholeRanksOf(c, s);
      PoppedIsPermitted(c, s.queue, s.table, s.now);
      assert s1.history.issued == s.history.issued + [Event(p, s.now)] && s1.table == IssueTable(c, s.table, p, s.now);
      hide Pop, IssueNext, QueueShape, IssueTable;
      forall r, b | 0 <= r < c.ranks && 0 <= b < c.banks ensures Remembered(c, s1, r, b, next) {
        assert Remembered(c, s, r, b, s.now);
        IssuedRemembered(c, s, s1, p, r, b);
      }
      IssuedDistant(c, s, s1, p);
    } else {
      hide Pop, QueueShape;
      forall r, b | 0 <= r < c.ranks && 0 <= b < c.banks ensures Remembered(c, s1, r, b, next) {
        assert Remembered(c, s, r, b, s.now);
      }
    }
  }

  lemma IssuedRemembered(c: Config, s: Sys, s1: Sys, p: Packet, r: nat, b: nat)
    requires c.Sensible() && Shape(c, s) && Shape(c, s1) && r < c.ranks && b < c.banks && p.rank < c.ranks
    requires Remembered(c, s, r, b, s.now) && Permitted(c, s.table[p.rank], p, s.now)
    requires s1.history.issued == s.history.issued + [Event(p, s.now)] && s1.table == IssueTable(c, s.table, p, s.now)
    ensures Remembered(c, s1, r, b, s.now + 1)
  {
    hide QueueShape, Permitted, Issue;
    IssueDelaysActivate(c, s.table[r], r, b, p, s.now);
    assert s1.table[r][b] == Issue(c, s.table[r][b], r, b, p, s.now);
  }

  lemma IssuedDistant(c: Config, s: Sys, s1: Sys, p: Packet)
    requires c.Sensible() && Shape(c, s) && Shape(c, s1) && p.rank < c.ranks && p.bank < c.banks
    requires Distant(c, s.history.issued) && Remembered(c, s, p.rank, p.bank, s.now)
    requires Permitted(c, s.table[p.rank], p, s.now)
    requires s1.history.issued == s.history.issued + [Event(p, s.now)]
    ensures Distant(c, s1.history.issued)
  {
    hide QueueShape;
  }
}
