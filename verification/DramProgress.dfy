/**
 What pop is bound to give.  The queues are looked at in turn, from where the last search left off, and the first
 packet that may go is taken; rows are closed in the same way; and in no reachable state in which nothing has to be
 waited for does pop come back with nothing while there is something to do.
*/
module DramProgress {
  import opened Wrappers
  import opened Arith
  import opened DramTypes
  import opened DramBank
  import opened DramQueue
  import opened DramSystem
  import opened DramSafety
  import opened DramTheorems
  import opened DramUnits
  import opened DramRowLimit
  import DramOrder
  import DramOrderTheorems

  // ---- turns ----

  /** The place of a bank among all banks, ranks first or banks first. */
  function PairPlace(c: Config, r: nat, b: nat): nat { if c.rankFirst then b * c.ranks + r else r * c.banks + b }

  function Pairs(c: Config): nat { c.ranks * c.banks }

  /** The place of a queue among all queues. */
  function QueuePlace(c: Config, r: nat, b: nat): nat { if c.perBank then PairPlace(c, r, b) else r }

  function Queues(c: Config): nat { if c.perBank then Pairs(c) else c.ranks }

  /** How many turns place x comes after place from, of n places in all. */
  function Turns(from: nat, x: nat, n: nat): nat
    requires from < n && x < n
  {
    if x >= from then x - from else x + n - from
  }

  lemma TurnsNext(from: nat, x: nat, n: nat)
    requires from < n && x < n
    ensures var y := if x + 1 == n then 0 else x + 1;
      if y == from then Turns(from, x, n) == n - 1 else Turns(from, y, n) == Turns(from, x, n) + 1
    ensures Turns(from, x, n) < n
  {
  }

  lemma TurnsUnique(from: nat, x: nat, y: nat, n: nat)
    requires from < n && x < n && y < n && Turns(from, x, n) == Turns(from, y, n)
    ensures x == y
  {
  }

  lemma PlaceBound(c: Config, r: nat, b: nat)
    requires r < c.ranks && b < c.banks
    ensures PairPlace(c, r, b) < Pairs(c) && QueuePlace(c, r, b) < Queues(c)
  {
    BelowProduct(b, c.banks, r, c.ranks);
    BelowProduct(r, c.ranks, b, c.banks);
    assert c.banks * c.ranks == c.ranks * c.banks;
  }

  lemma BelowProduct(x: nat, m: nat, y: nat, n: nat)
    requires x < m && y < n
    ensures x * n + y < m * n
  {
    MulOrder(x, m, n);
  }

  /** Different banks have different places. */
  lemma PlaceUnique(c: Config, r: nat, b: nat, r1: nat, b1: nat)
    requires r < c.ranks && b < c.banks && r1 < c.ranks && b1 < c.banks && PairPlace(c, r, b) == PairPlace(c, r1, b1)
    ensures r == r1 && b == b1
  {
    if c.rankFirst {
      SamePair(b, r, b1, r1, c.ranks);
    } else {
      SamePair(r, b, r1, b1, c.banks);
    }
  }

  lemma SamePair(x: nat, y: nat, x1: nat, y1: nat, n: nat)
    requires y < n && y1 < n && x * n + y == x1 * n + y1
    ensures x == x1 && y == y1
  {
    if x < x1 {
      MulOrder(x, x1, n);
    } else if x1 < x {
      MulOrder(x1, x, n);
    }
  }

  /** The search goes from each place to the next one, and from the last to the first. */
  lemma NextPlace(c: Config, r: nat, b: nat)
    requires r < c.ranks && b < c.banks
    ensures var n := NextRankAndBank(c, r, b);
      PairPlace(c, n.0, n.1) == if PairPlace(c, r, b) + 1 == Pairs(c) then 0 else PairPlace(c, r, b) + 1
    ensures var n := NextQueue(c, r, b);
      QueuePlace(c, n.0, n.1) == if QueuePlace(c, r, b) + 1 == Queues(c) then 0 else QueuePlace(c, r, b) + 1
  {
    if c.rankFirst {
      NextInRow(b, c.banks, r, c.ranks);
      assert c.banks * c.ranks == c.ranks * c.banks;
    } else {
      NextInRow(r, c.ranks, b, c.banks);
    }
  }

  lemma NextInRow(x: nat, m: nat, y: nat, n: nat)
    requires x < m && y < n
    ensures x * n + y + 1 == m * n <==> x + 1 == m && y + 1 == n
    ensures (x + 1) * n == x * n + n && 0 * n == 0
  {
    if x + 1 < m {
      BelowProduct(x + 1, m, 0, n);
    }
  }

  // ---- the search for a packet ----

  /** Turns of the queue of (r, b) after that of (r0, b0). */
  function QueueTurns(c: Config, r0: nat, b0: nat, r: nat, b: nat): nat
    requires r0 < c.ranks && b0 < c.banks && r < c.ranks && b < c.banks
  {
    PlaceBound(c, r0, b0);
    PlaceBound(c, r, b);
    Turns(QueuePlace(c, r0, b0), QueuePlace(c, r, b), Queues(c))
  }

  function PairTurns(c: Config, r0: nat, b0: nat, r: nat, b: nat): nat
    requires r0 < c.ranks && b0 < c.banks && r < c.ranks && b < c.banks
  {
    PlaceBound(c, r0, b0);
    PlaceBound(c, r, b);
    Turns(PairPlace(c, r0, b0), PairPlace(c, r, b), Pairs(c))
  }

  /** Packet i of the queue for bank b of rank r may go now. */
  ghost predicate CanGo(c: Config, q: QueueState, t: Table, r: nat, b: nat, i: nat, now: nat)
    requires c.Sensible() && QueueShape(c, q) && TableShape(c, t) && r < c.ranks && b < c.banks
  {
    var line := Line(c, q, r, b);
    && !(r == q.refreshRank && q.refreshWaiting)
    && i < |line| && Belongs(c, line[i], r, Slot(c, b)) && Eligible(c, q, t, line, i, now)
  }

  /** Nothing of this queue may go. */
  ghost predicate Stuck(c: Config, q: QueueState, t: Table, r: nat, b: nat, now: nat)
    requires c.Sensible() && QueueShape(c, q) && TableShape(c, t) && r < c.ranks && b < c.banks
  {
    forall i: nat :: i < |Line(c, q, r, b)| ==> !CanGo(c, q, t, r, b, i, now)
  }

  /** Packet i is the first of its queue that may go, and of the queues before it, counted from (r0, b0), none may. */
  ghost predicate FirstInTurn(c: Config, q: QueueState, t: Table, r0: nat, b0: nat, r: nat, b: nat, i: nat, now: nat,
      turn: nat)
    requires c.Sensible() && QueueShape(c, q) && TableShape(c, t)
    requires r0 < c.ranks && b0 < c.banks && r < c.ranks && b < c.banks
  {
    && CanGo(c, q, t, r, b, i, now) && (forall j: nat :: j < i ==> !CanGo(c, q, t, r, b, j, now))
    && turn <= QueueTurns(c, r0, b0, r, b)
    && forall r1: nat, b1: nat ::
         r1 < c.ranks && b1 < c.banks && turn <= QueueTurns(c, r0, b0, r1, b1) < QueueTurns(c, r0, b0, r, b) ==>
         Stuck(c, q, t, r1, b1, now)
  }

  /** From this turn on, counted from (r0, b0), no queue has anything that may go. */
  ghost predicate AllStuck(c: Config, q: QueueState, t: Table, r0: nat, b0: nat, now: nat, turn: nat)
    requires c.Sensible() && QueueShape(c, q) && TableShape(c, t) && r0 < c.ranks && b0 < c.banks
  {
    forall r1: nat, b1: nat :: r1 < c.ranks && b1 < c.banks && turn <= QueueTurns(c, r0, b0, r1, b1) ==>
      Stuck(c, q, t, r1, b1, now)
  }

  lemma OneQueue(c: Config, q: QueueState, t: Table, r: nat, b: nat, now: nat)
    requires c.Sensible() && QueueShape(c, q) && TableShape(c, t) && r < c.ranks && b < c.banks
    ensures var line := Line(c, q, r, b);
      var i := if r == q.refreshRank && q.refreshWaiting then |line|
               else FirstEligible(c, q, t, line, r, Slot(c, b), 0, now);
      if i < |line| then CanGo(c, q, t, r, b, i, now) && forall j: nat :: j < i ==> !CanGo(c, q, t, r, b, j, now)
      else Stuck(c, q, t, r, b, now)
  {
  }

  /** Queues in the same place are one. */
  lemma SameQueue(c: Config, q: QueueState, t: Table, r: nat, b: nat, r1: nat, b1: nat, now: nat)
    requires c.Sensible() && QueueShape(c, q) && TableShape(c, t)
    requires r < c.ranks && b < c.banks && r1 < c.ranks && b1 < c.banks && QueuePlace(c, r, b) == QueuePlace(c, r1, b1)
    requires Stuck(c, q, t, r, b, now)
    ensures Stuck(c, q, t, r1, b1, now)
  {
    if c.perBank {
      PlaceUnique(c, r, b, r1, b1);
    } else {
      forall i: nat | i < |Line(c, q, r1, b1)| ensures !CanGo(c, q, t, r1, b1, i, now) {
        assert !CanGo(c, q, t, r, b, i, now);
      }
    }
  }

  lemma NextTurn(c: Config, r: nat, b: nat, r0: nat, b0: nat)
    requires r < c.ranks && b < c.banks && r0 < c.ranks && b0 < c.banks && (!c.perBank ==> b == b0)
    ensures var n := NextQueue(c, r, b);
      if n == (r0, b0) then QueueTurns(c, r0, b0, r, b) == Queues(c) - 1
      else QueueTurns(c, r0, b0, n.0, n.1) == QueueTurns(c, r0, b0, r, b) + 1
    ensures forall r1: nat, b1: nat :: r1 < c.ranks && b1 < c.banks ==> QueueTurns(c, r0, b0, r1, b1) < Queues(c)
  {
    PlaceBound(c, r0, b0);
    PlaceBound(c, r, b);
    NextPlace(c, r, b);
    TurnsNext(QueuePlace(c, r0, b0), QueuePlace(c, r, b), Queues(c));
    var n := NextQueue(c, r, b);
    if c.perBank && QueuePlace(c, n.0, n.1) == QueuePlace(c, r0, b0) {
      PlaceUnique(c, n.0, n.1, r0, b0);
    }
    forall r1: nat, b1: nat | r1 < c.ranks && b1 < c.banks ensures QueueTurns(c, r0, b0, r1, b1) < Queues(c) {
      PlaceBound(c, r1, b1);
    }
    hide PairPlace, NextRankAndBank, Pairs;
  }

  lemma {:induction false} ScanTakesFirst(c: Config, q: QueueState, t: Table, r: nat, b: nat, r0: nat, b0: nat,
      now: nat)
    requires c.Sensible() && QueueShape(c, q) && TableShape(c, t)
    requires r < c.ranks && b < c.banks && r0 < c.ranks && b0 < c.banks && (!c.perBank ==> b == b0)
    ensures var turn := QueueTurns(c, r0, b0, r, b);
      var pick := ScanQueues(c, q, t, r, b, r0, b0, now);
      if pick.FromQueue? then FirstInTurn(c, q, t, r0, b0, pick.rank, pick.bank, pick.index, now, turn)
      else AllStuck(c, q, t, r0, b0, now, turn)
    decreases QueueLaps(c, r, b, r0, b0), PairRest(c, r, b)
  {
    ScanUnfolds(c, q, t, r, b, r0, b0, now);
    hide CanGo, FirstEligible, QueueTurns, NextQueue, QueueLaps, PairRest, QueueShape, FirstInTurn, ScanQueues;
    if Stuck(c, q, t, r, b, now) {
      NextTurn(c, r, b, r0, b0);
      var turn := QueueTurns(c, r0, b0, r, b);
      var n := NextQueue(c, r, b);
      StuckInTurn(c, q, t, r0, b0, r, b, now);
      hide Stuck;
      if n == (r0, b0) {
        assert AllStuck(c, q, t, r0, b0, now, turn + 1);
        TurnEarlier(c, q, t, r0, b0, now, turn);
      } else {
        QueueWalk(c, r, b, r0, b0);
        ScanTakesFirst(c, q, t, n.0, n.1, r0, b0, now);
        hide AllStuck;
        var pick := ScanQueues(c, q, t, r, b, r0, b0, now);
        if pick.FromQueue? {
          FirstTurnEarlier(c, q, t, r0, b0, pick.rank, pick.bank, pick.index, now, turn);
        } else {
          TurnEarlier(c, q, t, r0, b0, now, turn);
        }
      }
    }
  }

  /** One queue of the search. */
  lemma ScanUnfolds(c: Config, q: QueueState, t: Table, r: nat, b: nat, r0: nat, b0: nat, now: nat)
    requires c.Sensible() && QueueShape(c, q) && TableShape(c, t)
    requires r < c.ranks && b < c.banks && r0 < c.ranks && b0 < c.banks && (!c.perBank ==> b == b0)
    ensures var pick := ScanQueues(c, q, t, r, b, r0, b0, now); var n := NextQueue(c, r, b);
      if Stuck(c, q, t, r, b, now) then
        && (!c.perBank ==> n.1 == b0)
        && pick == if n == (r0, b0) then Nothing else ScanQueues(c, q, t, n.0, n.1, r0, b0, now)
      else
        && pick.FromQueue? && pick.rank == r && pick.bank == b
        && FirstInTurn(c, q, t, r0, b0, r, b, pick.index, now, QueueTurns(c, r0, b0, r, b))
  {
    OneQueue(c, q, t, r, b, now);
    hide CanGo, FirstEligible, QueueTurns, QueueLaps, PairRest, QueueShape, NextRankAndBank;
  }

  lemma TurnEarlier(c: Config, q: QueueState, t: Table, r0: nat, b0: nat, now: nat, turn: nat)
    requires c.Sensible() && QueueShape(c, q) && TableShape(c, t) && r0 < c.ranks && b0 < c.banks
    requires AllStuck(c, q, t, r0, b0, now, turn + 1) && StuckAt(c, q, t, r0, b0, now, turn)
    ensures AllStuck(c, q, t, r0, b0, now, turn)
  {
    hide Stuck, QueueTurns, QueueShape;
  }

  lemma FirstTurnEarlier(c: Config, q: QueueState, t: Table, r0: nat, b0: nat, r: nat, b: nat, i: nat, now: nat,
      turn: nat)
    requires c.Sensible() && QueueShape(c, q) && TableShape(c, t)
    requires r0 < c.ranks && b0 < c.banks && r < c.ranks && b < c.banks
    requires FirstInTurn(c, q, t, r0, b0, r, b, i, now, turn + 1) && StuckAt(c, q, t, r0, b0, now, turn)
    ensures FirstInTurn(c, q, t, r0, b0, r, b, i, now, turn)
  {
    hide Stuck, CanGo, QueueTurns, QueueShape;
  }

  /** The queues of one turn, which are the same one. */
  ghost predicate StuckAt(c: Config, q: QueueState, t: Table, r0: nat, b0: nat, now: nat, turn: nat)
    requires c.Sensible() && QueueShape(c, q) && TableShape(c, t) && r0 < c.ranks && b0 < c.banks
  {
    forall r1: nat, b1: nat :: r1 < c.ranks && b1 < c.banks && QueueTurns(c, r0, b0, r1, b1) == turn ==>
      Stuck(c, q, t, r1, b1, now)
  }

  lemma StuckInTurn(c: Config, q: QueueState, t: Table, r0: nat, b0: nat, r: nat, b: nat, now: nat)
    requires c.Sensible() && QueueShape(c, q) && TableShape(c, t)
    requires r0 < c.ranks && b0 < c.banks && r < c.ranks && b < c.banks && Stuck(c, q, t, r, b, now)
    ensures StuckAt(c, q, t, r0, b0, now, QueueTurns(c, r0, b0, r, b))
  {
    hide Stuck, QueueTurns, QueueShape;
    forall r1: nat, b1: nat |
      r1 < c.ranks && b1 < c.banks && QueueTurns(c, r0, b0, r1, b1) == QueueTurns(c, r0, b0, r, b)
      ensures Stuck(c, q, t, r1, b1, now)
    {
      SameTurn(c, r0, b0, r, b, r1, b1);
      SameQueue(c, q, t, r, b, r1, b1, now);
    }
  }

  lemma SameTurn(c: Config, r0: nat, b0: nat, r: nat, b: nat, r1: nat, b1: nat)
    requires r0 < c.ranks && b0 < c.banks && r < c.ranks && b < c.banks && r1 < c.ranks && b1 < c.banks
    requires QueueTurns(c, r0, b0, r1, b1) == QueueTurns(c, r0, b0, r, b)
    ensures QueuePlace(c, r1, b1) == QueuePlace(c, r, b)
  {
    PlaceBound(c, r0, b0);
    PlaceBound(c, r, b);
    PlaceBound(c, r1, b1);
    TurnsUnique(QueuePlace(c, r0, b0), QueuePlace(c, r, b), QueuePlace(c, r1, b1), Queues(c));
  }

  // ---- the search for a row to close ----

  /** The row of this bank should be closed: it has been used often enough, or nobody waits for it. */
  predicate Worn(c: Config, q: QueueState, t: Table, r: nat, b: nat, now: nat)
    requires c.Sensible() && QueueShape(c, q) && TableShape(c, t) && r < c.ranks && b < c.banks
  {
    var line := Line(c, q, r, b);
    && t[r][b].mode.RowActive? && now >= t[r][b].nextPrecharge
    && (q.rowAccess[r][b] == c.totalRowAccesses ||
        forall i :: 0 <= i < |line| ==> !(line[i].bank == b && line[i].row == t[r][b].openRow))
  }

  lemma ClosableIsWorn(c: Config, q: QueueState, t: Table, r: nat, b: nat, now: nat)
    requires c.Sensible() && QueueShape(c, q) && TableShape(c, t) && r < c.ranks && b < c.banks
    ensures Closable(c, q, t, r, b, now) <==> Worn(c, q, t, r, b, now)
  {
    hide QueueShape;
  }

  ghost predicate WornFirst(c: Config, q: QueueState, t: Table, r0: nat, b0: nat, r: nat, b: nat, now: nat, turn: nat)
    requires c.Sensible() && QueueShape(c, q) && TableShape(c, t)
    requires r0 < c.ranks && b0 < c.banks && r < c.ranks && b < c.banks
  {
    && Worn(c, q, t, r, b, now) && turn <= PairTurns(c, r0, b0, r, b)
    && forall r1: nat, b1: nat ::
         r1 < c.ranks && b1 < c.banks && turn <= PairTurns(c, r0, b0, r1, b1) < PairTurns(c, r0, b0, r, b) ==>
         !Worn(c, q, t, r1, b1, now)
  }

  ghost predicate NoneWorn(c: Config, q: QueueState, t: Table, r0: nat, b0: nat, now: nat, turn: nat)
    requires c.Sensible() && QueueShape(c, q) && TableShape(c, t) && r0 < c.ranks && b0 < c.banks
  {
    forall r1: nat, b1: nat :: r1 < c.ranks && b1 < c.banks && turn <= PairTurns(c, r0, b0, r1, b1) ==>
      !Worn(c, q, t, r1, b1, now)
  }

  lemma NextPairTurn(c: Config, r: nat, b: nat, r0: nat, b0: nat)
    requires r < c.ranks && b < c.banks && r0 < c.ranks && b0 < c.banks
    ensures var n := NextRankAndBank(c, r, b);
      if n == (r0, b0) then PairTurns(c, r0, b0, r, b) == Pairs(c) - 1
      else PairTurns(c, r0, b0, n.0, n.1) == PairTurns(c, r0, b0, r, b) + 1
    ensures forall r1: nat, b1: nat :: r1 < c.ranks && b1 < c.banks ==> PairTurns(c, r0, b0, r1, b1) < Pairs(c)
    ensures forall r1: nat, b1: nat ::
      r1 < c.ranks && b1 < c.banks && PairTurns(c, r0, b0, r1, b1) == PairTurns(c, r0, b0, r, b) ==>
      r1 == r && b1 == b
  {
    PlaceBound(c, r0, b0);
    PlaceBound(c, r, b);
    NextPlace(c, r, b);
    TurnsNext(PairPlace(c, r0, b0), PairPlace(c, r, b), Pairs(c));
    var n := NextRankAndBank(c, r, b);
    if PairPlace(c, n.0, n.1) == PairPlace(c, r0, b0) {
      PlaceUnique(c, n.0, n.1, r0, b0);
    }
    hide PairPlace, NextRankAndBank, Pairs;
    forall r1: nat, b1: nat | r1 < c.ranks && b1 < c.banks
      ensures PairTurns(c, r0, b0, r1, b1) < Pairs(c)
      ensures PairTurns(c, r0, b0, r1, b1) == PairTurns(c, r0, b0, r, b) ==> r1 == r && b1 == b
    {
      PlaceBound(c, r1, b1);
      if PairTurns(c, r0, b0, r1, b1) == PairTurns(c, r0, b0, r, b) {
        TurnsUnique(PairPlace(c, r0, b0), PairPlace(c, r, b), PairPlace(c, r1, b1), Pairs(c));
        PlaceUnique(c, r, b, r1, b1);
      }
    }
  }

  lemma {:induction false} ScanClosesFirst(c: Config, q: QueueState, t: Table, r: nat, b: nat, r0: nat, b0: nat,
      now: nat)
    requires c.Sensible() && QueueShape(c, q) && TableShape(c, t)
    requires r < c.ranks && b < c.banks && r0 < c.ranks && b0 < c.banks
    ensures var turn := PairTurns(c, r0, b0, r, b);
      var pick := ScanRows(c, q, t, r, b, r0, b0, now);
      if pick.CloseRow? then WornFirst(c, q, t, r0, b0, pick.rank, pick.bank, now, turn)
      else NoneWorn(c, q, t, r0, b0, now, turn)
    decreases PairLaps(c, r, b, r0, b0), PairRest(c, r, b)
  {
    ClosableIsWorn(c, q, t, r, b, now);
    NextPairTurn(c, r, b, r0, b0);
    var n := NextRankAndBank(c, r, b);
    if !Worn(c, q, t, r, b, now) && n != (r0, b0) {
      PairWalk(c, r, b, r0, b0);
      hide Worn, Closable, PairTurns, NextRankAndBank, PairLaps, PairRest, QueueShape;
      ScanClosesFirst(c, q, t, n.0, n.1, r0, b0, now);
    }
    hide Worn, Closable, PairTurns, NextRankAndBank, PairLaps, PairRest, QueueShape;
  }

  lemma PairWalk(c: Config, r: nat, b: nat, r0: nat, b0: nat)
    requires r < c.ranks && b < c.banks && r0 < c.ranks && b0 < c.banks
    ensures var n := NextRankAndBank(c, r, b); n != (r0, b0) ==>
      PairLaps(c, n.0, n.1, r0, b0) < PairLaps(c, r, b, r0, b0)
      || (PairLaps(c, n.0, n.1, r0, b0) == PairLaps(c, r, b, r0, b0) && PairRest(c, n.0, n.1) < PairRest(c, r, b))
  {
  }

  // ---- what pop gives ----

  function Aged(q: QueueState): QueueState { q.(faw := AgeAll(q.faw)) }

  /** Some queue has something that may go. */
  ghost predicate SomeCanGo(c: Config, q: QueueState, t: Table, now: nat)
    requires c.Sensible() && QueueShape(c, q) && TableShape(c, t)
  {
    exists r: nat, b: nat :: r < c.ranks && b < c.banks && !Stuck(c, q, t, r, b, now)
  }

  ghost predicate SomeWorn(c: Config, q: QueueState, t: Table, now: nat)
    requires c.Sensible() && QueueShape(c, q) && TableShape(c, t)
  {
    exists r: nat, b: nat :: r < c.ranks && b < c.banks && Worn(c, q, t, r, b, now)
  }

  lemma NoTurnYet(c: Config, r: nat, b: nat)
    requires r < c.ranks && b < c.banks
    ensures QueueTurns(c, r, b, r, b) == 0 && PairTurns(c, r, b, r, b) == 0
  {
  }

  /**
   While no refresh is waited for, pop takes the first packet in turn that may go; if there is none, it closes the
   first row in turn that should be closed; if there is none either, it gives nothing.
  */
  lemma PopInTurn(c: Config, q: QueueState, t: Table, now: nat)
    requires c.Sensible() && QueueShape(c, q) && TableShape(c, t) && !q.refreshWaiting
    ensures QueueShape(c, Aged(q))
    ensures var q0 := Aged(q); var popped := Pop(c, q, t, now).1;
      if SomeCanGo(c, q0, t, now) then
        exists r: nat, b: nat, i: nat :: r < c.ranks && b < c.banks &&
          FirstInTurn(c, q0, t, q.nextRank, q.nextBank, r, b, i, now, 0) && popped == Some(Line(c, q, r, b)[i])
      else if c.openPage && SomeWorn(c, q0, t, now) then
        exists r: nat, b: nat :: r < c.ranks && b < c.banks &&
          WornFirst(c, q0, t, q.nextRankPRE, q.nextBankPRE, r, b, now, 0) &&
          popped == Some(Packet(Precharge, 0, 0, 0, r, b))
      else popped.None?
  {
    var q0 := Aged(q);
    DramOrderTheorems.AgedShape(c, q);
    var pick := Choose(c, q0, t, now);
    NoTurnYet(c, q.nextRank, q.nextBank);
    NoTurnYet(c, q.nextRankPRE, q.nextBankPRE);
    ScanTakesFirst(c, q0, t, q.nextRank, q.nextBank, q.nextRank, q.nextBank, now);
    ScanClosesFirst(c, q0, t, q.nextRankPRE, q.nextBankPRE, q.nextRankPRE, q.nextBankPRE, now);
    PoppedIs(c, q, t, now);
    hide ScanQueues, ScanRows, Worn, CanGo, QueueTurns, PairTurns, Pop, QueueShape;
    if pick.FromQueue? {
      assert !Stuck(c, q0, t, pick.rank, pick.bank, now);
    }
  }

  lemma PoppedIs(c: Config, q: QueueState, t: Table, now: nat)
    requires c.Sensible() && QueueShape(c, q) && TableShape(c, t)
    ensures QueueShape(c, Aged(q))
    ensures var q0 := Aged(q); var pick := Choose(c, q0, t, now); var popped := Pop(c, q, t, now).1;
      if pick.Nothing? then popped.None? else Valid(c, q0, pick) && popped == Some(Chosen(c, q0, pick))
  {
    hide Choose, Remove, LineShape;
    if !Choose(c, Aged(q), t, now).Nothing? {
      ChoiceValid(c, Aged(q), t, now);
    }
  }

  /**
   The next search starts one turn after the queue that was served; with posted column accesses the queue is left
   alone for one more command first, so that the activate and its column access follow each other.
  */
  lemma PopMovesOn(c: Config, q: QueueState, t: Table, now: nat)
    requires c.Sensible() && QueueShape(c, q) && TableShape(c, t) && Pop(c, q, t, now).1.Some?
    ensures QueueShape(c, Aged(q))
    ensures var pick := Choose(c, Aged(q), t, now); var q1 := Pop(c, q, t, now).0;
      var (r, b) := if pick.FromQueue? then (pick.rank, pick.bank) else (q.nextRank, q.nextBank);
      && r < c.ranks && b < c.banks && MovedOn(c, q, q1, r, b)
  {
    DramOrderTheorems.AgedShape(c, q);
    PoppedIs(c, q, t, now);
    var q0 := Aged(q);
    var pick := Choose(c, q0, t, now);
    hide Choose, LineShape, MovedOn;
    RemoveKeepsShape(c, q0, pick);
    FinishMovesOn(c, q0, pick);
  }

  lemma FinishMovesOn(c: Config, q: QueueState, pick: Pick)
    requires c.Sensible() && QueueShape(c, q) && Valid(c, q, pick) && QueueShape(c, Remove(c, q, pick))
    requires Chosen(c, q, pick).rank < c.ranks
    ensures var (r, b) := if pick.FromQueue? then (pick.rank, pick.bank) else (q.nextRank, q.nextBank);
      r < c.ranks && b < c.banks && MovedOn(c, q, Finish(c, Remove(c, q, pick), Chosen(c, q, pick)), r, b)
  {
    RemovedNext(c, q, pick);
    hide Remove, QueueShape, Chosen;
    FinishedNext(c, Remove(c, q, pick), Chosen(c, q, pick));
  }

  lemma RemovedNext(c: Config, q: QueueState, pick: Pick)
    requires c.Sensible() && QueueShape(c, q) && Valid(c, q, pick)
    ensures var q1 := Remove(c, q, pick);
      && q1.sendAct == q.sendAct && q1.nextRank < c.ranks && q1.nextBank < c.banks && |q1.faw| == c.ranks
      && (q1.nextRank, q1.nextBank) == if pick.FromQueue? then (pick.rank, pick.bank) else (q.nextRank, q.nextBank)
  {
    hide LineShape, Put;
  }

  lemma FinishedNext(c: Config, q: QueueState, p: Packet)
    requires q.nextRank < c.ranks && q.nextBank < c.banks && p.rank < |q.faw|
    ensures MovedOn(c, q, Finish(c, q, p), q.nextRank, q.nextBank)
  {
    NextPlace(c, q.nextRank, q.nextBank);
    hide PairPlace, NextRankAndBank, Pairs;
  }

  /** From (r, b) the next search is one turn on, or stays. */
  predicate MovedOn(c: Config, q: QueueState, q1: QueueState, r: nat, b: nat) {
    var stays := c.AL > 0 && q.sendAct;
    var place := PairPlace(c, q1.nextRank, q1.nextBank);
    && q1.sendAct == !stays && (stays ==> q1.nextRank == r && q1.nextBank == b)
    && (!stays ==> place == if PairPlace(c, r, b) + 1 == Pairs(c) then 0 else PairPlace(c, r, b) + 1)
  }

  // ---- nothing is waited for ----

  /** No bank of the rank is busy or asleep, and all its times are over. */
  predicate Due(c: Config, t: Table, r: nat, now: nat)
    requires TableShape(c, t) && r < c.ranks
  {
    forall b :: 0 <= b < c.banks ==>
      var m := t[r][b];
      && (m.mode.Idle? || m.mode.RowActive?) && m.countdown == 0
      && now >= m.nextRead && now >= m.nextWrite && now >= m.nextActivate && now >= m.nextPrecharge
  }

  /** A bare column command may go. */
  lemma BareIssuable(c: Config, q: QueueState, t: Table, line: seq<Packet>, r: nat, k: nat, i: nat, now: nat)
    requires c.Sensible() && QueueShape(c, q) && TableShape(c, t) && r < c.ranks && i < |line|
    requires LineOk(c, t[r], q.rowAccess[r], line) && Bare(line, i) && Belongs(c, line[i], r, k)
    requires Due(c, t, r, now) && (!c.openPage ==> q.rowAccess[r][line[i].bank] == 0)
    ensures Issuable(c, q, t, line[i], now)
  {
    assert BareFine(c, t[r], q.rowAccess[r], line, i);
  }

  lemma BareEligible(c: Config, q: QueueState, t: Table, line: seq<Packet>, r: nat, k: nat, i: nat, now: nat)
    requires c.Sensible() && QueueShape(c, q) && TableShape(c, t) && r < c.ranks && i < |line|
    requires LineOk(c, t[r], q.rowAccess[r], line) && Bare(line, i) && Belongs(c, line[i], r, k)
    requires c.perBank && !c.openPage ==> i == 0
    requires Issuable(c, q, t, line[i], now)
    ensures Eligible(c, q, t, line, i, now)
  {
    assert BareFine(c, t[r], q.rowAccess[r], line, i);
  }

  /** An activate at the head of a line to an idle bank may go. */
  lemma HeadEligible(c: Config, q: QueueState, t: Table, line: seq<Packet>, r: nat, k: nat, now: nat)
    requires c.Sensible() && QueueShape(c, q) && TableShape(c, t) && r < c.ranks && |line| > 0
    requires Belongs(c, line[0], r, k) && line[0].kind.Activate? && t[r][line[0].bank].mode.Idle?
    requires now >= t[r][line[0].bank].nextActivate && |q.faw[r]| < 4
    ensures Eligible(c, q, t, line, 0, now)
  {
  }

  /** An open row that is not to be closed has a column access that may go. */
  lemma OpenRowEligible(c: Config, q: QueueState, t: Table, r: nat, b: nat, now: nat) returns (i: nat)
    requires c.Sensible() && QueueShape(c, q) && TableShape(c, t) && r < c.ranks && b < c.banks && c.openPage
    requires RankUnits(c, q, t, r) && Due(c, t, r, now) && t[r][b].mode.RowActive?
    requires !Worn(c, q, t, r, b, now) && q.rowAccess[r][b] <= c.totalRowAccesses
    ensures i < |Line(c, q, r, b)| && Belongs(c, Line(c, q, r, b)[i], r, Slot(c, b))
    ensures Eligible(c, q, t, Line(c, q, r, b), i, now)
  {
    var line := Line(c, q, r, b);
    var row := t[r][b].openRow;
    assert LineOk(c, t[r], q.rowAccess[r], line);
    var j := FirstToRow(line, b, row, 0);
    assert j < |line| && q.rowAccess[r][b] < c.totalRowAccesses;
    assert Belongs(c, line[j], r, Slot(c, b));
    i := if line[j].kind.Activate? then j + 1 else j;
    assert i < |line| && Belongs(c, line[i], r, Slot(c, b));
    hide QueueShape, RankUnits;
    assert line[i].kind.IsColumn() && line[i].bank == b && line[i].row == row;
    assert !Depends(line, i);
  }

  /** Under the close-page policy no bare column command is behind another packet of its bank. */
  lemma NothingBehind(c: Config, ms: seq<Bank>, acc: seq<nat>, line: seq<Packet>)
    requires LineOk(c, ms, acc, line) && line != []
    ensures !c.openPage && line[0].kind.Activate? ==> !HasBare(line, line[0].bank)
  {
    if !c.openPage && line[0].kind.Activate? {
      forall i | 0 <= i < |line| && Bare(line, i) ensures line[i].bank != line[0].bank {
        assert BareFine(c, ms, acc, line, i);
      }
    }
  }

  /** The head of a line, or another packet of the bank it goes to, may go, unless that bank has a row to close. */
  lemma HeadGoes(c: Config, q: QueueState, t: Table, r: nat, b: nat, now: nat, hits: nat)
    requires c.Sensible() && QueueShape(c, q) && TableShape(c, t) && r < c.ranks && b < c.banks
    requires RankUnits(c, q, t, r) && Due(c, t, r, now) && !q.refreshWaiting && |q.faw[r]| < 4
    requires Line(c, q, r, b) != [] && Line(c, q, r, b)[0].bank < c.banks
    requires BankCounts(c, q, t, r, Line(c, q, r, b)[0].bank, hits)
    ensures SomeCanGo(c, q, t, now) || (c.openPage && SomeWorn(c, q, t, now))
  {
    var line := Line(c, q, r, b);
    var p := line[0];
    var m := t[r][p.bank];
    assert Belongs(c, p, r, Slot(c, b)) && LineOk(c, t[r], q.rowAccess[r], line);
    assert Line(c, q, r, p.bank) == line;
    NothingBehind(c, t[r], q.rowAccess[r], line);
    if p.kind.IsColumn() {
      assert Bare(line, 0);
      BareIssuable(c, q, t, line, r, Slot(c, b), 0, now);
      BareEligible(c, q, t, line, r, Slot(c, b), 0, now);
      assert CanGo(c, q, t, r, b, 0, now) && !Stuck(c, q, t, r, b, now);
    } else if m.mode.Idle? {
      HeadEligible(c, q, t, line, r, Slot(c, b), now);
      assert CanGo(c, q, t, r, b, 0, now) && !Stuck(c, q, t, r, b, now);
    } else if c.openPage {
      if !Worn(c, q, t, r, p.bank, now) {
        var i := OpenRowEligible(c, q, t, r, p.bank, now);
        assert CanGo(c, q, t, r, p.bank, i, now) && !Stuck(c, q, t, r, p.bank, now);
      }
    }
  }

  // ---- a waiting refresh ----

  /** The first bank from b on that a refresh of the rank has to wait for. */
  ghost predicate FirstHindrance(c: Config, t: Table, r: nat, b: nat, now: nat)
    requires TableShape(c, t) && r < c.ranks && b < c.banks
  {
    && (t[r][b].mode.RowActive? || t[r][b].nextActivate > now)
    && forall j :: 0 <= j < b ==> !t[r][j].mode.RowActive? && t[r][j].nextActivate <= now
  }

  predicate NoHindrance(c: Config, t: Table, r: nat, now: nat)
    requires TableShape(c, t) && r < c.ranks
  {
    forall j :: 0 <= j < c.banks ==> !t[r][j].mode.RowActive? && t[r][j].nextActivate <= now
  }

  lemma {:induction false} HindranceDecides(c: Config, q: QueueState, t: Table, b: nat, now: nat)
    requires c.Sensible() && QueueShape(c, q) && TableShape(c, t) && q.refreshWaiting && b <= c.banks
    requires forall j :: 0 <= j < b ==>
      !t[q.refreshRank][j].mode.RowActive? && t[q.refreshRank][j].nextActivate <= now
    ensures var r := q.refreshRank; var pick := ScanForRefresh(c, q, t, b, now);
      && (NoHindrance(c, t, r, now) ==> pick == if t[r][0].mode.PowerDown? then Nothing else SendRefresh)
      && (forall k: nat :: k < c.banks && FirstHindrance(c, t, r, k, now) ==>
           pick == if t[r][k].mode.RowActive? then RefreshBank(c, q, t, k, now) else Nothing)
    decreases c.banks - b
  {
    var r := q.refreshRank;
    assert 0 <= r < c.ranks && |t[r]| == c.banks;
    hide QueueShape, RefreshBank;
    if b < c.banks && !t[r][b].mode.RowActive? && t[r][b].nextActivate <= now {
      HindranceDecides(c, q, t, b + 1, now);
    }
    forall k: nat | k < c.banks && FirstHindrance(c, t, r, k, now) ensures k >= b {
    }
  }

  /**
   A waiting refresh goes as soon as all banks of its rank are closed and due.  Otherwise the first bank that is not
   decides: its last column access goes, or its row is closed, if that can be.
  */
  lemma RefreshGoes(c: Config, q: QueueState, t: Table, now: nat)
    requires c.Sensible() && QueueShape(c, q) && TableShape(c, t) && q.refreshWaiting
    ensures var r := q.refreshRank; var popped := Pop(c, q, t, now).1;
      && (popped == Some(Packet(Refresh, 0, 0, 0, r, 0)) <== NoHindrance(c, t, r, now) && !t[r][0].mode.PowerDown?)
      && (popped.Some? && popped.value.kind.Refresh? ==>
           NoHindrance(c, t, r, now) && !t[r][0].mode.PowerDown? && popped.value.rank == r)
  {
    PoppedIs(c, q, t, now);
    DramOrderTheorems.AgedShape(c, q);
    var q0 := Aged(q);
    var pick := Choose(c, q0, t, now);
    HindranceDecides(c, q0, t, 0, now);
    if pick.FromQueue? {
      assert Belongs(c, Line(c, q0, pick.rank, pick.bank)[pick.index], pick.rank, Slot(c, pick.bank));
    }
    if pick.LastColumn? {
      assert Belongs(c, Line(c, q0, q.refreshRank, pick.bank)[pick.index], q.refreshRank, Slot(c, pick.bank));
    }
    hide Pop, ScanQueues, ScanRows, QueueShape, ScanForRefresh;
  }

  lemma BareIsFirst(c: Config, ms: seq<Bank>, acc: seq<nat>, line: seq<Packet>, b: nat)
    requires LineOk(c, ms, acc, line) && !c.openPage && b < |ms| && HasBare(line, b)
    ensures var j := FirstToRow(line, b, ms[b].openRow, 0); j < |line| && !line[j].kind.Activate?
  {
    var i :| 0 <= i < |line| && Bare(line, i) && line[i].bank == b;
    assert BareFine(c, ms, acc, line, i);
  }

  /** An open row of the waiting rank lets its last column access go, or is closed. */
  lemma OpenRowGivesWay(c: Config, q: QueueState, t: Table, b: nat, now: nat, hits: nat)
    requires c.Sensible() && QueueShape(c, q) && TableShape(c, t) && q.refreshWaiting && b < c.banks
    requires RankUnits(c, q, t, q.refreshRank) && Due(c, t, q.refreshRank, now)
    requires t[q.refreshRank][b].mode.RowActive? && BankCounts(c, q, t, q.refreshRank, b, hits)
    ensures !RefreshBank(c, q, t, b, now).Nothing?
  {
    var r := q.refreshRank;
    var line := Line(c, q, r, b);
    var j := FirstToRow(line, b, t[r][b].openRow, 0);
    assert LineOk(c, t[r], q.rowAccess[r], line);
    if !c.openPage {
      BareIsFirst(c, t[r], q.rowAccess[r], line, b);
    }
    if j < |line| && !line[j].kind.Activate? {
      assert Belongs(c, line[j], r, Slot(c, b));
      assert Bare(line, j);
      BareIssuable(c, q, t, line, r, Slot(c, b), j, now);
    }
  }

  // ---- progress ----

  /** Nothing has to be waited for in any rank. */
  ghost predicate AllDue(c: Config, q: QueueState, t: Table, now: nat)
    requires QueueShape(c, q) && TableShape(c, t)
  {
    forall r :: 0 <= r < c.ranks ==> Due(c, t, r, now) && |Age(q.faw[r])| < 4
  }

  ghost predicate AllCounted(c: Config, q: QueueState, t: Table, issued: seq<Event>)
    requires c.Sensible() && QueueShape(c, q) && TableShape(c, t)
  {
    forall r, b :: 0 <= r < c.ranks && 0 <= b < c.banks ==> BankCounts(c, q, t, r, b, Hits(issued, r, b))
  }

  /** There is something to do: a packet in some queue, or a refresh to send. */
  predicate Pending(c: Config, q: QueueState)
    requires c.Sensible() && QueueShape(c, q)
  {
    q.refreshWaiting || exists r, b :: 0 <= r < c.ranks && 0 <= b < c.banks && Line(c, q, r, b) != []
  }

  lemma PopGives(c: Config, q: QueueState, t: Table, now: nat, issued: seq<Event>)
    requires c.Sensible() && QueueShape(c, q) && TableShape(c, t) && Units(c, q, t) && AllCounted(c, q, t, issued)
    requires AllDue(c, q, t, now) && Pending(c, q)
    ensures var popped := Pop(c, q, t, now).1;
      popped.Some? && (q.refreshWaiting ==> popped.value.rank == q.refreshRank)
  {
    var q0 := Aged(q);
    DramOrderTheorems.AgedShape(c, q);
    DramOrder.AgedUnits(c, q, t);
    AgedCounted(c, q, t, issued);
    if q.refreshWaiting {
      WaitingGives(c, q, t, now, issued);
    } else {
      var r, b :| 0 <= r < c.ranks && 0 <= b < c.banks && Line(c, q, r, b) != [];
      var line := Line(c, q, r, b);
      assert Line(c, q0, r, b) == line && Belongs(c, line[0], r, Slot(c, b)) && RankUnits(c, q0, t, r);
      assert BankCounts(c, q0, t, r, line[0].bank, Hits(issued, r, line[0].bank));
      assert |q0.faw[r]| < 4;
      HeadGoes(c, q0, t, r, b, now, Hits(issued, r, line[0].bank));
      PopInTurn(c, q, t, now);
    }
  }

  lemma AgedCounted(c: Config, q: QueueState, t: Table, issued: seq<Event>)
    requires c.Sensible() && QueueShape(c, q) && TableShape(c, t) && AllCounted(c, q, t, issued)
    ensures QueueShape(c, Aged(q)) && AllCounted(c, Aged(q), t, issued)
  {
    var q0 := Aged(q);
    DramOrderTheorems.AgedShape(c, q);
    hide QueueShape, HasBare, Hits;
    forall r, b | 0 <= r < c.ranks && 0 <= b < c.banks ensures BankCounts(c, q0, t, r, b, Hits(issued, r, b)) {
      assert BankCounts(c, q, t, r, b, Hits(issued, r, b)) && Line(c, q0, r, b) == Line(c, q, r, b);
    }
  }

  lemma WaitingGives(c: Config, q: QueueState, t: Table, now: nat, issued: seq<Event>)
    requires c.Sensible() && QueueShape(c, q) && TableShape(c, t) && q.refreshWaiting && AllDue(c, q, t, now)
    requires QueueShape(c, Aged(q)) && Units(c, Aged(q), t) && AllCounted(c, Aged(q), t, issued)
    ensures var popped := Pop(c, q, t, now).1; popped.Some? && popped.value.rank == q.refreshRank
  {
    var q0 := Aged(q);
    var r := q.refreshRank;
    assert 0 <= r < c.ranks && Due(c, t, r, now) && RankUnits(c, q0, t, r);
    PoppedIs(c, q, t, now);
    HindranceDecides(c, q0, t, 0, now);
    if k :| 0 <= k < c.banks && t[r][k].mode.RowActive? {
      var b := FirstOpen(c, t, r, k, now);
      assert BankCounts(c, q0, t, r, b, Hits(issued, r, b));
      OpenRowGivesWay(c, q0, t, b, now, Hits(issued, r, b));
    }
    hide Pop, ScanQueues, ScanRows, QueueShape, ScanForRefresh, RefreshBank;
    ChosenRank(c, q0, Choose(c, q0, t, now));
  }

  lemma {:induction false} FirstOpen(c: Config, t: Table, r: nat, k: nat, now: nat) returns (b: nat)
    requires TableShape(c, t) && r < c.ranks && k < c.banks && t[r][k].mode.RowActive? && Due(c, t, r, now)
    ensures b < c.banks && t[r][b].mode.RowActive? && FirstHindrance(c, t, r, b, now)
    decreases k
  {
    b := k;
    if j :| 0 <= j < k && t[r][j].mode.RowActive? {
      b := FirstOpen(c, t, r, j, now);
    }
  }

  /**
   In no reachable state in which nothing has to be waited for does pop come back with nothing while a packet is
   queued or a refresh is waited for; and a rank that waits for its refresh is served first.
  */
  lemma Progresses(c: Config, s: Sys, ops: seq<Op>)
    requires c.Sensible() && Initial(c, s) && forall i :: 0 <= i < |ops| ==> ValidOp(c, ops[i])
    requires Run(c, s, ops).Ok?
    requires var e := Run(c, s, ops).value; AllDue(c, e.queue, e.table, e.now) && Pending(c, e.queue)
    ensures var e := Run(c, s, ops).value; var popped := Pop(c, e.queue, e.table, e.now).1;
      popped.Some? && (e.queue.refreshWaiting ==> popped.value.rank == e.queue.refreshRank)
  {
    hide Run, QueueShape, InitialQueue, BankCounts, Pop, AllDue, Pending, Units;
    DramOrderTheorems.NothingStranded(c, s, ops);
    ReachedLimited(c, s, ops);
    var e := Run(c, s, ops).value;
    assert AllCounted(c, e.queue, e.table, e.history.issued);
    PopGives(c, e.queue, e.table, e.now, e.history.issued);
  }

  // ---- scheduling ----

  /** The transaction's command queue has places for an activate and a column command. */
  predicate Fits(c: Config, s: Sys, i: nat)
    requires c.Sensible() && Shape(c, s) && i < |s.transactions|
  {
    var t := s.transactions[i]; |Line(c, s.queue, t.rank, t.bank)| + 2 <= c.cmdQueueDepth
  }

  lemma RoomIsFit(c: Config, s: Sys, i: nat)
    requires c.Sensible() && Shape(c, s) && i < |s.transactions| && DepthOk(c, s.queue)
    ensures HasRoom(c, s.queue, 2, s.transactions[i].rank, s.transactions[i].bank) <==> Fits(c, s, i)
  {
    var t := s.transactions[i];
    var line := Line(c, s.queue, t.rank, t.bank);
    assert |line| <= c.cmdQueueDepth;
    SmallDifference(c.cmdQueueDepth - |line|);
    hide QueueShape;
  }

  lemma SmallDifference(x: int)
    requires 0 <= x < 0x1_0000_0000
    ensures x % 0x1_0000_0000_0000_0000 == x
  {
  }

  /** The two commands that the oldest transaction that fits becomes. */
  lemma SchedulesOldest(c: Config, s: Sys, i: nat)
    requires c.Sensible() && Shape(c, s) && DepthOk(c, s.queue) && Schedule(c, s).Ok?
    requires i < |s.transactions| && Fits(c, s, i) && forall j: nat :: j < i ==> !Fits(c, s, j)
    ensures var s1 := Schedule(c, s).value; var t := s.transactions[i];
      && s1.transactions == s.transactions[..i] + s.transactions[i + 1..]
      && Line(c, s1.queue, t.rank, t.bank) == Line(c, s.queue, t.rank, t.bank) + [
           Packet(Activate, t.addr, t.column, t.row, t.rank, t.bank),
           Packet(c.ColumnKind(t.isRead), t.addr, t.column, t.row, t.rank, t.bank)]
      && s1.pendingReads == s.pendingReads + if t.isRead then [t] else []
  {
    var n := FirstSchedulable(c, s, 0);
    forall j: nat | j < |s.transactions|
      ensures HasRoom(c, s.queue, 2, s.transactions[j].rank, s.transactions[j].bank) <==> Fits(c, s, j)
    {
      RoomIsFit(c, s, j);
    }
    hide HasRoom, Fits, DepthOk;
    assert n == i;
    var t := s.transactions[i];
    DramOrder.ScheduledLine(c, s, DramOrder.Key(t.rank, t.bank, Some(0)));
    hide QueueShape, FirstSchedulable, Enqueue;
    assert s.pendingReads + [] == s.pendingReads;
  }

  /** If none fits, nothing is scheduled. */
  lemma SchedulesNothing(c: Config, s: Sys)
    requires c.Sensible() && Shape(c, s) && DepthOk(c, s.queue)
    requires forall j: nat :: j < |s.transactions| ==> !Fits(c, s, j)
    ensures Schedule(c, s) == Ok(s)
  {
    var n := FirstSchedulable(c, s, 0);
    if n < |s.transactions| {
      RoomIsFit(c, s, n);
    }
    hide QueueShape, HasRoom, Fits;
  }
}
