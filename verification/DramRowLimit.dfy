/**
 How often an open row is used.  In every run no more than a configured number of accesses go to a row before it is
 closed, and under the close-page policy one.
*/
module DramRowLimit {
  import opened Wrappers
  import opened DramTypes
  import opened DramBank
  import opened DramQueue
  import opened DramSystem
  import opened DramSafety
  import opened DramTheorems
  import opened DramUnits
  import opened DramOrder
  import DramOrderTheorems

  /** The column commands among the issued ones that went to the bank since its last activate. */
  function Hits(issued: seq<Event>, r: nat, b: nat): nat {
    if issued == [] then 0
    else
      var p := issued[|issued| - 1].packet;
      var before := Hits(issued[..|issued| - 1], r, b);
      if p.rank != r || p.bank != b then before
      else if p.kind.Activate? then 0
      else if p.kind.IsColumn() then before + 1
      else before
  }

  function HitsAfter(hits: nat, p: Packet, r: nat, b: nat): nat {
    if p.rank != r || p.bank != b then hits
    else if p.kind.Activate? then 0
    else if p.kind.IsColumn() then hits + 1
    else hits
  }

  lemma HitsPush(issued: seq<Event>, e: Event, r: nat, b: nat)
    ensures Hits(issued + [e], r, b) == HitsAfter(Hits(issued, r, b), e.packet, r, b)
  {
    assert (issued + [e])[..|issued|] == issued;
  }

  /** A bare column command waits for bank b. */
  predicate HasBare(line: seq<Packet>, b: nat) {
    exists i :: 0 <= i < |line| && Bare(line, i) && line[i].bank == b
  }

  /** The counter of an open row is behind the accesses by the first one, which has gone without its activate. */
  predicate Counted(c: Config, m: Bank, acc: nat, bare: bool, hits: nat) {
    && acc <= c.totalRowAccesses && (!c.openPage ==> acc == 0)
    && (m.mode.RowActive? && m.countdown == 0 ==> hits == acc + (if bare then 0 else 1) && (c.openPage || bare))
  }

  /** How many accesses a row may see. */
  function Limit(c: Config): nat { 1 + if c.openPage then c.totalRowAccesses else 0 }

  // ---- bare entries after a cut ----

  lemma CutOthers(line: seq<Packet>, lo: nat, hi: nat, b: nat)
    requires Paired(line) && lo < hi <= |line| && (lo > 0 ==> !line[lo - 1].kind.Activate?)
    requires hi == lo + 1 || (hi == lo + 2 && line[lo].kind.Activate?)
    requires forall i :: lo <= i < hi ==> line[i].bank != b
    ensures HasBare(line[..lo] + line[hi..], b) <==> HasBare(line, b)
  {
    var cut := line[..lo] + line[hi..];
    if HasBare(cut, b) {
      CutPaired(line, lo, hi);
      var k :| 0 <= k < |cut| && Bare(cut, k) && cut[k].bank == b;
      assert cut[k] == if k < lo then line[k] else line[k + hi - lo];
    }
    if HasBare(line, b) {
      var i :| 0 <= i < |line| && Bare(line, i) && line[i].bank == b;
      BareStays(line, lo, hi, i);
    }
  }

  lemma BareStays(line: seq<Packet>, lo: nat, hi: nat, i: nat)
    requires Paired(line) && lo < hi <= |line| && (lo > 0 ==> !line[lo - 1].kind.Activate?)
    requires i < |line| && !(lo <= i < hi) && Bare(line, i)
    ensures HasBare(line[..lo] + line[hi..], line[i].bank)
  {
    var cut := line[..lo] + line[hi..];
    var k := if i < lo then i else i - (hi - lo);
    assert cut[k] == line[i] && (0 < k < lo ==> cut[k - 1] == line[k - 1]) && (k > lo ==> cut[k - 1] == line[i - 1]);
    assert k == lo && k > 0 ==> cut[k - 1] == line[lo - 1];
    assert Bare(cut, k);
  }

  lemma CutOwnActivate(line: seq<Packet>, lo: nat)
    requires Paired(line) && lo < |line| && line[lo].kind.Activate? && (lo > 0 ==> !line[lo - 1].kind.Activate?)
    ensures HasBare(line[..lo] + line[lo + 1..], line[lo].bank)
  {
    var cut := line[..lo] + line[lo + 1..];
    assert cut[lo] == line[lo + 1] && line[lo + 1].(kind := Activate) == line[lo];
    assert lo > 0 ==> cut[lo - 1] == line[lo - 1];
    assert Bare(cut, lo);
  }

  lemma CutOwnColumn(line: seq<Packet>, lo: nat, hi: nat, b: nat)
    requires Paired(line) && lo < hi <= |line| && (lo > 0 ==> !line[lo - 1].kind.Activate?)
    requires (hi == lo + 1 && !line[lo].kind.Activate?) || (hi == lo + 2 && line[lo].kind.Activate?)
    requires forall i :: 0 <= i < |line| && !(lo <= i < hi) && Bare(line, i) ==> line[i].bank != b
    ensures !HasBare(line[..lo] + line[hi..], b)
  {
    var cut := line[..lo] + line[hi..];
    CutPaired(line, lo, hi);
    forall k | 0 <= k < |cut| && Bare(cut, k) ensures cut[k].bank != b {
      assert cut[k] == if k < lo then line[k] else line[k + hi - lo];
    }
  }

  // ---- what a choice does to the count of one bank ----

  /** A bank that the command does not go to. */
  lemma OtherBank(c: Config, m: Bank, p: Packet, r: nat, b: nat, now: nat)
    requires c.Sensible() && !(p.rank == r && p.bank == b) && (p.kind.Refresh? ==> p.rank != r)
    ensures var m1 := Issue(c, m, r, b, p, now); m1.mode == m.mode && m1.countdown == m.countdown
  {
  }

  /** The bank that a command other than a refresh goes to. */
  lemma OwnBank(c: Config, m: Bank, p: Packet, now: nat)
    requires c.Sensible()
    ensures var m1 := Issue(c, m, p.rank, p.bank, p, now);
      && (p.kind.Activate? ==> m1.countdown == m.countdown)
      && (p.kind == Read || p.kind == Write ==> m1.mode == m.mode && m1.countdown == m.countdown)
      && (p.kind.AutoPrecharges() ==> m1.countdown > 0)
      && (p.kind.Precharge? || p.kind.Refresh? ==> !m1.mode.RowActive?)
  {
  }

  /** The line without what is taken out together with packet i. */
  function Taken(c: Config, line: seq<Packet>, i: nat): seq<Packet>
    requires i < |line|
  {
    if TakesActivate(c, line, i) then line[..i - 1] + line[i + 1..] else Without(line, i)
  }

  /** In a line from which packet i is taken, what becomes of the bare entries of each bank. */
  ghost predicate BaresAfter(c: Config, line: seq<Packet>, i: nat, b: nat)
    requires i < |line|
  {
    var p := line[i];
    && (TakesActivate(c, line, i) ==> p.kind.IsColumn())
    && (b != p.bank ==> (HasBare(Taken(c, line, i), b) <==> HasBare(line, b)))
    && (p.kind.Activate? ==> HasBare(Taken(c, line, i), p.bank))
    && (p.kind.IsColumn() ==>
         !HasBare(Taken(c, line, i), p.bank) && (HasBare(line, p.bank) <==> !TakesActivate(c, line, i)))
  }

  lemma TakenBares(c: Config, q: QueueState, t: Table, r: nat, b0: nat, i: nat, now: nat, b: nat)
    requires c.Sensible() && QueueShape(c, q) && TableShape(c, t) && r < c.ranks && b0 < c.banks
    requires RankUnits(c, q, t, r) && Settled(c, t, now)
    requires i < |Line(c, q, r, b0)| && i == FirstEligible(c, q, t, Line(c, q, r, b0), r, Slot(c, b0), 0, now)
    ensures var line := Line(c, q, r, b0); var p := line[i];
      && p.rank == r && p.bank < c.banks && Slot(c, p.bank) == Slot(c, b0)
      && BaresAfter(c, line, i, b)
      && (p.kind.Activate? && c.openPage ==> q.rowAccess[r][p.bank] == 0)
  {
    var line := Line(c, q, r, b0);
    var p := line[i];
    var ms, acc := t[r], q.rowAccess[r];
    assert Belongs(c, p, r, Slot(c, b0)) && Eligible(c, q, t, line, i, now);
    assert LineOk(c, ms, acc, line);
    hide FirstEligible, QueueShape, BaresAfter;
    if p.kind.Activate? {
      TakenActivate(c, q, t, line, r, Slot(c, b0), i, now);
      ActivateBares(c, line, i, b);
    } else if i > 0 && line[i - 1].kind.Activate? {
      assert c.openPage by {
        assert line[i].(kind := Activate) == line[i - 1];
      }
      TakenPair(c, ms, acc, line, i);
      PairBares(c, line, i, b);
    } else {
      OneBare(c, ms, acc, line, i);
      ColumnBares(c, line, i, b);
    }
  }

  lemma ActivateBares(c: Config, line: seq<Packet>, i: nat, b: nat)
    requires Paired(line) && i < |line| && line[i].kind.Activate?
    ensures BaresAfter(c, line, i, b)
  {
    assert !(i > 0 && line[i - 1].kind.Activate?);
    CutOwnActivate(line, i);
    if b != line[i].bank {
      CutOthers(line, i, i + 1, b);
    }
    hide HasBare;
  }

  lemma PairBares(c: Config, line: seq<Packet>, i: nat, b: nat)
    requires Paired(line) && 0 < i < |line| && line[i - 1].kind.Activate? && c.openPage
    requires i - 1 > 0 ==> !line[i - 2].kind.Activate?
    requires forall k :: 0 <= k < |line| && Bare(line, k) ==> line[k].bank != line[i].bank
    ensures BaresAfter(c, line, i, b)
  {
    CutOwnColumn(line, i - 1, i + 1, line[i].bank);
    assert line[i].(kind := Activate) == line[i - 1] && line[i].kind.IsColumn();
    if b != line[i].bank {
      CutOthers(line, i - 1, i + 1, b);
    }
    assert !HasBare(line, line[i].bank);
    hide HasBare;
  }

  lemma ColumnBares(c: Config, line: seq<Packet>, i: nat, b: nat)
    requires Paired(line) && i < |line| && Bare(line, i)
    requires forall k :: 0 <= k < |line| && k != i && Bare(line, k) ==> line[k].bank != line[i].bank
    ensures BaresAfter(c, line, i, b)
  {
    assert HasBare(line, line[i].bank);
    CutOwnColumn(line, i, i + 1, line[i].bank);
    if b != line[i].bank {
      CutOthers(line, i, i + 1, b);
    }
    hide HasBare;
  }

  /** The count of bank b of rank r, with so many hits so far. */
  predicate BankCounts(c: Config, q: QueueState, t: Table, r: nat, b: nat, hits: nat)
    requires c.Sensible() && QueueShape(c, q) && TableShape(c, t) && r < c.ranks && b < c.banks
  {
    Counted(c, t[r][b], q.rowAccess[r][b], HasBare(Line(c, q, r, b), b), hits)
  }

  lemma QueuedCounts(c: Config, q: QueueState, t: Table, pick: Pick, now: nat, q1: QueueState, t1: Table, b: nat,
      hits: nat)
    requires c.Sensible() && QueueShape(c, q) && TableShape(c, t) && Valid(c, q, pick) &&
      After(c, q, t, pick, now, q1, t1)
    requires pick.FromQueue? && RankUnits(c, q, t, pick.rank) && Settled(c, t, now) && b < c.banks
    requires pick.index == FirstEligible(c, q, t, Line(c, q, pick.rank, pick.bank), pick.rank,
      Slot(c, pick.bank), 0, now)
    requires BankCounts(c, q, t, pick.rank, b, hits)
    ensures BankCounts(c, q1, t1, pick.rank, b, HitsAfter(hits, Chosen(c, q, pick), pick.rank, b))
  {
    var r, i := pick.rank, pick.index;
    var line := Line(c, q, r, pick.bank);
    var p := line[i];
    assert Belongs(c, p, r, Slot(c, pick.bank)) && Eligible(c, q, t, line, i, now);
    FromQueueTakes(c, q, t, pick, now, q1, t1);
    TakenBares(c, q, t, r, pick.bank, i, now, b);
    assert TakesActivate(c, line, i) ==> q1.rowAccess[r][p.bank] == q.rowAccess[r][p.bank] + 1;
    if b == p.bank {
      OwnBank(c, t[r][b], p, now);
      IssuedBank(c, t[r][b], p, now);
    } else {
      OtherBank(c, t[r][b], p, r, b, now);
    }
    assert Line(c, q1, r, b) == if Slot(c, b) == Slot(c, pick.bank) then Taken(c, line, i) else Line(c, q, r, b);
    hide IssueTable, Remove, FirstEligible, Eligible, Issue, HasBare, Taken, After, QueueShape, RankUnits;
  }

  lemma HurriedCounts(c: Config, q: QueueState, t: Table, pick: Pick, now: nat, q1: QueueState, t1: Table, b: nat,
      hits: nat)
    requires c.Sensible() && QueueShape(c, q) && TableShape(c, t) && Valid(c, q, pick) &&
      After(c, q, t, pick, now, q1, t1)
    requires pick.LastColumn? && RankUnits(c, q, t, q.refreshRank) && Settled(c, t, now) && b < c.banks
    requires t[q.refreshRank][pick.bank].mode.RowActive? && pick == RefreshBank(c, q, t, pick.bank, now)
    requires BankCounts(c, q, t, q.refreshRank, b, hits)
    ensures BankCounts(c, q1, t1, q.refreshRank, b, HitsAfter(hits, Chosen(c, q, pick), q.refreshRank, b))
  {
    var r, i := q.refreshRank, pick.index;
    var line := Line(c, q, r, pick.bank);
    var p := line[i];
    assert Belongs(c, p, r, Slot(c, pick.bank)) && LineOk(c, t[r], q.rowAccess[r], line);
    assert i == FirstToRow(line, pick.bank, t[r][pick.bank].openRow, 0) && p.kind.IsColumn() && p.bank == pick.bank;
    assert i > 0 ==> !line[i - 1].kind.Activate?;
    assert q1.queues == Put(q.queues, r, Slot(c, pick.bank), Without(line, i)) && q1.rowAccess == q.rowAccess;
    assert Bare(line, i) && HasBare(line, p.bank);
    OneBare(c, t[r], q.rowAccess[r], line, i);
    CutOwnColumn(line, i, i + 1, p.bank);
    if b == p.bank {
      OwnBank(c, t[r][b], p, now);
    } else {
      CutOthers(line, i, i + 1, b);
      OtherBank(c, t[r][b], p, r, b, now);
    }
    assert Line(c, q1, r, b) == if Slot(c, b) == Slot(c, pick.bank) then Without(line, i) else Line(c, q, r, b);
    hide IssueTable, Remove, RefreshBank, Issue, HasBare, Without, After, QueueShape, RankUnits;
  }

  lemma ClosedCounts(c: Config, q: QueueState, t: Table, pick: Pick, now: nat, q1: QueueState, t1: Table, b: nat,
      hits: nat)
    requires c.Sensible() && QueueShape(c, q) && TableShape(c, t) && Valid(c, q, pick) &&
      After(c, q, t, pick, now, q1, t1)
    requires (pick.CloseForRefresh? || pick.CloseRow? || pick.SendRefresh?) && b < c.banks
    requires BankCounts(c, q, t, Chosen(c, q, pick).rank, b, hits)
    ensures var p := Chosen(c, q, pick); BankCounts(c, q1, t1, p.rank, b, HitsAfter(hits, p, p.rank, b))
  {
    var p := Chosen(c, q, pick);
    if p.kind.Precharge? {
      if b == p.bank {
        OwnBank(c, t[p.rank][b], p, now);
      } else {
        OtherBank(c, t[p.rank][b], p, p.rank, b, now);
      }
    }
    assert Line(c, q1, p.rank, b) == Line(c, q, p.rank, b);
  }

  /** A rank that the command does not go to. */
  lemma OtherRankCounts(c: Config, q: QueueState, t: Table, pick: Pick, now: nat, q1: QueueState, t1: Table, r: nat,
      b: nat, hits: nat)
    requires c.Sensible() && QueueShape(c, q) && TableShape(c, t) && Valid(c, q, pick) &&
      After(c, q, t, pick, now, q1, t1)
    requires r < c.ranks && b < c.banks && r != Chosen(c, q, pick).rank && BankCounts(c, q, t, r, b, hits)
    ensures BankCounts(c, q1, t1, r, b, HitsAfter(hits, Chosen(c, q, pick), r, b))
  {
    var p := Chosen(c, q, pick);
    OtherBank(c, t[r][b], p, r, b, now);
    ChosenRank(c, q, pick);
    assert q1.queues[r] == q.queues[r] && q1.rowAccess[r] == q.rowAccess[r];
    hide IssueTable, Remove, Issue;
  }

  lemma ChoiceCounts(c: Config, q: QueueState, t: Table, pick: Pick, now: nat, q1: QueueState, t1: Table, r: nat,
      b: nat, hits: nat)
    requires c.Sensible() && QueueShape(c, q) && TableShape(c, t) && Units(c, q, t) && Settled(c, t, now)
    requires pick == Choose(c, q, t, now) && !pick.Nothing? && Valid(c, q, pick) && After(c, q, t, pick, now, q1, t1)
    requires r < c.ranks && b < c.banks && BankCounts(c, q, t, r, b, hits)
    ensures BankCounts(c, q1, t1, r, b, HitsAfter(hits, Chosen(c, q, pick), r, b))
  {
    ChosenRank(c, q, pick);
    assert RankUnits(c, q, t, r);
    hide After, RankUnits, Settled, QueueShape, TableShape, BankCounts, HitsAfter, Units;
    if r != Chosen(c, q, pick).rank {
      OtherRankCounts(c, q, t, pick, now, q1, t1, r, b, hits);
    } else if pick.FromQueue? {
      QueuedCounts(c, q, t, pick, now, q1, t1, b, hits);
    } else if pick.LastColumn? {
      HurriedCounts(c, q, t, pick, now, q1, t1, b, hits);
    } else {
      ClosedCounts(c, q, t, pick, now, q1, t1, b, hits);
    }
  }

  // ---- the invariant ----

  ghost predicate Limited(c: Config, s: Sys)
    requires c.Sensible() && Shape(c, s)
  {
    && (forall r, b :: 0 <= r < c.ranks && 0 <= b < c.banks ==>
         BankCounts(c, s.queue, s.table, r, b, Hits(s.history.issued, r, b)))
    && AllWithin(c, s.history.issued)
  }

  /** At no time a bank has had more accesses since its last activate. */
  ghost predicate AllWithin(c: Config, issued: seq<Event>) {
    forall n, r, b :: 0 <= n <= |issued| && 0 <= r < c.ranks && 0 <= b < c.banks ==>
      Hits(issued[..n], r, b) <= Limit(c)
  }

  lemma WithinPush(c: Config, issued: seq<Event>, e: Event)
    requires AllWithin(c, issued)
    requires forall r, b :: 0 <= r < c.ranks && 0 <= b < c.banks ==> Hits(issued + [e], r, b) <= Limit(c)
    ensures AllWithin(c, issued + [e])
  {
    hide Hits;
    var all := issued + [e];
    forall n, r, b | 0 <= n <= |all| && 0 <= r < c.ranks && 0 <= b < c.banks ensures Hits(all[..n], r, b) <= Limit(c) {
      if n <= |issued| {
        assert all[..n] == issued[..n];
      } else {
        assert all[..n] == all;
      }
    }
  }

  /** Phases that leave queues and history alone, and open no row. */
  lemma TableKeepsLimited(c: Config, s: Sys, s1: Sys)
    requires c.Sensible() && Shape(c, s) && Shape(c, s1) && Limited(c, s)
    requires s1.queue.queues == s.queue.queues && s1.queue.rowAccess == s.queue.rowAccess
    requires s1.history.issued == s.history.issued
    requires forall r, b :: 0 <= r < c.ranks && 0 <= b < c.banks ==>
      (s1.table[r][b].mode.RowActive? && s1.table[r][b].countdown == 0 ==>
        s.table[r][b].mode.RowActive? && s.table[r][b].countdown == 0)
    ensures Limited(c, s1)
  {
    hide QueueShape, Hits, HasBare, AllWithin;
    forall r, b | 0 <= r < c.ranks && 0 <= b < c.banks
      ensures BankCounts(c, s1.queue, s1.table, r, b, Hits(s1.history.issued, r, b))
    {
      assert BankCounts(c, s.queue, s.table, r, b, Hits(s.history.issued, r, b));
      assert Line(c, s1.queue, r, b) == Line(c, s.queue, r, b);
    }
  }

  lemma TickOpensNothing(c: Config, m: Bank, v: Bank, t: int)
    requires c.Sensible() && BankRel(c, m, v, t)
    ensures var m1 := Tick(c, m);
      m1.mode.RowActive? && m1.countdown == 0 ==> m.mode.RowActive? && m.countdown == 0
  {
  }

  lemma CountDownLimited(c: Config, s: Sys, at: nat)
    requires c.Sensible() && Shape(c, s) && Related(c, s, at, s.now - 1) && Limited(c, s)
    ensures Limited(c, CountDown(c, s))
  {
    var s1 := CountDown(c, s);
    hide QueueShape, Limited;
    forall r, b | 0 <= r < c.ranks && 0 <= b < c.banks
      ensures s1.table[r][b].mode.RowActive? && s1.table[r][b].countdown == 0 ==>
        s.table[r][b].mode.RowActive? && s.table[r][b].countdown == 0
    {
      assert BankRel(c, s.table[r][b], View(c, s, r, at)[b], s.now - 1);
      TickOpensNothing(c, s.table[r][b], View(c, s, r, at)[b], s.now - 1);
    }
    TableKeepsLimited(c, s, s1);
  }

  lemma ArriveLimited(c: Config, s: Sys)
    requires c.Sensible() && Shape(c, s) && Safe(c, s) && Limited(c, s) && Arrive(c, s).Ok?
    ensures Limited(c, Arrive(c, s).value)
  {
    hide QueueShape, Limited, AdvanceRanks, CountDown, Related, BusLegal, AllSleepAgrees;
    var s1 := AdvanceRanks(c, s, 0).value;
    DramOrderTheorems.AdvanceRanksOrder(c, s, 0);
    AdvanceRanksSame(c, s, 0);
    SameTablesKeep(c, s, s1, s.now, s.now - 1);
    TableKeepsLimited(c, s, s1);
    var s2 := AdmitWaiting(c, s1);
    SameTablesKeep(c, s1, s2, s.now, s.now - 1);
    TableKeepsLimited(c, s1, s2);
    CountDownLimited(c, s2, s.now);
  }

  // ---- the command and the transaction ----

  /** A popped column command finds its row open, and not about to close. */
  lemma ColumnHits(c: Config, s: Sys, p: Packet)
    requires c.Sensible() && Shape(c, s) && Limited(c, s) && Settled(c, s.table, s.now)
    requires p.rank < c.ranks && p.bank < c.banks && Permitted(c, s.table[p.rank], p, s.now) && p.kind.IsColumn()
    ensures Hits(s.history.issued, p.rank, p.bank) <= if c.openPage then c.totalRowAccesses + 1 else 0
  {
    hide QueueShape, HasBare, Hits, AllWithin;
    assert BankCounts(c, s.queue, s.table, p.rank, p.bank, Hits(s.history.issued, p.rank, p.bank));
  }

  lemma IssuedLimited(c: Config, s: Sys, s1: Sys, p: Packet)
    requires c.Sensible() && Shape(c, s) && Shape(c, s1) && Limited(c, s) && Settled(c, s.table, s.now)
    requires p.rank < c.ranks && p.bank < c.banks && Permitted(c, s.table[p.rank], p, s.now)
    requires s1.history.issued == s.history.issued + [Event(p, s.now)] && s1.table == IssueTable(c, s.table, p, s.now)
    requires forall r, b :: 0 <= r < c.ranks && 0 <= b < c.banks ==>
      BankCounts(c, s1.queue, s1.table, r, b, HitsAfter(Hits(s.history.issued, r, b), p, r, b))
    ensures Limited(c, s1)
  {
    var e := Event(p, s.now);
    forall r, b | 0 <= r < c.ranks && 0 <= b < c.banks
      ensures BankCounts(c, s1.queue, s1.table, r, b, Hits(s1.history.issued, r, b))
      ensures Hits(s1.history.issued, r, b) <= Limit(c)
    {
      HitsPush(s.history.issued, e, r, b);
      assert s.history.issued[..|s.history.issued|] == s.history.issued;
      if p.rank == r && p.bank == b && p.kind.IsColumn() {
        ColumnHits(c, s, p);
        OwnBank(c, s.table[r][b], p, s.now);
        assert s1.table[r][b] == Issue(c, s.table[r][b], r, b, p, s.now);
      }
      hide QueueShape, Hits, HasBare, Issue, IssueTable;
    }
    hide QueueShape, Hits, HasBare, BankCounts;
    WithinPush(c, s.history.issued, e);
  }

  lemma IssueNextLimited(c: Config, s: Sys)
    requires c.Sensible() && Shape(c, s) && GoodInside(c, s) && Units(c, s.queue, s.table) && Limited(c, s)
    requires IssueNext(c, s).Ok?
    ensures Limited(c, IssueNext(c, s).value)
  {
    var q0 := s.queue.(faw := AgeAll(s.queue.faw));
    var pick := Choose(c, q0, s.table, s.now);
    var s1 := IssueNext(c, s).value;
    hide Limited, IssueNext, Choose, Remove, QueueShape, Valid, Units, Settled, Related, AllSleepAgrees;
    SettledOf(c, s);
    DramOrderTheorems.AgedShape(c, s.queue);
    AgedUnits(c, s.queue, s.table);
    IssuedEvents(c, s);
    if pick.Nothing? {
      DramOrderTheorems.IssuedNothing(c, s);
      TableKeepsLimited(c, s, s1);
    } else {
      DramOrderTheorems.IssuedAfter(c, s);
      WholeRanksOf(c, s);
      ChoiceIsPermitted(c, q0, s.table, pick, s.now);
      IssuedCounts(c, s, q0, pick, s1);
      IssuedLimited(c, s, s1, Chosen(c, q0, pick));
    }
  }

  lemma IssuedEvents(c: Config, s: Sys)
    requires c.Sensible() && Shape(c, s) && IssueNext(c, s).Ok?
    ensures var q0 := s.queue.(faw := AgeAll(s.queue.faw)); var pick := Choose(c, q0, s.table, s.now);
      var s1 := IssueNext(c, s).value;
      if pick.Nothing? then s1.history == s.history
      else Valid(c, q0, pick) && s1.history.issued == s.history.issued + [Event(Chosen(c, q0, pick), s.now)]
  {
    hide Choose, Remove, LineShape;
    var q0 := s.queue.(faw := AgeAll(s.queue.faw));
    if !Choose(c, q0, s.table, s.now).Nothing? {
      ChoiceValid(c, q0, s.table, s.now);
    }
  }

  lemma IssuedCounts(c: Config, s: Sys, q0: QueueState, pick: Pick, s1: Sys)
    requires c.Sensible() && Shape(c, s) && Shape(c, s1) && Limited(c, s) && Settled(c, s.table, s.now)
    requires q0 == s.queue.(faw := AgeAll(s.queue.faw)) && QueueShape(c, q0) && Units(c, q0, s.table)
    requires pick == Choose(c, q0, s.table, s.now) && !pick.Nothing? && Valid(c, q0, pick)
    requires After(c, q0, s.table, pick, s.now, s1.queue, s1.table)
    ensures forall r, b :: 0 <= r < c.ranks && 0 <= b < c.banks ==>
      BankCounts(c, s1.queue, s1.table, r, b, HitsAfter(Hits(s.history.issued, r, b), Chosen(c, q0, pick), r, b))
  {
    hide QueueShape, Choose, Valid, After, Units, Settled, Hits, HitsAfter, HasBare;
    forall r, b | 0 <= r < c.ranks && 0 <= b < c.banks
      ensures BankCounts(c, s1.queue, s1.table, r, b,
        HitsAfter(Hits(s.history.issued, r, b), Chosen(c, q0, pick), r, b))
    {
      assert BankCounts(c, s.queue, s.table, r, b, Hits(s.history.issued, r, b));
      assert Line(c, q0, r, b) == Line(c, s.queue, r, b);
      ChoiceCounts(c, q0, s.table, pick, s.now, s1.queue, s1.table, r, b, Hits(s.history.issued, r, b));
    }
  }

  lemma PairHasBare(c: Config, line: seq<Packet>, t: Transaction, b: nat)
    requires Paired(line)
    ensures HasBare(line + [ActivateFor(t), ColumnFor(c, t)], b) <==> HasBare(line, b)
  {
    var line1 := line + [ActivateFor(t), ColumnFor(c, t)];
    if HasBare(line1, b) {
      var i :| 0 <= i < |line1| && Bare(line1, i) && line1[i].bank == b;
      assert i < |line| && Bare(line, i);
    }
    if HasBare(line, b) {
      var i :| 0 <= i < |line| && Bare(line, i) && line[i].bank == b;
      assert Bare(line1, i);
    }
  }

  lemma ScheduleLimited(c: Config, s: Sys)
    requires c.Sensible() && Shape(c, s) && Limited(c, s) && Units(c, s.queue, s.table) && Schedule(c, s).Ok?
    ensures Limited(c, Schedule(c, s).value)
  {
    var s1 := Schedule(c, s).value;
    var i := FirstSchedulable(c, s, 0);
    DramOrderTheorems.ScheduleKeeps(c, s);
    hide Schedule, FirstSchedulable, QueueShape, AllWithin, Hits;
    forall r, b | 0 <= r < c.ranks && 0 <= b < c.banks
      ensures BankCounts(c, s1.queue, s1.table, r, b, Hits(s1.history.issued, r, b))
    {
      assert BankCounts(c, s.queue, s.table, r, b, Hits(s.history.issued, r, b));
      ScheduledLine(c, s, Key(r, b, Some(0)));
      var line := Line(c, s.queue, r, b);
      if i < |s.transactions| {
        assert RankUnits(c, s.queue, s.table, r) && LineOk(c, s.table[r], s.queue.rowAccess[r], line);
        PairHasBare(c, line, s.transactions[i], b);
        assert line + [] == line;
      }
    }
  }

  // ---- power states, steps and runs ----

  lemma PowerRankLimited(c: Config, s: Sys, i: nat)
    requires c.Sensible() && Shape(c, s) && i < c.ranks && PowerRank(c, s, i).Ok? && SleepAgrees(c, s, i)
    requires Limited(c, s)
    ensures Limited(c, PowerRank(c, s, i).value)
  {
    var s1 := PowerRank(c, s, i).value;
    assert s1.queue == s.queue && s1.history == s.history &&
      forall r :: 0 <= r < c.ranks && r != i ==> s1.table[r] == s.table[r];
    assert s1.table[i] == s.table[i] || forall b :: 0 <= b < c.banks ==> !s1.table[i][b].mode.RowActive?;
    hide PowerRank, QueueShape, SleepAgrees, Limited;
    TableKeepsLimited(c, s, s1);
  }

  lemma PowerRanksLimited(c: Config, s: Sys, i: nat)
    requires c.Sensible() && Shape(c, s) && i <= c.ranks && Limited(c, s)
    requires Related(c, s, s.now + 1, s.now) && BusLegal(c, s, s.now + 1) && AllSleepAgrees(c, s) && BusBusy(c, s)
    ensures PowerRanks(c, s, i).Ok? && Limited(c, PowerRanks(c, s, i).value)
    decreases c.ranks - i
  {
    hide Shape, Related, BusLegal, BusBusy, Limited, PowerRank, SleepAgrees;
    if i < c.ranks && c.lowPower {
      PowerRankSafe(c, s, i);
      PowerRankLimited(c, s, i);
      PowerRanksLimited(c, PowerRank(c, s, i).value, i + 1);
    }
  }

  lemma CloseLimited(c: Config, s: Sys)
    requires c.Sensible() && Shape(c, s) && GoodIssued(c, s) && Limited(c, s) && Close(c, s).Ok?
    ensures Limited(c, Close(c, s).value)
  {
    IssuedIsSafe(c, s);
    hide QueueShape, Limited, GoodIssued, Related, AllSleepAgrees, BusLegal, BusBusy, PowerRanks;
    PowerRanksLimited(c, s, 0);
    var s1 := PowerRanks(c, s, 0).value;
    DramOrderTheorems.ClosedSame(c, s);
    hide Close;
    TableKeepsLimited(c, s1, Close(c, s).value);
  }

  lemma IssuedIsSafe(c: Config, s: Sys)
    requires c.Sensible() && Shape(c, s) && GoodIssued(c, s)
    ensures Related(c, s, s.now + 1, s.now) && BusLegal(c, s, s.now + 1) && AllSleepAgrees(c, s) && BusBusy(c, s)
  {
  }

  lemma StepLimited(c: Config, s: Sys)
    requires c.Sensible() && Shape(c, s) && Good(c, s) && DramOrderTheorems.Orderly(c, s, s.now - 1) && Limited(c, s)
    requires Step(c, s).Ok?
    ensures Limited(c, Step(c, s).value)
  {
    hide Shape, Good, GoodInside, GoodIssued, DramOrderTheorems.Orderly, Limited, Arrive, MoveBuses, IssueNext,
      Schedule, Close, RefreshTimer, Units;
    FirstHalfGood(c, s);
    DramOrderTheorems.SafeOf(c, s);
    var s1 := Arrive(c, s).value;
    var s2 := MoveBuses(c, s1).value;
    var s3 := RefreshTimer(c, s2);
    var s4 := IssueNext(c, s3).value;
    ArriveLimited(c, s);
    DramOrderTheorems.ArriveOrderly(c, s, s.now - 1);
    DramOrderTheorems.MoveBusesOrder(c, s1);
    TableKeepsLimited(c, s1, s2);
    DramOrderTheorems.SameOrderly(c, s1, s2, s.now - 1);
    DramOrderTheorems.RefreshTimerOrder(c, s2);
    TableKeepsLimited(c, s2, s3);
    DramOrderTheorems.SameOrderly(c, s2, s3, s.now - 1);
    RefreshTimerGood(c, s2);
    OrderlyUnits(c, s3, s.now - 1);
    IssueNextLimited(c, s3);
    DramOrderTheorems.IssueNextOrderly(c, s3);
    OrderlyUnits(c, s4, s.now);
    IssueNextGood(c, s3);
    ScheduleLimited(c, s4);
    ScheduleGood(c, s4);
    CloseLimited(c, Schedule(c, s4).value);
  }

  lemma OrderlyUnits(c: Config, s: Sys, t: int)
    requires c.Sensible() && Shape(c, s) && DramOrderTheorems.Orderly(c, s, t)
    ensures Units(c, s.queue, s.table)
  {
  }

  lemma InitialLimited(c: Config, s: Sys)
    requires c.Sensible() && Initial(c, s)
    ensures Limited(c, s)
  {
    forall r, b | 0 <= r < c.ranks && 0 <= b < c.banks
      ensures BankCounts(c, s.queue, s.table, r, b, Hits(s.history.issued, r, b))
    {
    }
  }

  lemma {:induction false} RunLimited(c: Config, s: Sys, ops: seq<Op>)
    requires c.Sensible() && Shape(c, s) && Good(c, s) && DramOrderTheorems.Orderly(c, s, s.now - 1) && Limited(c, s)
    requires forall i :: 0 <= i < |ops| ==> ValidOp(c, ops[i])
    requires Run(c, s, ops).Ok?
    ensures Limited(c, Run(c, s, ops).value)
    decreases |ops|
  {
    hide Shape, Good, Step, DramOrderTheorems.Orderly, Limited, Submit, Offer;
    if ops != [] {
      var s1 := Do(c, s, ops[0]).value;
      match ops[0] {
        case Request(t) =>
          OfferGood(c, s, t);
          DramOrderTheorems.SubmitOrderly(c, s, t);
          SubmitLimited(c, s, t);
        case Direct(t) =>
          OfferGood(c, s, t);
          DramOrderTheorems.SubmitOrderly(c, s, t);
          SubmitLimited(c, s, t);
        case Cycle =>
          StepGood(c, s);
          DramOrderTheorems.StepOrderly(c, s);
          StepLimited(c, s);
      }
      RunLimited(c, s1, ops[1..]);
    }
  }

  lemma SubmitLimited(c: Config, s: Sys, t: Transaction)
    requires c.Sensible() && Shape(c, s) && Limited(c, s) && Placed(c, t)
    ensures Limited(c, Submit(c, s, t)) && Limited(c, Offer(c, s, t))
  {
    hide Limited, QueueShape;
    TableKeepsLimited(c, s, Offer(c, s, t));
    TableKeepsLimited(c, s, Submit(c, s, t));
  }

  lemma ReachedLimited(c: Config, s: Sys, ops: seq<Op>)
    requires c.Sensible() && Initial(c, s) && forall i :: 0 <= i < |ops| ==> ValidOp(c, ops[i])
    requires Run(c, s, ops).Ok?
    ensures Limited(c, Run(c, s, ops).value)
  {
    hide Run, Good, DramOrderTheorems.Orderly, Limited, QueueShape, InitialQueue;
    InitialGood(c, s);
    DramOrderTheorems.InitialOrderly(c, s);
    InitialLimited(c, s);
    RunLimited(c, s, ops);
  }

  /**
   In every run, at every moment, the accesses to a bank since its last activate are at most one more than the
   configured number of accesses to a row, and at most one under the close-page policy.
  */
  lemma RowsAreLimited(c: Config, s: Sys, ops: seq<Op>, n: nat, r: nat, b: nat)
    requires c.Sensible() && Initial(c, s) && forall i :: 0 <= i < |ops| ==> ValidOp(c, ops[i])
    requires Run(c, s, ops).Ok? && r < c.ranks && b < c.banks && n <= |Run(c, s, ops).value.history.issued|
    ensures Hits(Run(c, s, ops).value.history.issued[..n], r, b) <= Limit(c)
  {
    hide Run, QueueShape, InitialQueue, Hits, BankCounts;
    ReachedLimited(c, s, ops);
  }
}
