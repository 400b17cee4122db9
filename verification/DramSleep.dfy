/**
 The distance of activates when ranks may sleep.  Waking sets the time of the next activate anew, so
 the distance holds if a bank that was activated cannot be idle, asleep and awake again too soon.
*/
module DramSleep {
  import opened Wrappers
  import opened DramTypes
  import opened DramBank
  import opened DramQueue
  import opened DramRank
  import opened DramSystem
  import opened DramSafety
  import opened DramTheorems
  import opened DramUnits
  import opened DramOrder
  import opened DramOrderTheorems
  import opened DramActivates

  /** From an activate to its first column command. */
  function FirstColumn(c: Config): int { Max(c.tRCD - c.AL, 1) }

  /** From the column command that blocks the row least to the time the row may close. */
  function ColumnToPre(c: Config): int { if c.ReadToPre() <= c.WriteToPre() then c.ReadToPre() else c.WriteToPre() }

  /** The shortest time from an activate to the time its row may close. */
  function OpenTime(c: Config): int {
    if c.openPage then Max(c.tRAS, FirstColumn(c) + ColumnToPre(c)) else FirstColumn(c) + ColumnToPre(c)
  }

  /** The shortest time from an activate to one after a sleep. */
  function ShortestRest(c: Config): int { OpenTime(c) + c.tRP + Max(c.tCKE, 1) + Max(c.tXP, 1) }

  function LongestGap(c: Config): nat { if c.banks == 1 then c.tRC else Max(c.tRC, c.tRRD) }

  predicate SleepsLongEnough(c: Config) { LongestGap(c) <= ShortestRest(c) }

  /** What is left of the distance once the time asleep and the time to wake are taken off. */
  function NeededRest(c: Config): int { LongestGap(c) - Max(c.tCKE, 1) - Max(c.tXP, 1) }

  /**
   Bank entry m knows that it was activated at cycle a.  The last countdown was at t, the power states
   are looked at next at u, and bare says that a column command waits for the open row.
  */
  predicate Rests(c: Config, m: Bank, a: int, t: int, u: int, bare: bool) {
    match m.mode
    case Idle => a + NeededRest(c) <= t
    case Refreshing => a + NeededRest(c) <= t
    case RowActive =>
      if m.countdown > 0 then t + m.countdown + c.tRP >= a + NeededRest(c)
      else
        && m.nextRead >= a + c.tRCD - c.AL && m.nextWrite >= a + c.tRCD - c.AL
        && (c.openPage ==>
             m.nextPrecharge >= a + c.tRAS && (bare || m.nextPrecharge >= a + FirstColumn(c) + ColumnToPre(c)))
    case Precharging => t + m.countdown >= a + NeededRest(c)
    case PowerDown => Max(m.nextPowerUp, u) >= a + NeededRest(c) + Max(c.tCKE, 1)
  }

  /** A column command that has lost its activate waits for bank b. */
  predicate HasBare(line: seq<Packet>, b: nat) { exists k :: 0 <= k < |line| && BareFor(line, k, b) }

  predicate BareFor(line: seq<Packet>, k: nat, b: nat)
    requires k < |line|
  {
    Bare(line, k) && line[k].bank == b
  }

  ghost predicate RankRests(c: Config, s: Sys, r: nat, t: int, u: int)
    requires c.Sensible() && Shape(c, s) && r < c.ranks
  {
    forall i :: 0 <= i < |s.history.issued| && IsActivate(s.history.issued[i], r) ==>
      EventRests(c, s, s.history.issued[i], r, t, u)
  }

  predicate EventRests(c: Config, s: Sys, e: Event, r: nat, t: int, u: int)
    requires c.Sensible() && Shape(c, s) && r < c.ranks
  {
    e.packet.bank < c.banks &&
    Rests(c, s.table[r][e.packet.bank], e.at, t, u, HasBare(Line(c, s.queue, r, e.packet.bank), e.packet.bank))
  }

  /** The last countdown was at t, the next command goes at next or later, and the power states come at u. */
  ghost predicate Restful(c: Config, s: Sys, t: int, next: int, u: int)
    requires c.Sensible() && Shape(c, s)
  {
    && Apart(c, s, next) && (forall i :: 0 <= i < |s.history.issued| ==> s.history.issued[i].at < next)
    && (c.lowPower ==> SleepsLongEnough(c) && forall r :: 0 <= r < c.ranks ==> RankRests(c, s, r, t, u))
  }

  // ---- one bank ----

  lemma TickRests(c: Config, m: Bank, v: Bank, a: int, t: int, u: int, bare: bool)
    requires c.Sensible() && BankRel(c, m, v, t) && Rests(c, m, a, t, u, bare)
    ensures Rests(c, Tick(c, m), a, t + 1, u, bare)
  {
  }

  predicate SettledBank(c: Config, m: Bank, now: nat) {
    && (m.mode.Idle? ==> m.countdown == 0)
    && (m.mode.Refreshing? ==> m.countdown > 0 && m.nextActivate >= now + m.countdown)
    && (m.mode.RowActive? && m.countdown > 0 ==> !c.openPage && m.nextRead > now && m.nextWrite > now)
  }

  /** A permitted command leaves an activated bank open, or closing, for long enough. */
  lemma IssueRests(c: Config, ms: seq<Bank>, i: nat, j: nat, p: Packet, a: int, now: nat, bare: bool, bare1: bool)
    requires c.Sensible() && SleepsLongEnough(c) && j < |ms| && (i == p.rank ==> Permitted(c, ms, p, now))
    requires SettledBank(c, ms[j], now) && Rests(c, ms[j], a, now, now, bare) && a < now
    requires p.kind.Refresh? && i == p.rank ==> a + NeededRest(c) <= now
    requires var here := i == p.rank && j == p.bank;
      && (c.openPage && bare && !(here && p.kind.IsColumn()) ==> bare1)
      && (c.openPage && here && p.kind.Activate? ==> bare1)
      && (here && p.kind.Precharge? ==> !bare)
    ensures Rests(c, Issue(c, ms[j], i, j, p, now), a, now, now, bare1)
  {
    var here := i == p.rank && j == p.bank;
    if i == p.rank && p.kind.Refresh? {
      assert RefreshableAt(ms[j], now);
    } else if here && p.kind.IsColumn() {
      ColumnRests(c, ms[j], p, a, now, bare, bare1);
    } else if here {
      RowRests(c, ms[j], p, a, now, bare, bare1);
    } else {
      OtherRests(c, ms[j], i, j, p, a, now, bare, bare1);
    }
  }

  lemma ColumnRests(c: Config, m: Bank, p: Packet, a: int, now: nat, bare: bool, bare1: bool)
    requires c.Sensible() && SleepsLongEnough(c) && p.kind.IsColumn() && PermittedAt(c, m, p, now)
    requires SettledBank(c, m, now) && Rests(c, m, a, now, now, bare) && a < now
    ensures Rests(c, Issue(c, m, p.rank, p.bank, p, now), a, now, now, bare1)
  {
    hide Issue;
    if p.kind.IsRead() {
      ReadMoves(c, m, p, now);
    } else {
      WriteMoves(c, m, p, now);
    }
  }

  lemma ReadMoves(c: Config, m: Bank, p: Packet, now: nat)
    requires c.Sensible() && p.kind.IsRead()
    ensures var m1 := Issue(c, m, p.rank, p.bank, p, now);
      && m1.mode == m.mode && c.ReadToPre() > 0
      && (p.kind.Read? ==>
           && m1.countdown == m.countdown && m1.nextPrecharge == Max(now + c.ReadToPre(), m.nextPrecharge)
           && m1.nextRead >= m.nextRead && m1.nextWrite >= m.nextWrite)
      && (p.kind.ReadP? ==> m1.countdown == c.ReadToPre())
  {
  }

  lemma WriteMoves(c: Config, m: Bank, p: Packet, now: nat)
    requires c.Sensible() && p.kind.IsWrite()
    ensures var m1 := Issue(c, m, p.rank, p.bank, p, now);
      && m1.mode == m.mode && c.WriteToPre() > 0
      && (p.kind.Write? ==>
           && m1.countdown == m.countdown && m1.nextPrecharge == Max(now + c.WriteToPre(), m.nextPrecharge)
           && m1.nextRead >= m.nextRead && m1.nextWrite >= m.nextWrite)
      && (p.kind.WriteP? ==> m1.countdown == c.WriteToPre())
  {
  }

  lemma RowRests(c: Config, m: Bank, p: Packet, a: int, now: nat, bare: bool, bare1: bool)
    requires c.Sensible() && SleepsLongEnough(c) && (p.kind.Activate? || p.kind.Precharge?) && PermittedAt(c, m, p, now)
    requires SettledBank(c, m, now) && Rests(c, m, a, now, now, bare) && a < now
    requires (c.openPage && p.kind.Activate? ==> bare1) && (p.kind.Precharge? ==> !bare)
    ensures Rests(c, Issue(c, m, p.rank, p.bank, p, now), a, now, now, bare1)
  {
  }

  lemma OtherRests(c: Config, m: Bank, i: nat, j: nat, p: Packet, a: int, now: nat, bare: bool, bare1: bool)
    requires c.Sensible() && !(i == p.rank && j == p.bank) && !(i == p.rank && p.kind.Refresh?)
    requires Rests(c, m, a, now, now, bare) && (c.openPage && bare ==> bare1)
    ensures Rests(c, Issue(c, m, i, j, p, now), a, now, now, bare1)
  {
  }

  /** The bank that is activated. */
  lemma ActivateRests(c: Config, ms: seq<Bank>, p: Packet, now: nat, bare1: bool)
    requires c.Sensible() && p.kind.Activate? && Permitted(c, ms, p, now) && SettledBank(c, ms[p.bank], now)
    requires c.openPage ==> bare1
    ensures p.bank < |ms| && Rests(c, Issue(c, ms[p.bank], p.rank, p.bank, p, now), now, now, now, bare1)
  {
  }

  // ---- lone column commands ----

  lemma CutKeepsBare(line: seq<Packet>, lo: nat, hi: nat, b: nat)
    requires Paired(line) && lo < hi <= |line| && (lo > 0 ==> !line[lo - 1].kind.Activate?)
    requires hi == lo + 1 || (hi == lo + 2 && line[lo].kind.Activate?)
    requires HasBare(line, b) && forall k :: lo <= k < hi ==> !BareFor(line, k, b)
    ensures HasBare(line[..lo] + line[hi..], b)
  {
    var cut := line[..lo] + line[hi..];
    var k :| 0 <= k < |line| && BareFor(line, k, b);
    var k1 := if k < lo then k else k - (hi - lo);
    assert cut[k1] == line[k];
    assert k1 > 0 ==> cut[k1 - 1] == if k1 - 1 < lo then line[k1 - 1] else line[k1 - 1 + hi - lo];
    assert BareFor(cut, k1, b);
  }

  lemma ActivateLeavesBare(line: seq<Packet>, i: nat)
    requires Paired(line) && i < |line| && line[i].kind.Activate?
    ensures i > 0 ==> !line[i - 1].kind.Activate?
    ensures HasBare(line[..i] + line[i + 1..], line[i].bank)
  {
    var cut := line[..i] + line[i + 1..];
    assert cut[i] == line[i + 1] && (i > 0 ==> cut[i - 1] == line[i - 1]);
    assert BareFor(cut, i, line[i].bank);
  }

  /** What a choice does to the lone column commands of bank b of rank r. */
  ghost predicate BareStep(c: Config, q: QueueState, q1: QueueState, p: Packet, r: nat, b: nat)
    requires c.Sensible() && QueueShape(c, q) && QueueShape(c, q1) && r < c.ranks && b < c.banks
  {
    var here := r == p.rank && b == p.bank;
    && (HasBare(Line(c, q, r, b), b) && !(here && p.kind.IsColumn()) ==> HasBare(Line(c, q1, r, b), b))
    && (here && p.kind.Activate? ==> HasBare(Line(c, q1, r, b), b))
    && (here && p.kind.Precharge? ==> !HasBare(Line(c, q, r, b), b))
  }

  /** Taking an activate leaves its column command bare, and every other one as it was. */
  lemma ActivateTaken(c: Config, line: seq<Packet>, i: nat, b: nat)
    requires c.openPage && Paired(line) && i < |line| && line[i].kind.Activate?
    ensures Without(line, i) == line[..i] + line[i + 1..] && !TakesActivate(c, line, i)
    ensures HasBare(line, b) || line[i].bank == b ==> HasBare(Without(line, i), b)
  {
    ActivateLeavesBare(line, i);
    hide HasBare, Paired;
    if HasBare(line, b) {
      CutKeepsBare(line, i, i + 1, b);
    }
  }

  /** Taking a column command of another bank, with its activate if that is there, keeps the bare ones of bank b. */
  lemma ColumnTaken(c: Config, line: seq<Packet>, i: nat, b: nat)
    requires c.openPage && Paired(line) && i < |line| && line[i].kind.IsColumn()
    requires HasBare(line, b) && line[i].bank != b
    ensures HasBare(if TakesActivate(c, line, i) then line[..i - 1] + line[i + 1..] else Without(line, i), b)
  {
    hide HasBare;
    if TakesActivate(c, line, i) {
      CutKeepsBare(line, i - 1, i + 1, b);
    } else {
      CutKeepsBare(line, i, i + 1, b);
    }
  }

  lemma TakenLineBare(c: Config, line: seq<Packet>, i: nat, b: nat)
    requires c.openPage && Paired(line) && i < |line| && (line[i].kind.Activate? || line[i].kind.IsColumn())
    ensures var line1 := if TakesActivate(c, line, i) then line[..i - 1] + line[i + 1..] else Without(line, i);
      && (HasBare(line, b) && !(line[i].bank == b && line[i].kind.IsColumn()) ==> HasBare(line1, b))
      && (line[i].bank == b && line[i].kind.Activate? ==> HasBare(line1, b))
  {
    hide HasBare, Paired, Without;
    if line[i].kind.Activate? {
      ActivateTaken(c, line, i, b);
    } else if HasBare(line, b) && line[i].bank != b {
      ColumnTaken(c, line, i, b);
    }
  }

  lemma TakenBare(c: Config, q: QueueState, t: Table, pick: Pick, now: nat, q1: QueueState, t1: Table, r: nat, b: nat)
    requires c.Sensible() && c.openPage && QueueShape(c, q) && TableShape(c, t) && Valid(c, q, pick)
    requires pick.FromQueue? && After(c, q, t, pick, now, q1, t1) && RankUnits(c, q, t, pick.rank)
    requires r < c.ranks && b < c.banks
    ensures BareStep(c, q, q1, Chosen(c, q, pick), r, b)
  {
    hide HasBare, Units;
    var i := pick.index;
    var line := Line(c, q, pick.rank, pick.bank);
    assert Belongs(c, line[i], pick.rank, Slot(c, pick.bank));
    assert LineOk(c, t[pick.rank], q.rowAccess[pick.rank], line);
    var line1 := if TakesActivate(c, line, i) then line[..i - 1] + line[i + 1..] else Without(line, i);
    assert q1.queues == Put(q.queues, pick.rank, Slot(c, pick.bank), line1);
    TakenLineBare(c, line, i, b);
    hide After, RankUnits, LineOk, LineShape, HasBare, TakesActivate, Without, Remove;
  }

  lemma LastTakenBare(c: Config, q: QueueState, t: Table, pick: Pick, now: nat, q1: QueueState, t1: Table, r: nat,
      b: nat)
    requires c.Sensible() && c.openPage && QueueShape(c, q) && TableShape(c, t) && Valid(c, q, pick)
    requires pick.LastColumn? && After(c, q, t, pick, now, q1, t1) && RankUnits(c, q, t, q.refreshRank)
    requires t[q.refreshRank][pick.bank].mode.RowActive? && pick == RefreshBank(c, q, t, pick.bank, now)
    requires r < c.ranks && b < c.banks
    ensures BareStep(c, q, q1, Chosen(c, q, pick), r, b)
  {
    var i := pick.index;
    var line := Line(c, q, q.refreshRank, pick.bank);
    var p := line[i];
    assert Belongs(c, p, q.refreshRank, Slot(c, pick.bank));
    assert LineOk(c, t[q.refreshRank], q.rowAccess[q.refreshRank], line);
    assert i == FirstToRow(line, pick.bank, t[q.refreshRank][pick.bank].openRow, 0) && p.kind.IsColumn();
    assert i > 0 ==> !line[i - 1].kind.Activate?;
    assert q1.queues == Put(q.queues, q.refreshRank, Slot(c, pick.bank), Without(line, i));
    if r == q.refreshRank && Slot(c, b) == Slot(c, pick.bank) {
      assert Line(c, q, r, b) == line && Line(c, q1, r, b) == Without(line, i);
      hide After, RankUnits, LineOk, QueueShape, RefreshBank;
      if HasBare(line, b) && p.bank != b {
        CutKeepsBare(line, i, i + 1, b);
      }
    }
  }

  lemma ClosedBare(c: Config, q: QueueState, t: Table, pick: Pick, now: nat, q1: QueueState, t1: Table, r: nat, b: nat)
    requires c.Sensible() && c.openPage && QueueShape(c, q) && TableShape(c, t) && Valid(c, q, pick)
    requires After(c, q, t, pick, now, q1, t1) && Units(c, q, t) && r < c.ranks && b < c.banks
    requires pick.CloseForRefresh? || pick.CloseRow?
    requires var p := Chosen(c, q, pick);
      p.rank < c.ranks && p.bank < c.banks &&
      var line := Line(c, q, p.rank, p.bank); var j := FirstToRow(line, p.bank, t[p.rank][p.bank].openRow, 0);
      j == |line| || line[j].kind.Activate? || q.rowAccess[p.rank][p.bank] == c.totalRowAccesses
    ensures BareStep(c, q, q1, Chosen(c, q, pick), r, b)
  {
    assert q1.queues == q.queues && Line(c, q1, r, b) == Line(c, q, r, b);
    var p := Chosen(c, q, pick);
    if r == p.rank && b == p.bank && HasBare(Line(c, q, r, b), b) {
      assert RankUnits(c, q, t, r) && LineOk(c, t[r], q.rowAccess[r], Line(c, q, r, b));
      var k :| 0 <= k < |Line(c, q, r, b)| && BareFor(Line(c, q, r, b), k, b);
      NotStranded(c, t[r], q.rowAccess[r], Line(c, q, r, b), k, b);
      assert false;
    }
  }

  lemma ChosenBare(c: Config, q: QueueState, t: Table, pick: Pick, now: nat, q1: QueueState, t1: Table, r: nat, b: nat)
    requires c.Sensible() && c.openPage && QueueShape(c, q) && TableShape(c, t) && Valid(c, q, pick)
    requires After(c, q, t, pick, now, q1, t1) && Units(c, q, t) && r < c.ranks && b < c.banks
    requires pick == Choose(c, q, t, now) && !pick.Nothing?
    ensures BareStep(c, q, q1, Chosen(c, q, pick), r, b)
  {
    match pick
    case FromQueue(pr, pb, i) =>
      assert RankUnits(c, q, t, pr);
      hide After, Units, RankUnits, QueueShape, Choose, BareStep;
      TakenBare(c, q, t, pick, now, q1, t1, r, b);
    case LastColumn(pb, i) =>
      assert RankUnits(c, q, t, q.refreshRank);
      hide After, Units, RankUnits, QueueShape, BareStep;
      LastTakenBare(c, q, t, pick, now, q1, t1, r, b);
    case CloseForRefresh(pb) =>
      hide After, Units, BareStep;
      ClosedBare(c, q, t, pick, now, q1, t1, r, b);
    case CloseRow(pr, pb) =>
      hide After, Units, BareStep;
      ClosedBare(c, q, t, pick, now, q1, t1, r, b);
    case SendRefresh =>
      assert q1.queues == q.queues && Line(c, q1, r, b) == Line(c, q, r, b);
  }

  // ---- the phases ----

  /** Lone column commands stay where they are. */
  ghost predicate BaresKept(c: Config, s: Sys, s1: Sys)
    requires c.Sensible() && Shape(c, s) && Shape(c, s1)
  {
    forall r, b :: 0 <= r < c.ranks && 0 <= b < c.banks && HasBare(Line(c, s.queue, r, b), b) ==>
      HasBare(Line(c, s1.queue, r, b), b)
  }

  lemma SameQueues(c: Config, s: Sys, s1: Sys)
    requires c.Sensible() && Shape(c, s) && Shape(c, s1) && s1.queue.queues == s.queue.queues
    ensures BaresKept(c, s, s1)
  {
    hide HasBare, LineShape;
  }

  lemma SameRestful(c: Config, s: Sys, s1: Sys, t: int, next: int, u: int)
    requires c.Sensible() && Shape(c, s) && Shape(c, s1) && s1.history.issued == s.history.issued
    requires s1.table == s.table && BaresKept(c, s, s1) && Restful(c, s, t, next, u)
    ensures Restful(c, s1, t, next, u)
  {
    hide QueueShape, Distant, Rests, HasBare;
    forall r, b | 0 <= r < c.ranks && 0 <= b < c.banks ensures Remembered(c, s1, r, b, next) {
      assert Remembered(c, s, r, b, next);
    }
    if c.lowPower {
      forall r | 0 <= r < c.ranks ensures RankRests(c, s1, r, t, u) {
        assert RankRests(c, s, r, t, u);
        SameRankRests(c, s, s1, r, t, u);
      }
    }
  }

  lemma SameRankRests(c: Config, s: Sys, s1: Sys, r: nat, t: int, u: int)
    requires c.Sensible() && Shape(c, s) && Shape(c, s1) && r < c.ranks && s1.history.issued == s.history.issued
    requires s1.table == s.table && BaresKept(c, s, s1) && RankRests(c, s, r, t, u)
    ensures RankRests(c, s1, r, t, u)
  {
    hide QueueShape, HasBare;
    forall i | 0 <= i < |s1.history.issued| && IsActivate(s1.history.issued[i], r)
      ensures EventRests(c, s1, s1.history.issued[i], r, t, u)
    {
      assert EventRests(c, s, s.history.issued[i], r, t, u);
    }
  }

  lemma TickedRestful(c: Config, s: Sys, s1: Sys)
    requires c.Sensible() && Shape(c, s) && Shape(c, s1) && Safe(c, s) && Restful(c, s, s.now - 1, s.now, s.now)
    requires s1.table == TickTable(c, s.table) && s1.history.issued == s.history.issued && BaresKept(c, s, s1)
    ensures Restful(c, s1, s.now, s.now, s.now)
  {
    hide QueueShape, Rests, BusLegal, AllSleepAgrees, HasBare, BaresKept, EventRests;
    var now: int := s.now;
    forall r, b | 0 <= r < c.ranks && 0 <= b < c.banks ensures Remembered(c, s1, r, b, now) {
      assert Remembered(c, s, r, b, now) && BankRel(c, s.table[r][b], View(c, s, r, now)[b], now - 1);
      TickKeepsBank(c, s.table[r][b], View(c, s, r, now)[b], now - 1);
    }
    if c.lowPower {
      forall r | 0 <= r < c.ranks ensures RankRests(c, s1, r, now, now) {
        assert RankRests(c, s, r, now - 1, now);
        hide BankRel;
        TickedRank(c, s, s1, r);
      }
    }
  }

  lemma TickedRank(c: Config, s: Sys, s1: Sys, r: nat)
    requires c.Sensible() && Shape(c, s) && Shape(c, s1) && Related(c, s, s.now, s.now - 1) && r < c.ranks
    requires s1.table == TickTable(c, s.table) && s1.history.issued == s.history.issued && BaresKept(c, s, s1)
    requires RankRests(c, s, r, s.now - 1, s.now)
    ensures RankRests(c, s1, r, s.now, s.now)
  {
    hide QueueShape, Rests, BankRel, Tick, HasBare;
    forall i | 0 <= i < |s1.history.issued| && IsActivate(s1.history.issued[i], r)
      ensures EventRests(c, s1, s1.history.issued[i], r, s.now, s.now)
    {
      var e := s.history.issued[i];
      assert EventRests(c, s, e, r, s.now - 1, s.now);
      var b := e.packet.bank;
      assert BankRel(c, s.table[r][b], View(c, s, r, s.now)[b], s.now - 1);
      var bare, bare1 := HasBare(Line(c, s.queue, r, b), b), HasBare(Line(c, s1.queue, r, b), b);
      TickRests(c, s.table[r][b], View(c, s, r, s.now)[b], e.at, s.now - 1, s.now, bare);
      BareRests(c, s1.table[r][b], e.at, s.now, s.now, bare, bare1);
    }
  }

  lemma BareRests(c: Config, m: Bank, a: int, t: int, u: int, bare: bool, bare1: bool)
    requires Rests(c, m, a, t, u, bare) && (bare ==> bare1)
    ensures Rests(c, m, a, t, u, bare1)
  {
  }

  /** A refresh waits until every activate of its rank is long past. */
  lemma RefreshedLate(c: Config, s: Sys, r: nat, e: Event)
    requires c.Sensible() && Shape(c, s) && Apart(c, s, s.now) && r < c.ranks && e in s.history.issued
    requires IsActivate(e, r) && e.packet.bank < c.banks
    requires forall j :: 0 <= j < c.banks ==> RefreshableAt(s.table[r][j], s.now)
    ensures e.at + NeededRest(c) <= s.now
  {
    hide QueueShape, Distant;
    var b := e.packet.bank;
    assert Remembered(c, s, r, b, s.now) && RefreshableAt(s.table[r][b], s.now);
    if c.banks > 1 {
      var other := if b == 0 then 1 else 0;
      assert Remembered(c, s, r, other, s.now) && RefreshableAt(s.table[r][other], s.now);
    }
  }

  lemma IssuedRank(c: Config, s: Sys, s1: Sys, p: Packet, r: nat)
    requires c.Sensible() && SleepsLongEnough(c) && Shape(c, s) && Shape(c, s1) && r < c.ranks
    requires p.rank < c.ranks && p.bank < c.banks && Permitted(c, s.table[p.rank], p, s.now)
    requires Settled(c, s.table, s.now) && Apart(c, s, s.now) && RankRests(c, s, r, s.now, s.now)
    requires forall i :: 0 <= i < |s.history.issued| ==> s.history.issued[i].at < s.now
    requires c.openPage ==> forall b :: 0 <= b < c.banks ==> BareStep(c, s.queue, s1.queue, p, r, b)
    requires s1.history.issued == s.history.issued + [Event(p, s.now)] && s1.table == IssueTable(c, s.table, p, s.now)
    ensures RankRests(c, s1, r, s.now, s.now)
  {
    var issued, issued1 := s.history.issued, s1.history.issued;
    forall i | 0 <= i < |issued1| && IsActivate(issued1[i], r) ensures EventRests(c, s1, issued1[i], r, s.now, s.now) {
      hide QueueShape, Rests, Issue, Apart, SleepsLongEnough, HasBare;
      if i < |issued| {
        assert issued1[i] == issued[i] && EventRests(c, s, issued[i], r, s.now, s.now);
        if p.kind.Refresh? && p.rank == r {
          RefreshedLate(c, s, r, issued[i]);
        }
        IssuedEvent(c, s, s1, p, r, issued[i]);
      } else {
        NewEvent(c, s, s1, p);
      }
    }
  }

  lemma IssuedEvent(c: Config, s: Sys, s1: Sys, p: Packet, r: nat, e: Event)
    requires c.Sensible() && SleepsLongEnough(c) && Shape(c, s) && Shape(c, s1) && r < c.ranks
    requires p.rank < c.ranks && p.bank < c.banks && Permitted(c, s.table[p.rank], p, s.now)
    requires Settled(c, s.table, s.now) && EventRests(c, s, e, r, s.now, s.now) && e.at < s.now
    requires p.kind.Refresh? && p.rank == r ==> e.at + NeededRest(c) <= s.now
    requires c.openPage ==> BareStep(c, s.queue, s1.queue, p, r, e.packet.bank)
    requires s1.table == IssueTable(c, s.table, p, s.now)
    ensures EventRests(c, s1, e, r, s.now, s.now)
  {
    var b := e.packet.bank;
    hide QueueShape, Rests, Issue, SleepsLongEnough, HasBare;
    assert SettledBank(c, s.table[r][b], s.now);
    PrechargeInOpenPage(c, s.table[p.rank], p, s.now);
    hide Permitted, Settled;
    IssueRests(c, s.table[r], r, b, p, e.at, s.now,
      HasBare(Line(c, s.queue, r, b), b), HasBare(Line(c, s1.queue, r, b), b));
    assert s1.table[r][b] == Issue(c, s.table[r][b], r, b, p, s.now);
  }

  lemma PrechargeInOpenPage(c: Config, ms: seq<Bank>, p: Packet, now: nat)
    requires Permitted(c, ms, p, now)
    ensures p.kind.Precharge? ==> c.openPage
  {
  }

  lemma NewEvent(c: Config, s: Sys, s1: Sys, p: Packet)
    requires c.Sensible() && Shape(c, s) && Shape(c, s1) && p.kind.Activate?
    requires p.rank < c.ranks && p.bank < c.banks && Permitted(c, s.table[p.rank], p, s.now)
    requires Settled(c, s.table, s.now)
    requires c.openPage ==> BareStep(c, s.queue, s1.queue, p, p.rank, p.bank)
    requires s1.table == IssueTable(c, s.table, p, s.now)
    ensures EventRests(c, s1, Event(p, s.now), p.rank, s.now, s.now)
  {
    hide QueueShape, Rests, Issue, HasBare;
    assert SettledBank(c, s.table[p.rank][p.bank], s.now);
    hide Permitted, Settled;
    ActivateRests(c, s.table[p.rank], p, s.now, HasBare(Line(c, s1.queue, p.rank, p.bank), p.bank));
    assert s1.table[p.rank][p.bank] == Issue(c, s.table[p.rank][p.bank], p.rank, p.bank, p, s.now);
  }

  /** What pop leaves in the queues. */
  lemma PoppedBare(c: Config, s: Sys, r: nat, b: nat)
    requires c.Sensible() && c.openPage && Shape(c, s) && Units(c, s.queue, s.table) && IssueNext(c, s).Ok?
    requires Pop(c, s.queue, s.table, s.now).1.Some? && r < c.ranks && b < c.banks
    ensures BareStep(c, s.queue, IssueNext(c, s).value.queue, Pop(c, s.queue, s.table, s.now).1.value, r, b)
  {
    hide Units, Choose, Remove, HasBare, LineShape, IssueTable;
    var q0 := s.queue.(faw := AgeAll(s.queue.faw));
    AgedShape(c, s.queue);
    AgedUnits(c, s.queue, s.table);
    IssuedAfter(c, s);
    var pick := Choose(c, q0, s.table, s.now);
    ChosenBare(c, q0, s.table, pick, s.now, IssueNext(c, s).value.queue, IssueNext(c, s).value.table, r, b);
    assert Line(c, q0, r, b) == Line(c, s.queue, r, b);
  }

  lemma NothingPopped(c: Config, s: Sys)
    requires c.Sensible() && Shape(c, s) && IssueNext(c, s).Ok? && Pop(c, s.queue, s.table, s.now).1.None?
    ensures var s1 := IssueNext(c, s).value;
      s1.queue.queues == s.queue.queues && s1.table == s.table && s1.history == s.history
  {
    hide Choose, Remove, LineShape, Finish;
  }

  lemma IssueNextRestful(c: Config, s: Sys)
    requires c.Sensible() && Shape(c, s) && GoodInside(c, s) && Units(c, s.queue, s.table)
    requires Restful(c, s, s.now, s.now, s.now) && IssueNext(c, s).Ok?
    ensures Restful(c, IssueNext(c, s).value, s.now, s.now + 1, s.now)
  {
    hide QueueShape, Related, AllSleepAgrees, Apart, RankRests, Pop, IssueTable, Permitted, Units;
    IssueNextApart(c, s);
    var s1 := IssueNext(c, s).value;
    var popped := Pop(c, s.queue, s.table, s.now).1;
    if c.lowPower {
      if popped.Some? {
        SettledOf(c, s);
        WholeRanksOf(c, s);
        PoppedIsPermitted(c, s.queue, s.table, s.now);
        var now: int := s.now;
        forall r | 0 <= r < c.ranks ensures RankRests(c, s1, r, now, now) {
          forall b | 0 <= b < c.banks && c.openPage ensures BareStep(c, s.queue, s1.queue, popped.value, r, b) {
            PoppedBare(c, s, r, b);
          }
          hide BareStep, IssueNext;
          IssuedRank(c, s, s1, popped.value, r);
        }
      } else {
        NothingPopped(c, s);
        SameQueues(c, s, s1);
        var now: int := s.now;
        forall r | 0 <= r < c.ranks ensures RankRests(c, s1, r, now, now) {
          SameRankRests(c, s, s1, r, now, now);
        }
      }
    }
  }

  /** Queueing two commands leaves the ones before them alone. */
  lemma ScheduleBares(c: Config, s: Sys)
    requires c.Sensible() && Shape(c, s) && Schedule(c, s).Ok?
    ensures BaresKept(c, s, Schedule(c, s).value)
  {
    var s1 := Schedule(c, s).value;
    forall r, b | 0 <= r < c.ranks && 0 <= b < c.banks && HasBare(Line(c, s.queue, r, b), b)
      ensures HasBare(Line(c, s1.queue, r, b), b)
    {
      var line, line1 := Line(c, s.queue, r, b), Line(c, s1.queue, r, b);
      ScheduledLine(c, s, Key(r, b, Some(0)));
      hide Schedule, QueueShape;
      var k :| 0 <= k < |line| && BareFor(line, k, b);
      assert line1[k] == line[k] && (k > 0 ==> line1[k - 1] == line[k - 1]);
      assert BareFor(line1, k, b);
    }
  }

  // ---- power states ----

  /** What looking at rank i does to its banks. */
  ghost predicate PowerChange(c: Config, s: Sys, s1: Sys, i: nat)
    requires Shape(c, s) && Shape(c, s1) && i < c.ranks
  {
    || s1.table[i] == s.table[i]
    || (forall b :: 0 <= b < c.banks ==>
          s.table[i][b].mode.Idle? && s1.table[i][b] == EnterPowerDown(c, s.table[i][b], s.now))
    || (forall b :: 0 <= b < c.banks ==>
          && s.table[i][b].mode.PowerDown? && s.now >= s.table[i][b].nextPowerUp
          && s1.table[i][b] == LeavePowerDown(c, s.table[i][b], s.now))
  }

  ghost predicate PowerStep(c: Config, s: Sys, s1: Sys, i: nat)
    requires Shape(c, s) && Shape(c, s1) && i < c.ranks
  {
    && s1.history == s.history && s1.queue == s.queue && s1.now == s.now
    && (forall r :: 0 <= r < c.ranks && r != i ==> s1.table[r] == s.table[r]) && PowerChange(c, s, s1, i)
  }

  lemma PowerRankSteps(c: Config, s: Sys, i: nat)
    requires c.Sensible() && Shape(c, s) && i < c.ranks && PowerRank(c, s, i).Ok? && SleepAgrees(c, s, i)
    ensures PowerStep(c, s, PowerRank(c, s, i).value, i)
  {
    hide QueueShape, Empty, Wake, Sleep;
  }

  /** Waking sets the next activate anew, and that is late enough. */
  lemma PowerRemembered(c: Config, s: Sys, s1: Sys, i: nat, r: nat, b: nat)
    requires c.Sensible() && Shape(c, s) && Shape(c, s1) && i < c.ranks && r < c.ranks && b < c.banks
    requires PowerStep(c, s, s1, i) && Remembered(c, s, r, b, s.now + 1)
    requires r == i ==> RankRests(c, s, r, s.now, s.now)
    ensures Remembered(c, s1, r, b, s.now + 1)
  {
    hide QueueShape, HasBare;
    forall k | 0 <= k < |s1.history.issued| && IsActivate(s1.history.issued[k], r)
      ensures Max(s1.table[r][b].nextActivate, s.now + 1) >=
        s1.history.issued[k].at + ActivateGap(c, s1.history.issued[k].packet.bank == b)
    {
      if r == i {
        assert EventRests(c, s, s.history.issued[k], r, s.now, s.now);
      }
    }
  }

  /** Sleep begins after every bank has rested; the next look at the power states is a cycle later. */
  lemma PowerRests(c: Config, s: Sys, s1: Sys, i: nat)
    requires c.Sensible() && Shape(c, s) && Shape(c, s1) && i < c.ranks && PowerStep(c, s, s1, i)
    requires RankRests(c, s, i, s.now, s.now)
    ensures RankRests(c, s1, i, s.now, s.now + 1)
  {
    hide QueueShape, HasBare;
    forall k | 0 <= k < |s1.history.issued| && IsActivate(s1.history.issued[k], i)
      ensures EventRests(c, s1, s1.history.issued[k], i, s.now, s.now + 1)
    {
      assert EventRests(c, s, s.history.issued[k], i, s.now, s.now);
    }
  }

  lemma UntouchedRests(c: Config, s: Sys, s1: Sys, i: nat, r: nat, u: int)
    requires c.Sensible() && Shape(c, s) && Shape(c, s1) && i < c.ranks && r < c.ranks && r != i
    requires PowerStep(c, s, s1, i) && RankRests(c, s, r, s.now, u)
    ensures RankRests(c, s1, r, s.now, u)
  {
    hide QueueShape, HasBare;
    forall k | 0 <= k < |s1.history.issued| && IsActivate(s1.history.issued[k], r)
      ensures EventRests(c, s1, s1.history.issued[k], r, s.now, u)
    {
      assert EventRests(c, s, s.history.issued[k], r, s.now, u);
    }
  }

  /** The cycle in which rank r is looked at next when rank i comes next. */
  function NextLook(now: int, r: nat, i: nat): int { if r < i then now + 1 else now }

  ghost predicate RankLooked(c: Config, s: Sys, r: nat, i: nat)
    requires c.Sensible() && Shape(c, s) && r < c.ranks
  {
    RankRests(c, s, r, s.now, NextLook(s.now, r, i))
  }

  /** The ranks before rank i have been looked at. */
  ghost predicate HalfRestful(c: Config, s: Sys, i: nat)
    requires c.Sensible() && Shape(c, s)
  {
    && Apart(c, s, s.now + 1) && SleepsLongEnough(c)
    && (forall k :: 0 <= k < |s.history.issued| ==> s.history.issued[k].at <= s.now)
    && forall r :: 0 <= r < c.ranks ==> RankLooked(c, s, r, i)
  }

  lemma PowerRankRestful(c: Config, s: Sys, i: nat)
    requires c.Sensible() && Shape(c, s) && i < c.ranks && PowerRank(c, s, i).Ok? && SleepAgrees(c, s, i)
    requires HalfRestful(c, s, i)
    ensures HalfRestful(c, PowerRank(c, s, i).value, i + 1)
  {
    var s1 := PowerRank(c, s, i).value;
    PowerRankSteps(c, s, i);
    hide QueueShape, Distant, PowerRank, SleepAgrees, Remembered, RankRests, SleepsLongEnough, PowerChange;
    var next := s.now + 1;
    assert RankLooked(c, s, i, i);
    forall r, b | 0 <= r < c.ranks && 0 <= b < c.banks ensures Remembered(c, s1, r, b, next) {
      assert Remembered(c, s, r, b, next);
      PowerRemembered(c, s, s1, i, r, b);
    }
    var i1: nat := i + 1;
    forall r | 0 <= r < c.ranks ensures RankLooked(c, s1, r, i1) {
      assert RankLooked(c, s, r, i);
      if r == i {
        PowerRests(c, s, s1, i);
      } else {
        UntouchedRests(c, s, s1, i, r, NextLook(s.now, r, i));
      }
    }
  }

  lemma {:induction false} PowerRanksRestful(c: Config, s: Sys, i: nat)
    requires c.Sensible() && Shape(c, s) && i <= c.ranks && c.lowPower && HalfRestful(c, s, i)
    requires Related(c, s, s.now + 1, s.now) && BusLegal(c, s, s.now + 1) && AllSleepAgrees(c, s) && BusBusy(c, s)
    ensures PowerRanks(c, s, i).Ok? && HalfRestful(c, PowerRanks(c, s, i).value, c.ranks)
    ensures PowerRanks(c, s, i).value.now == s.now
    decreases c.ranks - i
  {
    hide Shape, Related, BusLegal, BusBusy, HalfRestful, PowerRank, SleepAgrees;
    if i < c.ranks {
      PowerRankSafe(c, s, i);
      PowerRankRestful(c, s, i);
      PowerRanksRestful(c, PowerRank(c, s, i).value, i + 1);
    }
  }

  // ---- steps and runs ----

  lemma ArriveTable(c: Config, s: Sys)
    requires c.Sensible() && Shape(c, s) && Arrive(c, s).Ok?
    ensures var s1 := Arrive(c, s).value;
      s1.table == TickTable(c, s.table) && s1.history.issued == s.history.issued && s1.now == s.now &&
      s1.queue.queues == s.queue.queues
  {
    hide QueueShape, AdvanceRanks;
    AdvanceRanksOrder(c, s, 0);
  }

  lemma CloseRestful(c: Config, s: Sys)
    requires c.Sensible() && Shape(c, s) && GoodIssued(c, s) && Close(c, s).Ok?
    requires Restful(c, s, s.now, s.now + 1, s.now)
    ensures Restful(c, Close(c, s).value, s.now, s.now + 1, s.now + 1)
  {
    hide Shape, Related, BusLegal, BusBusy, AllSleepAgrees, Apart, RankRests, SleepsLongEnough, PowerRanks, Close;
    ClosedSame(c, s);
    var s1, s2 := PowerRanks(c, s, 0).value, Close(c, s).value;
    if c.lowPower {
      forall r | 0 <= r < c.ranks ensures RankLooked(c, s, r, 0) {
      }
      PowerRanksRestful(c, s, 0);
      LookedRestful(c, s1);
    } else {
      AwakeRanks(c, s);
    }
    SameQueues(c, s1, s2);
    SameRestful(c, s1, s2, s.now, s.now + 1, s.now + 1);
  }

  lemma AwakeRanks(c: Config, s: Sys)
    requires c.Sensible() && Shape(c, s) && !c.lowPower
    ensures PowerRanks(c, s, 0) == Ok(s)
  {
  }

  lemma LookedRestful(c: Config, s: Sys)
    requires c.Sensible() && Shape(c, s) && c.lowPower && HalfRestful(c, s, c.ranks)
    ensures Restful(c, s, s.now, s.now + 1, s.now + 1)
  {
    hide Shape, Apart, RankRests, SleepsLongEnough;
    var now: int := s.now;
    var next := now + 1;
    forall r | 0 <= r < c.ranks ensures RankRests(c, s, r, now, next) {
      assert RankLooked(c, s, r, c.ranks);
    }
  }

  /** Waiting transactions, the buses and the refresh timer leave the queued commands as they are. */
  lemma FirstHalfRestful(c: Config, s: Sys, s3: Sys)
    requires c.Sensible() && Shape(c, s) && Good(c, s) && Orderly(c, s, s.now - 1)
    requires Restful(c, s, s.now - 1, s.now, s.now) && Arrive(c, s).Ok? && MoveBuses(c, Arrive(c, s).value).Ok?
    requires s3 == RefreshTimer(c, MoveBuses(c, Arrive(c, s).value).value)
    ensures s3.now == s.now && Units(c, s3.queue, s3.table) && Restful(c, s3, s.now, s.now, s.now)
  {
    hide Shape, Good, GoodInside, Restful, Arrive, MoveBuses, RefreshTimer, Safe, Units, InOrder, Windows, BaresKept;
    SafeOf(c, s);
    var s1 := Arrive(c, s).value;
    var s2 := MoveBuses(c, s1).value;
    ArriveTable(c, s);
    ArriveOrderly(c, s, s.now - 1);
    MoveBusesOrder(c, s1);
    SameOrderly(c, s1, s2, s.now - 1);
    RefreshTimerOrder(c, s2);
    SameOrderly(c, s2, s3, s.now - 1);
    SameQueues(c, s, s3);
    TickedRestful(c, s, s3);
  }

  lemma StepRestful(c: Config, s: Sys)
    requires c.Sensible() && Shape(c, s) && Good(c, s) && Orderly(c, s, s.now - 1) && Step(c, s).Ok?
    requires Restful(c, s, s.now - 1, s.now, s.now)
    ensures Step(c, s).value.now == s.now + 1 && Restful(c, Step(c, s).value, s.now, s.now + 1, s.now + 1)
  {
    hide Shape, Good, GoodInside, GoodIssued, Restful, Arrive, MoveBuses, IssueNext, Schedule, Close, RefreshTimer,
      Orderly, Units, BaresKept;
    FirstHalfGood(c, s);
    var s2 := MoveBuses(c, Arrive(c, s).value).value;
    var s3 := RefreshTimer(c, s2);
    var s4 := IssueNext(c, s3).value;
    var s5 := Schedule(c, s4).value;
    FirstHalfRestful(c, s, s3);
    RefreshTimerGood(c, s2);
    IssueNextRestful(c, s3);
    IssueNextGood(c, s3);
    ScheduleKeeps(c, s4);
    ScheduleBares(c, s4);
    ScheduleGood(c, s4);
    SameRestful(c, s4, s5, s.now, s.now + 1, s.now);
    CloseRestful(c, s5);
    CloseNow(c, s5);
  }

  /** Between two calls of update. */
  ghost predicate Waiting(c: Config, s: Sys)
    requires c.Sensible() && Shape(c, s)
  {
    Good(c, s) && Orderly(c, s, s.now - 1) && Restful(c, s, s.now - 1, s.now, s.now)
  }

  lemma OfferRestful(c: Config, s: Sys, tr: Transaction)
    requires c.Sensible() && Shape(c, s) && Restful(c, s, s.now - 1, s.now, s.now) && Placed(c, tr)
    ensures var s1 := Offer(c, s, tr); s1.now == s.now && Restful(c, s1, s.now - 1, s.now, s.now)
    ensures var s1 := Submit(c, s, tr); s1.now == s.now && Restful(c, s1, s.now - 1, s.now, s.now)
  {
    hide Restful, QueueShape, BaresKept;
    SameQueues(c, s, Offer(c, s, tr));
    SameRestful(c, s, Offer(c, s, tr), s.now - 1, s.now, s.now);
    SameQueues(c, s, Submit(c, s, tr));
    SameRestful(c, s, Submit(c, s, tr), s.now - 1, s.now, s.now);
  }

  lemma {:induction false} RunRestful(c: Config, s: Sys, ops: seq<Op>)
    requires c.Sensible() && Shape(c, s) && Waiting(c, s)
    requires forall i :: 0 <= i < |ops| ==> ValidOp(c, ops[i])
    requires Run(c, s, ops).Ok?
    ensures Waiting(c, Run(c, s, ops).value)
    decreases |ops|
  {
    hide Shape, Good, Step, Orderly, Restful, Submit, Offer;
    if ops != [] {
      match ops[0] {
        case Request(t) =>
          OfferGood(c, s, t);
          SubmitOrderly(c, s, t);
          OfferRestful(c, s, t);
        case Direct(t) =>
          OfferGood(c, s, t);
          SubmitOrderly(c, s, t);
          OfferRestful(c, s, t);
        case Cycle =>
          StepGood(c, s);
          StepOrderly(c, s);
          StepRestful(c, s);
      }
      RunRestful(c, Do(c, s, ops[0]).value, ops[1..]);
    }
  }

  /**
   In every run activates to one rank keep the row cycle time and the activate-to-activate time, if ranks
   never sleep or the shortest sleep after an activate ends late enough.
  */
  lemma ActivatesKeepDistance(c: Config, s: Sys, ops: seq<Op>)
    requires c.Sensible() && (!c.lowPower || SleepsLongEnough(c)) && Initial(c, s)
    requires forall i :: 0 <= i < |ops| ==> ValidOp(c, ops[i])
    requires Run(c, s, ops).Ok?
    ensures Distant(c, Run(c, s, ops).value.history.issued)
  {
    hide Run, Good, Orderly, QueueShape, InitialQueue, Distant, RankRests, SleepsLongEnough;
    InitialGood(c, s);
    InitialOrderly(c, s);
    InitialRestful(c, s);
    RunRestful(c, s, ops);
  }

  lemma InitialRestful(c: Config, s: Sys)
    requires c.Sensible() && (!c.lowPower || SleepsLongEnough(c)) && Initial(c, s)
    ensures Restful(c, s, -1, 0, 0)
  {
  }
}
