/**
 The shape of the command queues.  A queue is a row of units: an activate with the column command it
 was made for, or a bare column command whose activate has been issued.  A bare column command always
 finds its row open, so closing rows and refreshing never strand it.
*/
module DramUnits {
  import opened Wrappers
  import opened DramTypes
  import opened DramBank
  import opened DramQueue
  import opened DramRank
  import opened DramSystem
  import opened DramSafety

  /** Every activate is followed by the column command of the same transaction. */
  predicate Paired(line: seq<Packet>) {
    forall i :: 0 <= i < |line| && line[i].kind.Activate? ==>
      i + 1 < |line| && line[i + 1].kind.IsColumn() && line[i + 1].(kind := Activate) == line[i]
  }

  /** Entry i is a column command that has lost its activate. */
  predicate Bare(line: seq<Packet>, i: nat)
    requires i < |line|
  {
    line[i].kind.IsColumn() && !(i > 0 && line[i - 1].kind.Activate?)
  }

  /** The row is open and not about to close by itself. */
  predicate Open(m: Bank, row: nat) { m.mode.RowActive? && m.countdown == 0 && m.openRow == row }

  /** Entry i is the first one to its row; under the close-page policy even the first one to its bank. */
  predicate Foremost(c: Config, line: seq<Packet>, i: nat)
    requires i < |line|
  {
    forall j :: 0 <= j < i ==> !(line[j].bank == line[i].bank && (line[j].row == line[i].row || !c.openPage))
  }

  /** What holds of a bare column command. */
  predicate BareFine(c: Config, ms: seq<Bank>, accesses: seq<nat>, line: seq<Packet>, i: nat)
    requires i < |line|
  {
    && line[i].bank < |ms| && line[i].bank < |accesses|
    && Open(ms[line[i].bank], line[i].row) && Foremost(c, line, i)
    && (c.openPage ==> accesses[line[i].bank] == 0)
  }

  ghost predicate LineOk(c: Config, ms: seq<Bank>, accesses: seq<nat>, line: seq<Packet>) {
    Paired(line) && forall i :: 0 <= i < |line| && Bare(line, i) ==> BareFine(c, ms, accesses, line, i)
  }

  ghost predicate RankUnits(c: Config, q: QueueState, t: Table, r: nat)
    requires c.Sensible() && QueueShape(c, q) && TableShape(c, t) && r < c.ranks
  {
    && (forall b :: 0 <= b < c.banks ==> LineOk(c, t[r], q.rowAccess[r], Line(c, q, r, b)))
    && (c.openPage ==> forall b :: 0 <= b < c.banks && !t[r][b].mode.RowActive? ==> q.rowAccess[r][b] == 0)
  }

  /** The invariant of the command queues, together with the controller's tables. */
  ghost predicate Units(c: Config, q: QueueState, t: Table)
    requires c.Sensible() && QueueShape(c, q) && TableShape(c, t)
  {
    forall r :: 0 <= r < c.ranks ==> RankUnits(c, q, t, r)
  }

  // ---- cutting entries out of a line ----

  /** Cutting out a bare column command, an activate, or an activate with its column command. */
  lemma CutPaired(line: seq<Packet>, lo: nat, hi: nat)
    requires Paired(line) && lo < hi <= |line| && (lo > 0 ==> !line[lo - 1].kind.Activate?)
    requires hi == lo + 1 || (hi == lo + 2 && line[lo].kind.Activate?)
    ensures Paired(line[..lo] + line[hi..])
    ensures var cut := line[..lo] + line[hi..]; forall k :: 0 <= k < |cut| && Bare(cut, k) ==>
      if k < lo then Bare(line, k) else Bare(line, k + hi - lo) || (k == lo && hi == lo + 1 && line[lo].kind.Activate?)
  {
    var cut := line[..lo] + line[hi..];
    forall k | 0 <= k < |cut| && cut[k].kind.Activate?
      ensures k + 1 < |cut| && cut[k + 1].kind.IsColumn() && cut[k + 1].(kind := Activate) == cut[k]
    {
      assert cut[k] == if k < lo then line[k] else line[k + hi - lo];
    }
    forall k | 0 <= k < |cut| && Bare(cut, k)
      ensures if k < lo then Bare(line, k)
        else Bare(line, k + hi - lo) || (k == lo && hi == lo + 1 && line[lo].kind.Activate?)
    {
      assert k > lo ==> cut[k - 1] == line[k - 1 + hi - lo];
      assert k < lo && k > 0 ==> cut[k - 1] == line[k - 1];
      if k == lo && hi == lo + 2 {
        assert !line[lo + 1].kind.Activate?;
      }
    }
  }

  lemma CutForemost(c: Config, line: seq<Packet>, lo: nat, hi: nat, k: nat)
    requires lo < hi <= |line| && k < |line[..lo] + line[hi..]|
    requires Foremost(c, line, if k < lo then k else k + hi - lo)
    ensures Foremost(c, line[..lo] + line[hi..], k)
  {
    var cut := line[..lo] + line[hi..];
    forall j | 0 <= j < k ensures !(cut[j].bank == cut[k].bank && (cut[j].row == cut[k].row || !c.openPage)) {
      assert cut[j] == if j < lo then line[j] else line[j + hi - lo];
    }
  }

  /** What a line needs of the tables afterwards: banks other than the one addressed are as they were. */
  predicate BankKept(m: Bank, m1: Bank) { Open(m, m.openRow) ==> Open(m1, m.openRow) }

  /**
   A line from which entries were cut stays fine if the addressed bank has no bare entry left, or only one
   that fits.
  */
  lemma CutLineOk(c: Config, ms: seq<Bank>, acc: seq<nat>, ms1: seq<Bank>, acc1: seq<nat>, line: seq<Packet>, lo: nat,
      hi: nat, b: nat)
    requires LineOk(c, ms, acc, line) && lo < hi <= |line| && (lo > 0 ==> !line[lo - 1].kind.Activate?)
    requires hi == lo + 1 || (hi == lo + 2 && line[lo].kind.Activate?)
    requires |ms1| == |ms| && |acc1| == |acc|
    requires forall j :: 0 <= j < |ms| && j != b ==> BankKept(ms[j], ms1[j])
    requires forall j :: 0 <= j < |acc| && j != b ==> acc1[j] == acc[j]
    requires forall i :: 0 <= i < |line| && !(lo <= i < hi) && Bare(line, i) ==> line[i].bank != b
    requires hi == lo + 1 && line[lo].kind.Activate? ==> BareFine(c, ms1, acc1, line[..lo] + line[hi..], lo)
    ensures LineOk(c, ms1, acc1, line[..lo] + line[hi..])
  {
    var cut := line[..lo] + line[hi..];
    CutPaired(line, lo, hi);
    forall k | 0 <= k < |cut| && Bare(cut, k) ensures BareFine(c, ms1, acc1, cut, k) {
      var i := if k < lo then k else k + hi - lo;
      assert cut[k] == line[i];
      if Bare(line, i) {
        assert BareFine(c, ms, acc, line, i);
        CutForemost(c, line, lo, hi, k);
      }
    }
  }

  /** A line that is left alone. */
  lemma KeptLineOk(c: Config, ms: seq<Bank>, acc: seq<nat>, ms1: seq<Bank>, acc1: seq<nat>, line: seq<Packet>, b: nat)
    requires LineOk(c, ms, acc, line) && |ms1| == |ms| && |acc1| == |acc|
    requires forall j :: 0 <= j < |ms| && j != b ==> BankKept(ms[j], ms1[j])
    requires forall j :: 0 <= j < |acc| && j != b ==> acc1[j] == acc[j]
    requires forall i :: 0 <= i < |line| && Bare(line, i) ==> line[i].bank != b
    ensures LineOk(c, ms1, acc1, line)
  {
    forall i | 0 <= i < |line| && Bare(line, i) ensures BareFine(c, ms1, acc1, line, i) {
      assert BareFine(c, ms, acc, line, i);
    }
  }

  // ---- which bare entries there are ----

  /** A bank whose row is not open has no bare entry. */
  lemma NoBare(c: Config, ms: seq<Bank>, acc: seq<nat>, line: seq<Packet>, b: nat)
    requires LineOk(c, ms, acc, line) && b < |ms| && !Open(ms[b], ms[b].openRow)
    ensures forall i :: 0 <= i < |line| && Bare(line, i) ==> line[i].bank != b
  {
    forall i | 0 <= i < |line| && Bare(line, i) ensures line[i].bank != b {
      assert BareFine(c, ms, acc, line, i);
    }
  }

  /** Two bare entries never wait for the same bank. */
  lemma OneBare(c: Config, ms: seq<Bank>, acc: seq<nat>, line: seq<Packet>, i: nat)
    requires LineOk(c, ms, acc, line) && i < |line| && Bare(line, i)
    ensures forall k :: 0 <= k < |line| && k != i && Bare(line, k) ==> line[k].bank != line[i].bank
  {
    forall k | 0 <= k < |line| && k != i && Bare(line, k) ensures line[k].bank != line[i].bank {
      assert BareFine(c, ms, acc, line, i) && BareFine(c, ms, acc, line, k);
    }
  }

  /** A column command that shares its row with a bare entry is not foremost, so it waits. */
  lemma BareExcludesRow(c: Config, ms: seq<Bank>, acc: seq<nat>, line: seq<Packet>, i: nat)
    requires LineOk(c, ms, acc, line) && i < |line| && line[i].bank < |ms| && line[i].row == ms[line[i].bank].openRow
    requires !Bare(line, i)
    requires forall j :: 0 <= j < i ==>
      !(line[j].kind.IsColumn() && line[j].bank == line[i].bank && line[j].row == line[i].row)
    ensures forall k :: 0 <= k < |line| && Bare(line, k) ==> line[k].bank != line[i].bank
  {
    forall k | 0 <= k < |line| && Bare(line, k) ensures line[k].bank != line[i].bank {
      assert BareFine(c, ms, acc, line, k);
    }
  }

  /** An activate to an idle bank that is the first entry to its bank can go. */
  lemma FirstActivateEligible(c: Config, q: QueueState, t: Table, line: seq<Packet>, r: nat, k: nat, j: nat, now: nat)
    requires c.Sensible() && QueueShape(c, q) && TableShape(c, t) && r < c.ranks && Paired(line)
    requires j < |line| && line[j].kind.Activate? && Belongs(c, line[j], r, k) && Issuable(c, q, t, line[j], now)
    requires forall i :: 0 <= i < j ==> line[i].bank != line[j].bank
    requires c.perBank && !c.openPage ==> j == 0
    ensures Eligible(c, q, t, line, j, now)
  {
    assert !Depends(line, j);
    assert !(j > 0 && line[j - 1].kind.Activate?);
  }

  /** A column command that is the first entry to its bank is bare. */
  lemma FirstColumnBare(line: seq<Packet>, j: nat)
    requires Paired(line) && j < |line| && line[j].kind.IsColumn()
    requires forall i :: 0 <= i < j ==> line[i].bank != line[j].bank
    ensures Bare(line, j)
  {
    assert j > 0 ==> line[j - 1].bank != line[j].bank;
  }

  /** The activate that the search picks is the first entry of the whole line to its bank. */
  lemma {:induction false} FirstToBank(c: Config, q: QueueState, t: Table, line: seq<Packet>, r: nat, k: nat, i: nat,
      n: nat, now: nat)
    requires c.Sensible() && QueueShape(c, q) && TableShape(c, t) && r < c.ranks && LineShape(c, line, r, k)
    requires LineOk(c, t[r], q.rowAccess[r], line) && i < |line| && line[i].kind.Activate? && n <= i
    requires Belongs(c, line[i], r, k) && Issuable(c, q, t, line[i], now)
    requires forall j :: 0 <= j < i ==> Belongs(c, line[j], r, k) && !Eligible(c, q, t, line, j, now)
    requires c.perBank && !c.openPage ==> i == 0
    ensures forall j :: 0 <= j < n ==> line[j].bank != line[i].bank
    decreases n
  {
    if n > 0 {
      FirstToBank(c, q, t, line, r, k, i, n - 1, now);
      var j := n - 1;
      assert Belongs(c, line[j], r, k);
      if line[j].bank == line[i].bank {
        if line[j].kind.Activate? {
          FirstActivateEligible(c, q, t, line, r, k, j, now);
        } else {
          FirstColumnBare(line, j);
        }
      }
    }
  }

  // ---- popping a command ----

  /** What the controller's tables must have in common with the invariant of the two machines. */
  ghost predicate Settled(c: Config, t: Table, now: nat)
    requires TableShape(c, t)
  {
    forall r, j :: 0 <= r < c.ranks && 0 <= j < c.banks ==>
      && (t[r][j].mode.Idle? ==> t[r][j].countdown == 0)
      && (t[r][j].mode.Refreshing? ==> t[r][j].countdown > 0 && t[r][j].nextActivate >= now + t[r][j].countdown)
      && (t[r][j].mode.RowActive? && t[r][j].countdown > 0 ==>
           !c.openPage && t[r][j].nextRead > now && t[r][j].nextWrite > now)
  }

  lemma SettledOf(c: Config, s: Sys)
    requires c.Sensible() && Shape(c, s) && Related(c, s, s.now, s.now) && s.cmdBus.None?
    ensures Settled(c, s.table, s.now)
  {
    hide QueueShape;
    forall r, j | 0 <= r < c.ranks && 0 <= j < c.banks
      ensures BankRel(c, s.table[r][j], View(c, s, r, s.now)[j], s.now)
    {
    }
  }

  /** Issuing a command to bank b leaves the other banks of the rank open if they were. */
  lemma IssueKeepsOthers(c: Config, m: Bank, i: nat, j: nat, p: Packet, now: nat)
    requires c.Sensible() && (i != p.rank || j != p.bank) && (i == p.rank ==> !p.kind.Refresh?)
    ensures BankKept(m, Issue(c, m, i, j, p, now))
    ensures Issue(c, m, i, j, p, now).mode == m.mode
  {
  }

  /** The rank that a command other than a refresh goes to. */
  lemma RankUnitsAfter(c: Config, q: QueueState, t: Table, q1: QueueState, t1: Table, r: nat, b: nat)
    requires c.Sensible() && QueueShape(c, q) && TableShape(c, t) && QueueShape(c, q1) && TableShape(c, t1)
    requires r < c.ranks && b < c.banks && RankUnits(c, q, t, r)
    requires forall j :: 0 <= j < c.banks && j != b ==>
      BankKept(t[r][j], t1[r][j]) && t1[r][j].mode == t[r][j].mode && q1.rowAccess[r][j] == q.rowAccess[r][j]
    requires LineOk(c, t1[r], q1.rowAccess[r], Line(c, q1, r, b))
    requires forall k :: 0 <= k < c.banks && Slot(c, k) != Slot(c, b) ==> Line(c, q1, r, k) == Line(c, q, r, k)
    requires c.openPage && !t1[r][b].mode.RowActive? ==> q1.rowAccess[r][b] == 0
    ensures RankUnits(c, q1, t1, r)
  {
    forall k | 0 <= k < c.banks ensures LineOk(c, t1[r], q1.rowAccess[r], Line(c, q1, r, k)) {
      if Slot(c, k) == Slot(c, b) {
        assert Line(c, q1, r, k) == Line(c, q1, r, b);
      } else {
        var line := Line(c, q, r, k);
        forall i | 0 <= i < |line| && Bare(line, i) ensures line[i].bank != b {
          assert Belongs(c, line[i], r, Slot(c, k));
        }
        KeptLineOk(c, t[r], q.rowAccess[r], t1[r], q1.rowAccess[r], line, b);
      }
    }
  }

  /** A rank that no command goes to. */
  lemma OtherRankUnits(c: Config, q: QueueState, t: Table, q1: QueueState, t1: Table, r: nat)
    requires c.Sensible() && QueueShape(c, q) && TableShape(c, t) && QueueShape(c, q1) && TableShape(c, t1)
    requires r < c.ranks && RankUnits(c, q, t, r)
    requires forall j :: 0 <= j < c.banks ==> BankKept(t[r][j], t1[r][j])
    requires c.openPage ==> forall j :: 0 <= j < c.banks ==> (t[r][j].mode.RowActive? ==> t1[r][j].mode.RowActive?)
    requires q1.rowAccess[r] == q.rowAccess[r] && forall k :: 0 <= k < c.banks ==> Line(c, q1, r, k) == Line(c, q, r, k)
    ensures RankUnits(c, q1, t1, r)
  {
    forall k | 0 <= k < c.banks ensures LineOk(c, t1[r], q1.rowAccess[r], Line(c, q1, r, k)) {
      var line := Line(c, q, r, k);
      forall i | 0 <= i < |line| && Bare(line, i) ensures BareFine(c, t1[r], q1.rowAccess[r], line, i) {
        assert BareFine(c, t[r], q.rowAccess[r], line, i);
      }
    }
  }

  /** The queue line after the search has taken packet i out of it. */
  lemma TakenLine(c: Config, q: QueueState, t: Table, r: nat, b: nat, i: nat, ms1: seq<Bank>, acc1: seq<nat>, now: nat)
    requires c.Sensible() && QueueShape(c, q) && TableShape(c, t) && r < c.ranks && b < c.banks
    requires RankUnits(c, q, t, r) && Settled(c, t, now)
    requires i < |Line(c, q, r, b)| && i == FirstEligible(c, q, t, Line(c, q, r, b), r, Slot(c, b), 0, now)
    requires var line := Line(c, q, r, b); var p := line[i]; var ms := t[r]; var acc := q.rowAccess[r];
      && |ms1| == c.banks && |acc1| == c.banks && p.bank < c.banks
      && (forall j :: 0 <= j < c.banks && j != p.bank ==> BankKept(ms[j], ms1[j]) && acc1[j] == acc[j])
      && (p.kind.Activate? ==> Open(ms1[p.bank], p.row) && acc1[p.bank] == acc[p.bank])
    ensures var line := Line(c, q, r, b);
      LineOk(c, ms1, acc1, if TakesActivate(c, line, i) then line[..i - 1] + line[i + 1..] else Without(line, i))
  {
    var line := Line(c, q, r, b);
    var p := line[i];
    var ms, acc := t[r], q.rowAccess[r];
    assert Belongs(c, p, r, Slot(c, b)) && Eligible(c, q, t, line, i, now);
    assert LineOk(c, ms, acc, line);
    if p.kind.Activate? {
      TakenActivate(c, q, t, line, r, Slot(c, b), i, now);
      assert !(i > 0 && line[i - 1].kind.Activate?);
      var cut := line[..i] + line[i + 1..];
      assert cut[i] == line[i + 1] && line[i + 1].(kind := Activate) == p;
      assert BareFine(c, ms1, acc1, cut, i);
      CutLineOk(c, ms, acc, ms1, acc1, line, i, i + 1, p.bank);
    } else if i > 0 && line[i - 1].kind.Activate? {
      assert c.openPage by {
        assert line[i].(kind := Activate) == line[i - 1];
      }
      TakenPair(c, ms, acc, line, i);
      CutLineOk(c, ms, acc, ms1, acc1, line, i - 1, i + 1, p.bank);
    } else {
      OneBare(c, ms, acc, line, i);
      CutLineOk(c, ms, acc, ms1, acc1, line, i, i + 1, p.bank);
    }
  }

  /** The column command behind an issued activate is fine as a bare one. */
  lemma TakenActivate(c: Config, q: QueueState, t: Table, line: seq<Packet>, r: nat, k: nat, i: nat, now: nat)
    requires c.Sensible() && QueueShape(c, q) && TableShape(c, t) && r < c.ranks && LineShape(c, line, r, k)
    requires LineOk(c, t[r], q.rowAccess[r], line) && RankUnits(c, q, t, r) && i < |line| && line[i].kind.Activate?
    requires Belongs(c, line[i], r, k) && Eligible(c, q, t, line, i, now)
    requires forall j :: 0 <= j < i ==> Belongs(c, line[j], r, k) && !Eligible(c, q, t, line, j, now)
    ensures forall j :: 0 <= j < |line| && Bare(line, j) ==> line[j].bank != line[i].bank
    ensures forall j :: 0 <= j < i ==> line[j].bank != line[i].bank
    ensures c.openPage ==> q.rowAccess[r][line[i].bank] == 0
  {
    NoBare(c, t[r], q.rowAccess[r], line, line[i].bank);
    FirstToBank(c, q, t, line, r, k, i, i, now);
  }

  /** A column command that takes its activate along belongs to a bank without a bare entry. */
  lemma TakenPair(c: Config, ms: seq<Bank>, acc: seq<nat>, line: seq<Packet>, i: nat)
    requires LineOk(c, ms, acc, line) && 0 < i < |line| && line[i - 1].kind.Activate? && c.openPage
    requires line[i].bank < |ms| && line[i].row == ms[line[i].bank].openRow && !Depends(line, i)
    ensures i - 1 > 0 ==> !line[i - 2].kind.Activate?
    ensures forall k :: 0 <= k < |line| && Bare(line, k) ==> line[k].bank != line[i].bank
  {
    BareExcludesRow(c, ms, acc, line, i);
  }

  // ---- each kind of choice ----

  /** What a choice leaves behind in the queue and the controller's tables. */
  ghost predicate After(c: Config, q: QueueState, t: Table, pick: Pick, now: nat, q1: QueueState, t1: Table)
    requires c.Sensible() && QueueShape(c, q) && TableShape(c, t) && Valid(c, q, pick)
  {
    && QueueShape(c, q1) && TableShape(c, t1)
    && q1.queues == Remove(c, q, pick).queues && q1.rowAccess == Remove(c, q, pick).rowAccess
    && t1 == IssueTable(c, t, Chosen(c, q, pick), now)
  }

  lemma OtherRanksUnits(c: Config, q: QueueState, t: Table, pick: Pick, now: nat, q1: QueueState, t1: Table, r: nat)
    requires c.Sensible() && QueueShape(c, q) && TableShape(c, t) && Valid(c, q, pick) &&
      After(c, q, t, pick, now, q1, t1)
    requires r < c.ranks && r != Chosen(c, q, pick).rank && RankUnits(c, q, t, r)
    ensures RankUnits(c, q1, t1, r)
  {
    var p := Chosen(c, q, pick);
    forall j | 0 <= j < c.banks ensures BankKept(t[r][j], t1[r][j]) && t1[r][j].mode == t[r][j].mode {
      IssueKeepsOthers(c, t[r][j], r, j, p, now);
    }
    ChosenRank(c, q, pick);
    assert q1.queues[r] == q.queues[r] && q1.rowAccess[r] == q.rowAccess[r];
    hide IssueTable, Remove;
    OtherRankUnits(c, q, t, q1, t1, r);
  }

  lemma ChosenRank(c: Config, q: QueueState, pick: Pick)
    requires c.Sensible() && QueueShape(c, q) && Valid(c, q, pick)
    ensures Chosen(c, q, pick).rank ==
      (match pick case FromQueue(r, b, i) => r case CloseRow(r, b) => r case _ => q.refreshRank)
    ensures pick.FromQueue? ==>
      Chosen(c, q, pick).bank < c.banks && Slot(c, Chosen(c, q, pick).bank) == Slot(c, pick.bank)
    ensures pick.LastColumn? ==> Slot(c, Chosen(c, q, pick).bank) == Slot(c, pick.bank)
  {
    match pick
    case FromQueue(r, b, i) =>
      assert Belongs(c, Line(c, q, r, b)[i], r, Slot(c, b));
    case LastColumn(b, i) =>
      assert Belongs(c, Line(c, q, q.refreshRank, b)[i], q.refreshRank, Slot(c, b));
    case _ =>
  }

  /** The banks beside the one that a column or row command goes to. */
  lemma OthersInRank(c: Config, t: Table, t1: Table, p: Packet, now: nat)
    requires c.Sensible() && TableShape(c, t) && p.rank < c.ranks && t1 == IssueTable(c, t, p, now) && !p.kind.Refresh?
    ensures forall j :: 0 <= j < c.banks && j != p.bank ==>
      BankKept(t[p.rank][j], t1[p.rank][j]) && t1[p.rank][j].mode == t[p.rank][j].mode
  {
    forall j | 0 <= j < c.banks && j != p.bank
      ensures BankKept(t[p.rank][j], t1[p.rank][j]) && t1[p.rank][j].mode == t[p.rank][j].mode
    {
      IssueKeepsOthers(c, t[p.rank][j], p.rank, j, p, now);
    }
  }

  /** What taking a packet from a line leaves of the queues and of the counts of accesses to open rows. */
  lemma FromQueueTakes(c: Config, q: QueueState, t: Table, pick: Pick, now: nat, q1: QueueState, t1: Table)
    requires c.Sensible() && QueueShape(c, q) && TableShape(c, t) && Valid(c, q, pick) &&
      After(c, q, t, pick, now, q1, t1)
    requires pick.FromQueue? && RankUnits(c, q, t, pick.rank)
    requires pick.index == FirstEligible(c, q, t, Line(c, q, pick.rank, pick.bank), pick.rank,
      Slot(c, pick.bank), 0, now)
    ensures
      var r, b, i := pick.rank, pick.bank, pick.index;
      var line := Line(c, q, r, b);
      && q1.queues == Put(q.queues, r, Slot(c, b),
        if TakesActivate(c, line, i) then line[..i - 1] + line[i + 1..] else Without(line, i))
      && (forall j :: 0 <= j < c.banks && j != line[i].bank ==> q1.rowAccess[r][j] == q.rowAccess[r][j])
      && (!TakesActivate(c, line, i) ==> q1.rowAccess == q.rowAccess)
      && (line[i].kind.Activate? ==> !TakesActivate(c, line, i))
  {
    var r, b, i := pick.rank, pick.bank, pick.index;
    var line := Line(c, q, r, b);
    assert Belongs(c, line[i], r, Slot(c, b)) && Eligible(c, q, t, line, i, now);
    var line1 := if TakesActivate(c, line, i) then line[..i - 1] + line[i + 1..] else Without(line, i);
    assert q1.queues == Put(q.queues, r, Slot(c, b), line1);
    assert forall j :: 0 <= j < c.banks && j != line[i].bank ==> q1.rowAccess[r][j] == q.rowAccess[r][j];
    assert !TakesActivate(c, line, i) ==> q1.rowAccess == q.rowAccess;
    assert line[i].kind.Activate? ==> !TakesActivate(c, line, i);
  }

  lemma FromQueueUnits(c: Config, q: QueueState, t: Table, pick: Pick, now: nat, q1: QueueState, t1: Table)
    requires c.Sensible() && QueueShape(c, q) && TableShape(c, t) && Valid(c, q, pick) &&
      After(c, q, t, pick, now, q1, t1)
    requires pick.FromQueue? && RankUnits(c, q, t, pick.rank) && Settled(c, t, now)
    requires pick.index == FirstEligible(c, q, t, Line(c, q, pick.rank, pick.bank), pick.rank,
      Slot(c, pick.bank), 0, now)
    ensures RankUnits(c, q1, t1, pick.rank)
  {
    var r, b, i := pick.rank, pick.bank, pick.index;
    var line := Line(c, q, r, b);
    var p := line[i];
    assert Belongs(c, p, r, Slot(c, b)) && Eligible(c, q, t, line, i, now);
    var line1 := if TakesActivate(c, line, i) then line[..i - 1] + line[i + 1..] else Without(line, i);
    FromQueueTakes(c, q, t, pick, now, q1, t1);
    OthersInRank(c, t, t1, p, now);
    IssuedBank(c, t[r][p.bank], p, now);
    hide IssueTable, Remove, FirstEligible, Eligible, Issue;
    TakenLine(c, q, t, r, b, i, t1[r], q1.rowAccess[r], now);
    assert Line(c, q1, r, p.bank) == line1;
    RankUnitsAfter(c, q, t, q1, t1, r, p.bank);
  }

  /** The entry of the bank that a queued packet goes to. */
  lemma IssuedBank(c: Config, m: Bank, p: Packet, now: nat)
    requires c.Sensible() && (p.kind.IsColumn() || p.kind.Activate?)
    ensures p.kind.IsColumn() ==> Issue(c, m, p.rank, p.bank, p, now).mode == m.mode
    ensures p.kind.Activate? ==>
      var m1 := Issue(c, m, p.rank, p.bank, p, now);
        m1.mode.RowActive? && m1.openRow == p.row && m1.countdown == m.countdown
  {
  }

  lemma LastColumnUnits(c: Config, q: QueueState, t: Table, pick: Pick, now: nat, q1: QueueState, t1: Table)
    requires c.Sensible() && QueueShape(c, q) && TableShape(c, t) && Valid(c, q, pick) &&
      After(c, q, t, pick, now, q1, t1)
    requires pick.LastColumn? && RankUnits(c, q, t, q.refreshRank) && Settled(c, t, now)
    requires t[q.refreshRank][pick.bank].mode.RowActive? && pick == RefreshBank(c, q, t, pick.bank, now)
    ensures RankUnits(c, q1, t1, q.refreshRank)
  {
    var r, b, i := q.refreshRank, pick.bank, pick.index;
    var line := Line(c, q, r, b);
    var p := line[i];
    assert Belongs(c, p, r, Slot(c, b)) && LineOk(c, t[r], q.rowAccess[r], line);
    assert i == FirstToRow(line, b, t[r][b].openRow, 0) && p.kind.IsColumn() && p.bank == b;
    assert i > 0 ==> !line[i - 1].kind.Activate?;
    assert q1.queues == Put(q.queues, r, Slot(c, b), Without(line, i)) && q1.rowAccess == q.rowAccess;
    OthersInRank(c, t, t1, p, now);
    IssuedBank(c, t[r][b], p, now);
    hide IssueTable, Remove, RefreshBank, Issue;
    OneBare(c, t[r], q.rowAccess[r], line, i);
    CutLineOk(c, t[r], q.rowAccess[r], t1[r], q1.rowAccess[r], line, i, i + 1, b);
    assert Line(c, q1, r, b) == Without(line, i);
    RankUnitsAfter(c, q, t, q1, t1, r, b);
  }

  /** No bare entry waits for a row that is chosen to be closed. */
  lemma ClosedUnits(c: Config, q: QueueState, t: Table, pick: Pick, now: nat, q1: QueueState, t1: Table, r: nat, b: nat)
    requires c.Sensible() && QueueShape(c, q) && TableShape(c, t) && Valid(c, q, pick) &&
      After(c, q, t, pick, now, q1, t1)
    requires r < c.ranks && b < c.banks && c.openPage && Chosen(c, q, pick) == Packet(Precharge, 0, 0, 0, r, b)
    requires pick.CloseForRefresh? || pick.CloseRow?
    requires RankUnits(c, q, t, r)
    requires t[r][b].mode.RowActive?
    requires var line := Line(c, q, r, b); var j := FirstToRow(line, b, t[r][b].openRow, 0);
      j == |line| || line[j].kind.Activate? || q.rowAccess[r][b] == c.totalRowAccesses
    ensures RankUnits(c, q1, t1, r)
  {
    var p := Chosen(c, q, pick);
    ChosenRank(c, q, pick);
    var line := Line(c, q, r, b);
    forall i | 0 <= i < |line| && Bare(line, i) ensures line[i].bank != b {
      NotStranded(c, t[r], q.rowAccess[r], line, i, b);
    }
    assert q1.queues == q.queues && q1.rowAccess[r] == q.rowAccess[r][b := 0];
    OthersInRank(c, t, t1, p, now);
    hide IssueTable, Remove, Issue;
    KeptLineOk(c, t[r], q.rowAccess[r], t1[r], q1.rowAccess[r], line, b);
    assert Line(c, q1, r, b) == line;
    RankUnitsAfter(c, q, t, q1, t1, r, b);
  }

  /** A bare column command is found by the search for packets to the open row, and its row is not worn out. */
  lemma NotStranded(c: Config, ms: seq<Bank>, acc: seq<nat>, line: seq<Packet>, i: nat, b: nat)
    requires c.Sensible() && c.openPage && LineOk(c, ms, acc, line) && i < |line| && Bare(line, i) &&
      b < |ms| && b < |acc|
    requires var j := FirstToRow(line, b, ms[b].openRow, 0);
      j == |line| || line[j].kind.Activate? || acc[b] == c.totalRowAccesses
    ensures line[i].bank != b
  {
    assert BareFine(c, ms, acc, line, i);
  }

  /** A refresh goes to a rank without open rows, hence without bare entries. */
  lemma RefreshedUnits(c: Config, q: QueueState, t: Table, pick: Pick, now: nat, q1: QueueState, t1: Table)
    requires c.Sensible() && QueueShape(c, q) && TableShape(c, t) && Valid(c, q, pick) &&
      After(c, q, t, pick, now, q1, t1)
    requires pick.SendRefresh? && RankUnits(c, q, t, q.refreshRank)
    requires forall j :: 0 <= j < c.banks ==> !t[q.refreshRank][j].mode.RowActive?
    ensures RankUnits(c, q1, t1, q.refreshRank)
  {
    var r := q.refreshRank;
    forall k | 0 <= k < c.banks ensures LineOk(c, t1[r], q1.rowAccess[r], Line(c, q1, r, k)) {
      var line := Line(c, q, r, k);
      assert Line(c, q1, r, k) == line && LineOk(c, t[r], q.rowAccess[r], line);
      AllRowsClosed(c, t[r], q.rowAccess[r], line);
    }
  }

  lemma AllRowsClosed(c: Config, ms: seq<Bank>, acc: seq<nat>, line: seq<Packet>)
    requires LineOk(c, ms, acc, line) && forall j :: 0 <= j < |ms| ==> !ms[j].mode.RowActive?
    ensures forall i :: 0 <= i < |line| ==> !Bare(line, i)
  {
  }

  /** Taking out what is chosen and updating the controller's tables keeps the units. */
  lemma ChoiceKeepsUnits(c: Config, q: QueueState, t: Table, pick: Pick, now: nat, q1: QueueState, t1: Table)
    requires c.Sensible() && QueueShape(c, q) && TableShape(c, t) && Units(c, q, t) && Settled(c, t, now)
    requires pick == Choose(c, q, t, now) && !pick.Nothing? && Valid(c, q, pick) && After(c, q, t, pick, now, q1, t1)
    ensures Units(c, q1, t1)
  {
    ChosenRank(c, q, pick);
    forall r | 0 <= r < c.ranks ensures RankUnits(c, q1, t1, r) {
      assert RankUnits(c, q, t, r);
      if r != Chosen(c, q, pick).rank {
        OtherRanksUnits(c, q, t, pick, now, q1, t1, r);
      } else {
        ChosenRankUnits(c, q, t, pick, now, q1, t1);
      }
    }
  }

  lemma ChosenRankUnits(c: Config, q: QueueState, t: Table, pick: Pick, now: nat, q1: QueueState, t1: Table)
    requires c.Sensible() && QueueShape(c, q) && TableShape(c, t) && Settled(c, t, now)
    requires pick == Choose(c, q, t, now) && !pick.Nothing? && Valid(c, q, pick) && After(c, q, t, pick, now, q1, t1)
    requires RankUnits(c, q, t, Chosen(c, q, pick).rank)
    ensures RankUnits(c, q1, t1, Chosen(c, q, pick).rank)
  {
    ChosenRank(c, q, pick);
    hide After, RankUnits, Settled, QueueShape, TableShape;
    match pick
    case FromQueue(r, b, i) => FromQueueUnits(c, q, t, pick, now, q1, t1);
    case LastColumn(b, i) => LastColumnUnits(c, q, t, pick, now, q1, t1);
    case CloseForRefresh(b) =>
      assert pick == RefreshBank(c, q, t, b, now);
      ClosedUnits(c, q, t, pick, now, q1, t1, q.refreshRank, b);
    case CloseRow(r, b) => ClosedUnits(c, q, t, pick, now, q1, t1, r, b);
    case SendRefresh => RefreshedUnits(c, q, t, pick, now, q1, t1);
  }
}
