/**
 The order of accesses.  Between the moment the controller takes a transaction and the moment its
 column command goes out, accesses to the same rank, bank and row keep their order; under the
 close-page policy all accesses to the same bank do.
*/
module DramOrder {
  import opened Wrappers
  import opened DramTypes
  import opened DramBank
  import opened DramQueue
  import opened DramSystem
  import opened DramUnits
  import opened Filters

  /** What identifies an access among those to one bank. */
  datatype Access = Access(isRead: bool, addr: nat, column: nat, row: nat)

  /** The accesses whose order is watched: one row of a bank, or, without a row, the whole bank. */
  datatype Key = Key(rank: nat, bank: nat, row: Option<nat>) {
    predicate Covers(rank: nat, bank: nat, row: nat) {
      this.rank == rank && this.bank == bank && (this.row.Some? ==> this.row.value == row)
    }
  }

  predicate ValidKey(c: Config, k: Key) { k.rank < c.ranks && k.bank < c.banks && (c.openPage ==> k.row.Some?) }

  function OfTransaction(k: Key): Transaction -> Option<Access> {
    (t: Transaction) =>
      if k.Covers(t.rank, t.bank, t.row) then Some(Access(t.isRead, t.addr, t.column, t.row)) else None
  }

  function OfPacket(k: Key): Packet -> Option<Access> {
    (p: Packet) =>
      if p.kind.IsColumn() && k.Covers(p.rank, p.bank, p.row)
      then Some(Access(p.kind.IsRead(), p.addr, p.column, p.row))
      else None
  }

  function OfEvent(k: Key): Event -> Option<Access> { (e: Event) => OfPacket(k)(e.packet) }

  /** The accesses of key k that were accepted, in order. */
  function Accepted(k: Key, h: History): seq<Access> { Filter(h.accepted, OfTransaction(k)) }

  /** The accesses of key k that were issued, in order. */
  function Issued(k: Key, h: History): seq<Access> { Filter(h.issued, OfEvent(k)) }

  /** Accepted accesses are the issued ones, then the queued ones, then those still to be scheduled. */
  ghost predicate InOrder(c: Config, s: Sys)
    requires c.Sensible() && Shape(c, s)
  {
    forall k :: ValidKey(c, k) ==> InOrderFor(c, s, k)
  }

  ghost predicate InOrderFor(c: Config, s: Sys, k: Key)
    requires c.Sensible() && Shape(c, s) && ValidKey(c, k)
  {
    Issued(k, s.history) + Filter(Line(c, s.queue, k.rank, k.bank), OfPacket(k)) +
        Filter(s.transactions, OfTransaction(k))
      == Accepted(k, s.history)
  }

  // ---- popping ----

  /** Entry i is the first column command of the line among those whose order is watched together with it. */
  predicate FirstColumn(c: Config, line: seq<Packet>, i: nat)
    requires i < |line|
  {
    forall j :: 0 <= j < i ==>
      !(line[j].kind.IsColumn() && line[j].bank == line[i].bank && (line[j].row == line[i].row || !c.openPage))
  }

  /** What the search takes out is the first of its kind. */
  lemma QueuedIsFirst(c: Config, q: QueueState, t: Table, r: nat, b: nat, i: nat, now: nat)
    requires c.Sensible() && QueueShape(c, q) && TableShape(c, t) && r < c.ranks && b < c.banks && RankUnits(c, q, t, r)
    requires i < |Line(c, q, r, b)|
    requires var p := Line(c, q, r, b)[i]; p.kind.IsColumn() && p.rank < c.ranks && p.bank < c.banks
    requires Eligible(c, q, t, Line(c, q, r, b), i, now)
    ensures FirstColumn(c, Line(c, q, r, b), i)
  {
    var line := Line(c, q, r, b);
    hide Issuable, QueueShape, TableShape;
    assert LineOk(c, t[r], q.rowAccess[r], line);
    if !c.openPage && !c.perBank {
      assert Bare(line, i);
      assert BareFine(c, t[r], q.rowAccess[r], line, i);
    }
  }

  /** So is the column command that is hurried out before a refresh. */
  lemma HurriedIsFirst(c: Config, q: QueueState, t: Table, b: nat, i: nat, now: nat)
    requires c.Sensible() && QueueShape(c, q) && TableShape(c, t) && q.refreshWaiting && b < c.banks
    requires t[q.refreshRank][b].mode.RowActive? && RefreshBank(c, q, t, b, now) == LastColumn(b, i)
    requires RankUnits(c, q, t, q.refreshRank)
    ensures i < |Line(c, q, q.refreshRank, b)| && FirstColumn(c, Line(c, q, q.refreshRank, b), i)
  {
    var r := q.refreshRank;
    var line := Line(c, q, r, b);
    assert i == FirstToRow(line, b, t[r][b].openRow, 0) && !line[i].kind.Activate?;
    hide Issuable, RefreshBank, FirstToRow;
    assert Belongs(c, line[i], r, Slot(c, b)) && LineOk(c, t[r], q.rowAccess[r], line);
    assert Bare(line, i);
    assert BareFine(c, t[r], q.rowAccess[r], line, i);
  }

  /** Taking the first column command of its kind out of a line, alone or with its activate. */
  lemma CutSelected(c: Config, line: seq<Packet>, i: nat, k: Key)
    requires i < |line| && ValidKey(c, k) && (line[i].kind.IsColumn() ==> FirstColumn(c, line, i))
    requires forall j :: 0 <= j < |line| ==> line[j].rank == line[i].rank
    ensures Filter(line, OfPacket(k)) == One(OfPacket(k)(line[i])) + Filter(Without(line, i), OfPacket(k))
    ensures i > 0 && line[i - 1].kind.Activate? ==>
      Filter(line[..i - 1] + line[i + 1..], OfPacket(k)) == Filter(Without(line, i), OfPacket(k))
  {
    FirstSelected(c, line, i, k);
    FilterRemove(line, i, OfPacket(k));
    if i > 0 && line[i - 1].kind.Activate? {
      CutActivate(line, i, k);
    }
    hide Filter, OfPacket, FirstColumn;
  }

  /** Taking the activate before it out as well changes no selection. */
  lemma CutActivate(line: seq<Packet>, i: nat, k: Key)
    requires 0 < i < |line| && line[i - 1].kind.Activate?
    ensures Filter(line[..i - 1] + line[i + 1..], OfPacket(k)) == Filter(Without(line, i), OfPacket(k))
  {
    var cut := Without(line, i);
    FilterRemove(cut, i - 1, OfPacket(k));
    CutTwice(line, i);
    hide Filter;
  }

  lemma CutTwice(line: seq<Packet>, i: nat)
    requires 0 < i < |line|
    ensures var cut := Without(line, i);
      cut[i - 1] == line[i - 1] && cut[..i - 1] + cut[i..] == line[..i - 1] + line[i + 1..]
  {
  }

  /** If the column command is selected, nothing before it is. */
  lemma FirstSelected(c: Config, line: seq<Packet>, i: nat, k: Key)
    requires i < |line| && ValidKey(c, k) && (line[i].kind.IsColumn() ==> FirstColumn(c, line, i))
    requires forall j :: 0 <= j < |line| ==> line[j].rank == line[i].rank
    ensures OfPacket(k)(line[i]).Some? ==> forall j :: 0 <= j < i ==> OfPacket(k)(line[j]).None?
  {
  }

  function One(x: Option<Access>): seq<Access> { match x { case None => [] case Some(u) => [u] } }

  lemma QueuedOrder(c: Config, q: QueueState, t: Table, pick: Pick, now: nat, k: Key)
    requires c.Sensible() && QueueShape(c, q) && TableShape(c, t) && Units(c, q, t) && ValidKey(c, k)
    requires pick == Choose(c, q, t, now) && pick.FromQueue? && Valid(c, q, pick) && QueueShape(c, Remove(c, q, pick))
    requires k.rank == pick.rank && Slot(c, k.bank) == Slot(c, pick.bank)
    ensures Filter(Line(c, q, k.rank, k.bank), OfPacket(k))
         == One(OfPacket(k)(Chosen(c, q, pick))) + Filter(Line(c, Remove(c, q, pick), k.rank, k.bank), OfPacket(k))
  {
    var r, b, i := pick.rank, pick.bank, pick.index;
    var line := Line(c, q, r, b);
    assert Belongs(c, line[i], r, Slot(c, b)) && Eligible(c, q, t, line, i, now);
    assert forall j :: 0 <= j < |line| ==> Belongs(c, line[j], r, Slot(c, b));
    hide Eligible, Choose, Filter;
    if line[i].kind.IsColumn() {
      QueuedIsFirst(c, q, t, r, b, i, now);
    }
    CutSelected(c, line, i, k);
    hide FirstColumn, Units, OfPacket;
    assert Line(c, Remove(c, q, pick), k.rank, k.bank) ==
      if TakesActivate(c, line, i) then line[..i - 1] + line[i + 1..] else Without(line, i);
  }

  lemma HurriedOrder(c: Config, q: QueueState, t: Table, pick: Pick, now: nat, k: Key)
    requires c.Sensible() && QueueShape(c, q) && TableShape(c, t) && Units(c, q, t) && ValidKey(c, k)
    requires pick == Choose(c, q, t, now) && pick.LastColumn? && Valid(c, q, pick) && QueueShape(c, Remove(c, q, pick))
    requires k.rank == q.refreshRank && Slot(c, k.bank) == Slot(c, pick.bank)
    ensures Filter(Line(c, q, k.rank, k.bank), OfPacket(k))
         == One(OfPacket(k)(Chosen(c, q, pick))) + Filter(Line(c, Remove(c, q, pick), k.rank, k.bank), OfPacket(k))
  {
    var r, b, i := q.refreshRank, pick.bank, pick.index;
    var line := Line(c, q, r, b);
    assert RefreshBank(c, q, t, b, now) == pick && t[r][b].mode.RowActive?;
    assert forall j :: 0 <= j < |line| ==> Belongs(c, line[j], r, Slot(c, b));
    hide Choose, Filter;
    HurriedIsFirst(c, q, t, b, i, now);
    CutSelected(c, line, i, k);
    hide FirstColumn, Units, OfPacket, RefreshBank;
    assert Line(c, Remove(c, q, pick), k.rank, k.bank) == Without(line, i);
  }

  /** The popped command is the next of its accesses; the rest of the queue keeps its order. */
  lemma PopOrder(c: Config, q: QueueState, t: Table, now: nat, k: Key)
    requires c.Sensible() && QueueShape(c, q) && TableShape(c, t) && Units(c, q, t) && ValidKey(c, k)
    ensures var (q1, popped) := Pop(c, q, t, now);
      Filter(Line(c, q, k.rank, k.bank), OfPacket(k))
        == (if popped.None? then [] else One(OfPacket(k)(popped.value))) +
            Filter(Line(c, q1, k.rank, k.bank), OfPacket(k))
  {
    var q0 := q.(faw := AgeAll(q.faw));
    PopParts(c, q, t, now, k);
    AgedUnits(c, q, t);
    hide Pop, Units, Choose, Remove, Filter, QueueShape, Valid;
    if !Choose(c, q0, t, now).Nothing? {
      ChoiceOrder(c, q0, t, Choose(c, q0, t, now), now, k);
    }
  }

  /** The line of key k in the stages of pop. */
  lemma PopParts(c: Config, q: QueueState, t: Table, now: nat, k: Key)
    requires c.Sensible() && QueueShape(c, q) && TableShape(c, t) && ValidKey(c, k)
    ensures var q0 := q.(faw := AgeAll(q.faw)); var pick := Choose(c, q0, t, now);
      var (q1, popped) := Pop(c, q, t, now);
      && Line(c, q0, k.rank, k.bank) == Line(c, q, k.rank, k.bank)
      && (pick.Nothing? ==> popped.None? && Line(c, q1, k.rank, k.bank) == Line(c, q, k.rank, k.bank))
      && (!pick.Nothing? ==>
           && Valid(c, q0, pick) && QueueShape(c, Remove(c, q0, pick)) && popped == Some(Chosen(c, q0, pick))
           && Line(c, q1, k.rank, k.bank) == Line(c, Remove(c, q0, pick), k.rank, k.bank))
  {
    hide Choose, Remove, LineShape;
    var q0 := q.(faw := AgeAll(q.faw));
    var pick := Choose(c, q0, t, now);
    if !pick.Nothing? {
      ChoiceValid(c, q0, t, now);
      RemoveKeepsShape(c, q0, pick);
      FinishKeepsShape(c, Remove(c, q0, pick), Chosen(c, q0, pick));
    }
  }

  lemma AgedUnits(c: Config, q: QueueState, t: Table)
    requires c.Sensible() && QueueShape(c, q) && TableShape(c, t) && Units(c, q, t)
    ensures Units(c, q.(faw := AgeAll(q.faw)), t)
  {
    var q1 := q.(faw := AgeAll(q.faw));
    forall r | 0 <= r < c.ranks ensures RankUnits(c, q1, t, r) {
      assert RankUnits(c, q, t, r);
      assert forall b :: 0 <= b < c.banks ==> Line(c, q1, r, b) == Line(c, q, r, b);
    }
  }

  lemma ChoiceOrder(c: Config, q: QueueState, t: Table, pick: Pick, now: nat, k: Key)
    requires c.Sensible() && QueueShape(c, q) && TableShape(c, t) && Units(c, q, t) && ValidKey(c, k)
    requires pick == Choose(c, q, t, now) && !pick.Nothing? && Valid(c, q, pick) && QueueShape(c, Remove(c, q, pick))
    ensures Filter(Line(c, q, k.rank, k.bank), OfPacket(k))
         == One(OfPacket(k)(Chosen(c, q, pick))) + Filter(Line(c, Remove(c, q, pick), k.rank, k.bank), OfPacket(k))
  {
    ChosenRank(c, q, pick);
    var p := Chosen(c, q, pick);
    if pick.FromQueue? && k.rank == pick.rank && Slot(c, k.bank) == Slot(c, pick.bank) {
      QueuedOrder(c, q, t, pick, now, k);
    } else if pick.LastColumn? && k.rank == q.refreshRank && Slot(c, k.bank) == Slot(c, pick.bank) {
      HurriedOrder(c, q, t, pick, now, k);
    } else {
      hide Units, Choose, Filter, LineShape;
      OtherLine(c, q, pick, k);
    }
  }

  /** The other queues stay as they are, and what is taken out is none of theirs. */
  lemma OtherLine(c: Config, q: QueueState, pick: Pick, k: Key)
    requires c.Sensible() && QueueShape(c, q) && ValidKey(c, k) && !pick.Nothing? && Valid(c, q, pick) &&
      QueueShape(c, Remove(c, q, pick))
    requires pick.FromQueue? ==> !(k.rank == pick.rank && Slot(c, k.bank) == Slot(c, pick.bank))
    requires pick.LastColumn? ==> !(k.rank == q.refreshRank && Slot(c, k.bank) == Slot(c, pick.bank))
    ensures Line(c, Remove(c, q, pick), k.rank, k.bank) == Line(c, q, k.rank, k.bank)
    ensures OfPacket(k)(Chosen(c, q, pick)).None?
  {
    ChosenRank(c, q, pick);
  }

  /** Issuing the next command moves it from its queue to the end of what has been issued. */
  lemma IssueNextOrder(c: Config, s: Sys)
    requires c.Sensible() && Shape(c, s) && Units(c, s.queue, s.table) && InOrder(c, s) && IssueNext(c, s).Ok?
    ensures InOrder(c, IssueNext(c, s).value)
  {
    var s1 := IssueNext(c, s).value;
    hide IssueNext, Units;
    forall k | ValidKey(c, k) ensures InOrderFor(c, s1, k) {
      assert InOrderFor(c, s, k);
      IssueNextOrderFor(c, s, k);
    }
  }

  lemma IssueNextOrderFor(c: Config, s: Sys, k: Key)
    requires c.Sensible() && Shape(c, s) && Units(c, s.queue, s.table) && ValidKey(c, k) && InOrderFor(c, s, k)
    requires IssueNext(c, s).Ok?
    ensures InOrderFor(c, IssueNext(c, s).value, k)
  {
    hide IssueNext, Pop, Filter, Units, QueueShape;
    PopOrder(c, s.queue, s.table, s.now, k);
    IssueNextSelected(c, s, k);
  }

  lemma IssueNextSelected(c: Config, s: Sys, k: Key)
    requires c.Sensible() && Shape(c, s) && IssueNext(c, s).Ok?
    ensures var s1 := IssueNext(c, s).value; var (q1, popped) := Pop(c, s.queue, s.table, s.now);
      && s1.queue == q1 && s1.transactions == s.transactions && s1.history.accepted == s.history.accepted
      && Issued(k, s1.history) == Issued(k, s.history) + if popped.None? then [] else One(OfPacket(k)(popped.value))
  {
    hide Pop, Filter, QueueShape, TableShape;
    var popped := Pop(c, s.queue, s.table, s.now).1;
    if popped.Some? {
      FilterPush(s.history.issued, Event(popped.value, s.now), OfEvent(k));
    }
  }

  // ---- scheduling and accepting ----

  /** The transaction that is scheduled is the first one to its bank. */
  lemma ScheduledIsFirst(c: Config, s: Sys, k: Key, i: nat)
    requires c.Sensible() && Shape(c, s) && i == FirstSchedulable(c, s, 0) && i < |s.transactions|
    requires OfTransaction(k)(s.transactions[i]).Some?
    ensures forall j :: 0 <= j < i ==> OfTransaction(k)(s.transactions[j]).None?
  {
    hide QueueShape;
    forall j | 0 <= j < i ensures OfTransaction(k)(s.transactions[j]).None? {
      assert Placed(c, s.transactions[i]) && Placed(c, s.transactions[j]);
      assert !HasRoom(c, s.queue, 2, s.transactions[j].rank, s.transactions[j].bank);
    }
  }

  /** What transaction t adds to the queue of key k. */
  function Entering(c: Config, t: Transaction, k: Key): seq<Packet> {
    if k.rank == t.rank && Slot(c, k.bank) == Slot(c, t.bank) then [ActivateFor(t), ColumnFor(c, t)] else []
  }

  /** Where a queue stands after a transaction was scheduled. */
  lemma ScheduledLine(c: Config, s: Sys, k: Key)
    requires c.Sensible() && Shape(c, s) && Schedule(c, s).Ok? && ValidKey(c, k)
    ensures var s1 := Schedule(c, s).value; var i := FirstSchedulable(c, s, 0);
      && s1.history == s.history
      && (i == |s.transactions| ==> s1.transactions == s.transactions && s1.queue == s.queue)
      && (i < |s.transactions| ==>
           && s1.transactions == s.transactions[..i] + s.transactions[i + 1..]
           && Line(c, s1.queue, k.rank, k.bank) == Line(c, s.queue, k.rank, k.bank) + Entering(c, s.transactions[i], k))
  {
    var i := FirstSchedulable(c, s, 0);
    if i < |s.transactions| {
      var t := s.transactions[i];
      assert Placed(c, t);
      hide QueueShape, FirstSchedulable;
      var q1 := SetLine(c, s.queue, t.rank, t.bank, Line(c, s.queue, t.rank, t.bank) + [ActivateFor(t)]);
      SetLineShape(c, s.queue, ActivateFor(t));
      assert Line(c, q1, t.rank, t.bank) == Line(c, s.queue, t.rank, t.bank) + [ActivateFor(t)];
      var s1 := Schedule(c, s).value;
      assert s1.queue == SetLine(c, q1, t.rank, t.bank, Line(c, q1, t.rank, t.bank) + [ColumnFor(c, t)]);
      if k.rank == t.rank && Slot(c, k.bank) == Slot(c, t.bank) {
        assert Line(c, s1.queue, k.rank, k.bank) ==
          Line(c, s.queue, t.rank, t.bank) + [ActivateFor(t), ColumnFor(c, t)];
      }
    }
  }

  lemma ScheduledPair(c: Config, t: Transaction, line: seq<Packet>, k: Key)
    ensures Filter(line + [ActivateFor(t), ColumnFor(c, t)], OfPacket(k)) ==
      Filter(line, OfPacket(k)) + One(OfTransaction(k)(t))
  {
    var act, col := ActivateFor(t), ColumnFor(c, t);
    assert line + [act, col] == (line + [act]) + [col];
    FilterPush(line + [act], col, OfPacket(k));
    FilterPush(line, act, OfPacket(k));
    assert OfPacket(k)(col) == OfTransaction(k)(t);
  }

  lemma ScheduleOrder(c: Config, s: Sys)
    requires c.Sensible() && Shape(c, s) && InOrder(c, s) && Schedule(c, s).Ok?
    ensures InOrder(c, Schedule(c, s).value)
  {
    var s1 := Schedule(c, s).value;
    forall k | ValidKey(c, k) ensures InOrderFor(c, s1, k) {
      assert InOrderFor(c, s, k);
      ScheduleOrderFor(c, s, k);
    }
  }

  lemma ScheduleOrderFor(c: Config, s: Sys, k: Key)
    requires c.Sensible() && Shape(c, s) && Schedule(c, s).Ok? && ValidKey(c, k) && InOrderFor(c, s, k)
    ensures InOrderFor(c, Schedule(c, s).value, k)
  {
    hide QueueShape, Filter, Schedule, FirstSchedulable, OfPacket, OfTransaction, Entering, Line;
    var i := FirstSchedulable(c, s, 0);
    ScheduledLine(c, s, k);
    if i < |s.transactions| {
      var t := s.transactions[i];
      EnteringSelected(c, t, Line(c, s.queue, k.rank, k.bank), k);
      LeavingSelected(c, s, k, i);
    }
  }

  lemma EnteringSelected(c: Config, t: Transaction, line: seq<Packet>, k: Key)
    ensures Filter(line + Entering(c, t, k), OfPacket(k)) == Filter(line, OfPacket(k)) + One(OfTransaction(k)(t))
  {
    hide Filter;
    if k.rank == t.rank && Slot(c, k.bank) == Slot(c, t.bank) {
      ScheduledPair(c, t, line, k);
    } else {
      assert line + [] == line;
    }
  }

  lemma LeavingSelected(c: Config, s: Sys, k: Key, i: nat)
    requires c.Sensible() && Shape(c, s) && i == FirstSchedulable(c, s, 0) && i < |s.transactions|
    ensures One(OfTransaction(k)(s.transactions[i])) +
      Filter(s.transactions[..i] + s.transactions[i + 1..], OfTransaction(k))
         == Filter(s.transactions, OfTransaction(k))
  {
    hide Filter, QueueShape, FirstSchedulable;
    FilterRemove(s.transactions, i, OfTransaction(k));
    if OfTransaction(k)(s.transactions[i]).Some? {
      ScheduledIsFirst(c, s, k, i);
    }
  }

  lemma OfferOrder(c: Config, s: Sys, t: Transaction)
    requires c.Sensible() && Shape(c, s) && InOrder(c, s) && Placed(c, t)
    ensures InOrder(c, Offer(c, s, t))
  {
    var s1 := Offer(c, s, t);
    forall k | ValidKey(c, k) ensures InOrderFor(c, s1, k) {
      assert InOrderFor(c, s, k);
      hide Filter, QueueShape;
      FilterPush(s.transactions, t, OfTransaction(k));
      FilterPush(s.history.accepted, t, OfTransaction(k));
    }
  }
}
