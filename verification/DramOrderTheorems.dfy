/** The shape of the queues, the order of accesses and the window of four activates, in every run. */
module DramOrderTheorems {
  import opened Wrappers
  import opened DramTypes
  import opened DramBank
  import opened DramQueue
  import opened DramRank
  import opened DramSystem
  import opened DramSafety
  import DramReads
  import opened DramWrites
  import opened DramTheorems
  import opened DramUnits
  import opened DramOrder
  import opened DramActivates
  import Filters

  /** What holds between two calls of update, with t the last cycle in which pop was called. */
  ghost predicate Orderly(c: Config, s: Sys, t: int)
    requires c.Sensible() && Shape(c, s)
  {
    Units(c, s.queue, s.table) && InOrder(c, s) && Windows(c, s, t)
  }

  // ---- phases that change nothing here ----

  predicate SameOrder(s: Sys, s1: Sys) {
    && s1.queue.queues == s.queue.queues && s1.queue.rowAccess == s.queue.rowAccess && s1.queue.faw == s.queue.faw
    && s1.transactions == s.transactions
    && s1.history.accepted == s.history.accepted && s1.history.issued == s.history.issued
  }

  lemma SameUnits(c: Config, s: Sys, s1: Sys)
    requires c.Sensible() && Shape(c, s) && Shape(c, s1) && SameOrder(s, s1) && s1.table == s.table &&
      Units(c, s.queue, s.table)
    ensures Units(c, s1.queue, s1.table)
  {
    forall r | 0 <= r < c.ranks ensures RankUnits(c, s1.queue, s1.table, r) {
      assert RankUnits(c, s.queue, s.table, r);
      assert forall b :: 0 <= b < c.banks ==> Line(c, s1.queue, r, b) == Line(c, s.queue, r, b);
    }
  }

  lemma SameInOrder(c: Config, s: Sys, s1: Sys)
    requires c.Sensible() && Shape(c, s) && Shape(c, s1) && SameOrder(s, s1) && InOrder(c, s)
    ensures InOrder(c, s1)
  {
    forall k | ValidKey(c, k) ensures InOrderFor(c, s1, k) {
      assert InOrderFor(c, s, k);
      assert Line(c, s1.queue, k.rank, k.bank) == Line(c, s.queue, k.rank, k.bank);
    }
  }

  lemma SameWindows(c: Config, s: Sys, s1: Sys, t: int)
    requires Shape(c, s) && Shape(c, s1) && SameOrder(s, s1)
    requires Windows(c, s, t)
    ensures Windows(c, s1, t)
  {
    hide LineShape;
    forall r | 0 <= r < c.ranks ensures WindowOk(c.tFAW, s1.queue.faw[r], ActivateTimes(s1.history, r), t) {
      assert WindowOk(c.tFAW, s.queue.faw[r], ActivateTimes(s.history, r), t);
    }
  }

  lemma SameOrderly(c: Config, s: Sys, s1: Sys, t: int)
    requires c.Sensible() && Shape(c, s) && Shape(c, s1) && SameOrder(s, s1) && s1.table == s.table && Orderly(c, s, t)
    ensures Orderly(c, s1, t)
  {
    hide QueueShape;
    SameUnits(c, s, s1);
    SameInOrder(c, s, s1);
    SameWindows(c, s, s1, t);
  }

  // ---- counting down ----

  /** A bank that counts down is not one that a bare column command waits for. */
  lemma TickKeepsBank(c: Config, m: Bank, v: Bank, t: int)
    requires c.Sensible() && BankRel(c, m, v, t)
    ensures BankKept(m, Tick(c, m)) && Tick(c, m).nextActivate == m.nextActivate
    ensures c.openPage && m.mode.RowActive? ==> Tick(c, m).mode.RowActive?
  {
  }

  lemma CountDownOrderly(c: Config, s: Sys, at: nat, t: int)
    requires c.Sensible() && Shape(c, s) && Related(c, s, at, s.now - 1) && Orderly(c, s, t)
    ensures Orderly(c, CountDown(c, s), t)
  {
    var s1 := CountDown(c, s);
    hide QueueShape;
    forall r, b | 0 <= r < c.ranks && 0 <= b < c.banks
      ensures BankKept(s.table[r][b], s1.table[r][b]) && s1.table[r][b].nextActivate == s.table[r][b].nextActivate
      ensures c.openPage && s.table[r][b].mode.RowActive? ==> s1.table[r][b].mode.RowActive?
    {
      assert BankRel(c, s.table[r][b], View(c, s, r, at)[b], s.now - 1);
      TickKeepsBank(c, s.table[r][b], View(c, s, r, at)[b], s.now - 1);
    }
    assert s1.queue == s.queue && SameOrder(s, s1);
    hide CountDown, Related, InOrder, Windows;
    KeptUnits(c, s, s1);
    SameInOrder(c, s, s1);
    SameWindows(c, s, s1, t);
  }

  lemma KeptUnits(c: Config, s: Sys, s1: Sys)
    requires c.Sensible() && Shape(c, s) && Shape(c, s1) && Units(c, s.queue, s.table) && s1.queue == s.queue
    requires forall r, b :: 0 <= r < c.ranks && 0 <= b < c.banks ==>
      BankKept(s.table[r][b], s1.table[r][b]) &&
          (c.openPage && s.table[r][b].mode.RowActive? ==> s1.table[r][b].mode.RowActive?)
    ensures Units(c, s1.queue, s1.table)
  {
    forall r | 0 <= r < c.ranks ensures RankUnits(c, s1.queue, s1.table, r) {
      assert RankUnits(c, s.queue, s.table, r);
      hide Units, QueueShape;
      OtherRankUnits(c, s.queue, s.table, s1.queue, s1.table, r);
    }
  }

  // ---- the first half of a step ----

  lemma AdvanceRanksOrder(c: Config, s: Sys, i: nat)
    requires Shape(c, s) && i <= c.ranks && AdvanceRanks(c, s, i).Ok?
    ensures var s1 := AdvanceRanks(c, s, i).value;
      s1.queue == s.queue && SameOrder(s, s1) && s1.table == s.table && s1.waiting == s.waiting && s1.now == s.now
    decreases c.ranks - i
  {
    hide QueueShape, Advance;
    if i < c.ranks {
      AdvanceRanksOrder(c, AdvanceRank(c, s, i).value, i + 1);
    }
  }

  lemma OfferOrderly(c: Config, s: Sys, tr: Transaction, t: int)
    requires c.Sensible() && Shape(c, s) && Orderly(c, s, t) && Placed(c, tr)
    ensures Orderly(c, Offer(c, s, tr), t)
  {
    var s1 := Offer(c, s, tr);
    OfferOrder(c, s, tr);
    hide LineShape, Units, InOrder;
    forall r | 0 <= r < c.ranks ensures WindowOk(c.tFAW, s1.queue.faw[r], ActivateTimes(s1.history, r), t) {
      assert WindowOk(c.tFAW, s.queue.faw[r], ActivateTimes(s.history, r), t);
    }
  }

  lemma AdmitOrderly(c: Config, s: Sys, t: int)
    requires c.Sensible() && Shape(c, s) && Orderly(c, s, t)
    ensures Orderly(c, AdmitWaiting(c, s), t)
  {
    hide QueueShape, Orderly;
    if |s.waiting| > 0 && WillAccept(c, s) {
      OfferOrderly(c, s, s.waiting[0], t);
      SameOrderly(c, Offer(c, s, s.waiting[0]), AdmitWaiting(c, s), t);
    }
  }

  lemma ArriveOrderly(c: Config, s: Sys, t: int)
    requires c.Sensible() && Shape(c, s) && Safe(c, s) && Orderly(c, s, t) && Arrive(c, s).Ok?
    ensures Orderly(c, Arrive(c, s).value, t)
  {
    hide QueueShape, Orderly, AdvanceRanks, CountDown, Related, BusLegal, AllSleepAgrees;
    var s1 := AdvanceRanks(c, s, 0).value;
    AdvanceRanksOrder(c, s, 0);
    AdvanceRanksSame(c, s, 0);
    SameTablesKeep(c, s, s1, s.now, s.now - 1);
    SameOrderly(c, s, s1, t);
    AdmitOrderly(c, s1, t);
    var s2 := AdmitWaiting(c, s1);
    SameTablesKeep(c, s1, s2, s.now, s.now - 1);
    CountDownOrderly(c, s2, s.now, t);
  }

  lemma MoveBusesOrder(c: Config, s: Sys)
    requires c.Sensible() && Shape(c, s) && MoveBuses(c, s).Ok?
    ensures var s1 := MoveBuses(c, s).value; SameOrder(s, s1) && s1.table == s.table && s1.now == s.now
  {
    hide QueueShape, DeliverCommand, DeliverData, SendData;
    DeliverOrder(c, s);
    if DeliverCommand(c, s).Ok? {
      DeliverOrder(c, DeliverCommand(c, s).value);
      if DeliverData(c, DeliverCommand(c, s).value).Ok? {
        SendOrder(c, DeliverData(c, DeliverCommand(c, s).value).value);
      }
    }
  }

  lemma DeliverOrder(c: Config, s: Sys)
    requires c.Sensible() && Shape(c, s)
    ensures DeliverCommand(c, s).Ok? ==>
      var s1 := DeliverCommand(c, s).value; SameOrder(s, s1) && s1.table == s.table && s1.now == s.now
    ensures DeliverData(c, s).Ok? ==>
      var s1 := DeliverData(c, s).value; SameOrder(s, s1) && s1.table == s.table && s1.now == s.now
  {
    hide QueueShape, Receive;
  }

  lemma SendOrder(c: Config, s: Sys)
    requires c.Sensible() && Shape(c, s)
    ensures SendData(c, s).Ok? ==>
      var s1 := SendData(c, s).value; SameOrder(s, s1) && s1.table == s.table && s1.now == s.now
  {
    hide QueueShape;
  }

  lemma RefreshTimerOrder(c: Config, s: Sys)
    requires c.Sensible() && Shape(c, s)
    ensures var s1 := RefreshTimer(c, s); SameOrder(s, s1) && s1.table == s.table && s1.now == s.now
  {
  }

  // ---- the command and the transaction ----

  lemma IssueNextUnits(c: Config, s: Sys)
    requires c.Sensible() && Shape(c, s) && Units(c, s.queue, s.table) && Settled(c, s.table, s.now) &&
      IssueNext(c, s).Ok?
    ensures Units(c, IssueNext(c, s).value.queue, IssueNext(c, s).value.table)
  {
    hide Units, Settled, IssueNext, Choose, Remove, QueueShape, Valid;
    var q0 := s.queue.(faw := AgeAll(s.queue.faw));
    AgedShape(c, s.queue);
    var pick := Choose(c, q0, s.table, s.now);
    var s1 := IssueNext(c, s).value;
    AgedUnits(c, s.queue, s.table);
    if pick.Nothing? {
      IssuedNothing(c, s);
    } else {
      IssuedAfter(c, s);
      ChoiceKeepsUnits(c, q0, s.table, pick, s.now, s1.queue, s1.table);
    }
  }

  lemma IssuedNothing(c: Config, s: Sys)
    requires c.Sensible() && Shape(c, s) && IssueNext(c, s).Ok?
    requires Choose(c, s.queue.(faw := AgeAll(s.queue.faw)), s.table, s.now).Nothing?
    ensures IssueNext(c, s).value.queue == s.queue.(faw := AgeAll(s.queue.faw)) &&
      IssueNext(c, s).value.table == s.table
  {
    hide LineShape;
  }

  lemma AgedShape(c: Config, q: QueueState)
    requires QueueShape(c, q)
    ensures QueueShape(c, q.(faw := AgeAll(q.faw)))
  {
  }

  lemma IssuedAfter(c: Config, s: Sys)
    requires c.Sensible() && Shape(c, s) && IssueNext(c, s).Ok?
    requires !Choose(c, s.queue.(faw := AgeAll(s.queue.faw)), s.table, s.now).Nothing?
    ensures var q0 := s.queue.(faw := AgeAll(s.queue.faw)); var pick := Choose(c, q0, s.table, s.now);
      QueueShape(c, q0) && Valid(c, q0, pick) &&
      After(c, q0, s.table, pick, s.now, IssueNext(c, s).value.queue, IssueNext(c, s).value.table)
  {
    hide Choose, Remove, Valid;
    var q0 := s.queue.(faw := AgeAll(s.queue.faw));
    var pick := Choose(c, q0, s.table, s.now);
    ChoiceValid(c, q0, s.table, s.now);
    RemoveKeepsShape(c, q0, pick);
  }

  lemma IssueNextOrderly(c: Config, s: Sys)
    requires c.Sensible() && Shape(c, s) && GoodInside(c, s) && Orderly(c, s, s.now - 1) && IssueNext(c, s).Ok?
    ensures Orderly(c, IssueNext(c, s).value, s.now)
  {
    hide QueueShape, IssueNext, Units, InOrder, Windows, Related, AllSleepAgrees;
    SettledOf(c, s);
    IssueNextUnits(c, s);
    IssueNextOrder(c, s);
    IssueNextWindows(c, s);
  }

  /** A new activate with its column command at the end of a line. */
  lemma PairLineOk(c: Config, ms: seq<Bank>, acc: seq<nat>, line: seq<Packet>, t: Transaction)
    requires LineOk(c, ms, acc, line)
    ensures LineOk(c, ms, acc, line + [ActivateFor(t), ColumnFor(c, t)])
  {
    var line1 := line + [ActivateFor(t), ColumnFor(c, t)];
    forall i | 0 <= i < |line1| && Bare(line1, i) ensures BareFine(c, ms, acc, line1, i) {
      assert i < |line| && Bare(line, i);
      assert BareFine(c, ms, acc, line, i);
    }
  }

  lemma ScheduleUnits(c: Config, s: Sys)
    requires c.Sensible() && Shape(c, s) && Units(c, s.queue, s.table) && Schedule(c, s).Ok?
    ensures Units(c, Schedule(c, s).value.queue, s.table)
  {
    var i := FirstSchedulable(c, s, 0);
    var s1 := Schedule(c, s).value;
    ScheduleKeeps(c, s);
    hide Schedule;
    forall r | 0 <= r < c.ranks ensures RankUnits(c, s1.queue, s.table, r) {
      assert RankUnits(c, s.queue, s.table, r);
      forall b | 0 <= b < c.banks ensures LineOk(c, s.table[r], s1.queue.rowAccess[r], Line(c, s1.queue, r, b)) {
        ScheduledLine(c, s, Key(r, b, Some(0)));
        hide Units, QueueShape;
        assert LineOk(c, s.table[r], s.queue.rowAccess[r], Line(c, s.queue, r, b));
        if i < |s.transactions| {
          PairLineOk(c, s.table[r], s.queue.rowAccess[r], Line(c, s.queue, r, b), s.transactions[i]);
          assert Line(c, s.queue, r, b) + [] == Line(c, s.queue, r, b);
        }
      }
    }
  }

  lemma ScheduleKeeps(c: Config, s: Sys)
    requires c.Sensible() && Shape(c, s) && Schedule(c, s).Ok?
    ensures var s1 := Schedule(c, s).value;
      && s1.queue.rowAccess == s.queue.rowAccess && s1.queue.faw == s.queue.faw
      && s1.table == s.table && s1.history == s.history && s1.now == s.now
  {
    hide QueueShape;
  }

  lemma ScheduleOrderly(c: Config, s: Sys, t: int)
    requires c.Sensible() && Shape(c, s) && Orderly(c, s, t) && Schedule(c, s).Ok?
    ensures Orderly(c, Schedule(c, s).value, t)
  {
    ScheduleKeeps(c, s);
    ScheduleUnits(c, s);
    ScheduleOrder(c, s);
    hide LineShape, Schedule, Units, InOrder;
    var s1 := Schedule(c, s).value;
    forall r | 0 <= r < c.ranks ensures WindowOk(c.tFAW, s1.queue.faw[r], ActivateTimes(s1.history, r), t) {
      assert WindowOk(c.tFAW, s.queue.faw[r], ActivateTimes(s.history, r), t);
    }
  }

  // ---- power states and the end of a step ----

  /** No bare column command waits in a rank without open rows, whatever becomes of its banks. */
  lemma ClosedRankUnits(c: Config, q: QueueState, t: Table, t1: Table, r: nat)
    requires c.Sensible() && QueueShape(c, q) && TableShape(c, t) && TableShape(c, t1) && r < c.ranks &&
      RankUnits(c, q, t, r)
    requires forall b :: 0 <= b < c.banks ==> !t[r][b].mode.RowActive?
    ensures RankUnits(c, q, t1, r)
  {
    forall b | 0 <= b < c.banks ensures LineOk(c, t1[r], q.rowAccess[r], Line(c, q, r, b)) {
      assert LineOk(c, t[r], q.rowAccess[r], Line(c, q, r, b));
      AllRowsClosed(c, t[r], q.rowAccess[r], Line(c, q, r, b));
    }
  }

  lemma PowerRankUnits(c: Config, s: Sys, i: nat)
    requires c.Sensible() && Shape(c, s) && i < c.ranks && PowerRank(c, s, i).Ok? && SleepAgrees(c, s, i)
    requires Units(c, s.queue, s.table)
    ensures Units(c, PowerRank(c, s, i).value.queue, PowerRank(c, s, i).value.table)
  {
    var s1 := PowerRank(c, s, i).value;
    assert s1.queue == s.queue && forall r :: 0 <= r < c.ranks && r != i ==> s1.table[r] == s.table[r];
    assert s1.table == s.table || forall b :: 0 <= b < c.banks ==> !s.table[i][b].mode.RowActive?;
    hide PowerRank, QueueShape, SleepAgrees;
    forall r | 0 <= r < c.ranks ensures RankUnits(c, s1.queue, s1.table, r) {
      assert RankUnits(c, s.queue, s.table, r);
      if s1.table[r] != s.table[r] {
        ClosedRankUnits(c, s.queue, s.table, s1.table, r);
      } else {
        OtherRankUnits(c, s.queue, s.table, s1.queue, s1.table, r);
      }
    }
  }

  lemma PowerRanksUnits(c: Config, s: Sys, i: nat)
    requires c.Sensible() && Shape(c, s) && i <= c.ranks && Units(c, s.queue, s.table)
    requires Related(c, s, s.now + 1, s.now) && BusLegal(c, s, s.now + 1) && AllSleepAgrees(c, s) && BusBusy(c, s)
    ensures PowerRanks(c, s, i).Ok? && Units(c, PowerRanks(c, s, i).value.queue, PowerRanks(c, s, i).value.table)
    decreases c.ranks - i
  {
    hide Shape, Related, BusLegal, BusBusy, Units, PowerRank, SleepAgrees;
    if i < c.ranks && c.lowPower {
      PowerRankSafe(c, s, i);
      PowerRankUnits(c, s, i);
      PowerRanksUnits(c, PowerRank(c, s, i).value, i + 1);
    }
  }

  lemma CloseOrderly(c: Config, s: Sys, t: int)
    requires c.Sensible() && Shape(c, s) && GoodIssued(c, s) && Orderly(c, s, t) && Close(c, s).Ok?
    ensures Orderly(c, Close(c, s).value, t)
  {
    hide QueueShape, Related, AllSleepAgrees, DramReads.Conserved, DramReads.Spaced, DepthOk, WritesSpaced,
      BusLegal, BusBusy, PowerRanks, Units, InOrder, Windows;
    PowerRanksUnits(c, s, 0);
    PowerRanksRest(c, s, 0);
    var s1 := PowerRanks(c, s, 0).value;
    SameInOrder(c, s, s1);
    SameWindows(c, s, s1, t);
    hide Close, ReturnRead, EndCycle;
    ClosedSame(c, s);
    SameOrderly(c, s1, Close(c, s).value, t);
  }

  lemma ClosedSame(c: Config, s: Sys)
    requires c.Sensible() && Shape(c, s) && Close(c, s).Ok?
    ensures PowerRanks(c, s, 0).Ok?
    ensures var s1 := PowerRanks(c, s, 0).value; SameOrder(s1, Close(c, s).value) && Close(c, s).value.table == s1.table
  {
    hide QueueShape, PowerRanks;
  }

  // ---- steps and runs ----

  lemma StepOrderly(c: Config, s: Sys)
    requires c.Sensible() && Shape(c, s) && Good(c, s) && Orderly(c, s, s.now - 1) && Step(c, s).Ok?
    ensures Step(c, s).value.now == s.now + 1 && Orderly(c, Step(c, s).value, s.now)
  {
    hide Shape, Good, GoodInside, GoodIssued, Orderly, Arrive, MoveBuses, IssueNext, Schedule, Close, RefreshTimer;
    FirstHalfGood(c, s);
    SafeOf(c, s);
    var s1 := Arrive(c, s).value;
    var s2 := MoveBuses(c, s1).value;
    var s3 := RefreshTimer(c, s2);
    var s4 := IssueNext(c, s3).value;
    ArriveOrderly(c, s, s.now - 1);
    MoveBusesOrder(c, s1);
    SameOrderly(c, s1, s2, s.now - 1);
    RefreshTimerOrder(c, s2);
    SameOrderly(c, s2, s3, s.now - 1);
    RefreshTimerGood(c, s2);
    IssueNextOrderly(c, s3);
    IssueNextGood(c, s3);
    ScheduleOrderly(c, s4, s.now);
    ScheduleGood(c, s4);
    CloseOrderly(c, Schedule(c, s4).value, s.now);
    CloseNow(c, Schedule(c, s4).value);
  }

  lemma SafeOf(c: Config, s: Sys)
    requires c.Sensible() && Shape(c, s) && Good(c, s)
    ensures Safe(c, s)
  {
  }

  lemma CloseNow(c: Config, s: Sys)
    requires c.Sensible() && Shape(c, s) && GoodIssued(c, s)
    ensures Close(c, s).Ok? ==> Close(c, s).value.now == s.now + 1
  {
    hide QueueShape, AllSleepAgrees, BusLegal, Related, DramReads.Conserved, DramReads.Spaced, DepthOk, WritesSpaced,
      PowerRanks, BusBusy;
    CloseSafe(c, s);
  }

  lemma InitialOrderly(c: Config, s: Sys)
    requires c.Sensible() && Initial(c, s)
    ensures Orderly(c, s, -1)
  {
    forall r | 0 <= r < c.ranks ensures RankUnits(c, s.queue, s.table, r) {
      forall b | 0 <= b < c.banks ensures LineOk(c, s.table[r], s.queue.rowAccess[r], Line(c, s.queue, r, b)) {
        assert Line(c, s.queue, r, b) == s.queue.queues[r][Slot(c, b)] == [];
      }
    }
    forall k | ValidKey(c, k) ensures InOrderFor(c, s, k) {
      assert Line(c, s.queue, k.rank, k.bank) == s.queue.queues[k.rank][Slot(c, k.bank)] == [];
    }
  }

  lemma {:induction false} RunOrderly(c: Config, s: Sys, ops: seq<Op>)
    requires c.Sensible() && Shape(c, s) && Good(c, s) && Orderly(c, s, s.now - 1)
    requires forall i :: 0 <= i < |ops| ==> ValidOp(c, ops[i])
    requires Run(c, s, ops).Ok?
    ensures var e := Run(c, s, ops).value; Good(c, e) && Orderly(c, e, e.now - 1)
    decreases |ops|
  {
    hide Shape, Good, Step, Orderly, Submit, Offer;
    if ops != [] {
      var s1 := Do(c, s, ops[0]).value;
      match ops[0] {
        case Request(t) =>
          OfferGood(c, s, t);
          SubmitOrderly(c, s, t);
        case Direct(t) =>
          OfferGood(c, s, t);
          SubmitOrderly(c, s, t);
        case Cycle =>
          StepGood(c, s);
          StepOrderly(c, s);
      }
      RunOrderly(c, s1, ops[1..]);
    }
  }

  lemma SubmitOrderly(c: Config, s: Sys, t: Transaction)
    requires c.Sensible() && Shape(c, s) && Orderly(c, s, s.now - 1) && Placed(c, t)
    ensures Submit(c, s, t).now == Offer(c, s, t).now == s.now
    ensures Orderly(c, Submit(c, s, t), s.now - 1) && Orderly(c, Offer(c, s, t), s.now - 1)
  {
    hide Orderly, QueueShape;
    OfferOrderly(c, s, t, s.now - 1);
    if !WillAccept(c, s) {
      SameOrderly(c, s, Submit(c, s, t), s.now - 1);
    }
  }

  // ---- the main results, from the initial state on ----

  lemma Reached(c: Config, s: Sys, ops: seq<Op>)
    requires c.Sensible() && Initial(c, s) && forall i :: 0 <= i < |ops| ==> ValidOp(c, ops[i])
    requires Run(c, s, ops).Ok?
    ensures Orderly(c, Run(c, s, ops).value, Run(c, s, ops).value.now - 1)
  {
    hide Run, Good, Orderly, QueueShape, InitialQueue;
    InitialGood(c, s);
    InitialOrderly(c, s);
    RunOrderly(c, s, ops);
  }

  /** What the invariant says of one state. */
  lemma OrderlyMeans(c: Config, e: Sys, k: Key, r: nat)
    requires c.Sensible() && Shape(c, e) && Orderly(c, e, e.now - 1)
    ensures Units(c, e.queue, e.table)
    ensures ValidKey(c, k) ==> Issued(k, e.history) <= Accepted(k, e.history)
    ensures r < c.ranks ==> FiveApart(c.tFAW, ActivateTimes(e.history, r))
  {
    hide Units, LineShape, Filters.Filter;
    if ValidKey(c, k) {
      IssuedPrefix(c, e, k);
    }
    if r < c.ranks {
      assert WindowOk(c.tFAW, e.queue.faw[r], ActivateTimes(e.history, r), e.now - 1);
    }
  }

  lemma IssuedPrefix(c: Config, e: Sys, k: Key)
    requires c.Sensible() && Shape(c, e) && ValidKey(c, k) && InOrder(c, e)
    ensures Issued(k, e.history) <= Accepted(k, e.history)
  {
    assert InOrderFor(c, e, k);
    hide *;
  }

  /**
   In every run a queued column command is either behind the activate made for it, or its row is open,
   nothing closes that row first, and it is the only such command of its bank.
  */
  lemma NothingStranded(c: Config, s: Sys, ops: seq<Op>)
    requires c.Sensible() && Initial(c, s) && forall i :: 0 <= i < |ops| ==> ValidOp(c, ops[i])
    requires Run(c, s, ops).Ok?
    ensures var e := Run(c, s, ops).value; Units(c, e.queue, e.table)
  {
    hide Run, Orderly, QueueShape, InitialQueue, Units, Issued, Accepted;
    Reached(c, s, ops);
    OrderlyMeans(c, Run(c, s, ops).value, Key(0, 0, Some(0)), 0);
  }

  /**
   In every run the issued accesses to a row of a bank, and under the close-page policy those to a
   bank, are the first of the accepted ones, in the same order.
  */
  lemma AccessesKeepOrder(c: Config, s: Sys, ops: seq<Op>, k: Key)
    requires c.Sensible() && Initial(c, s) && ValidKey(c, k) && forall i :: 0 <= i < |ops| ==> ValidOp(c, ops[i])
    requires Run(c, s, ops).Ok?
    ensures var e := Run(c, s, ops).value; Issued(k, e.history) <= Accepted(k, e.history)
  {
    hide Run, Orderly, QueueShape, InitialQueue, Units, Issued, Accepted;
    Reached(c, s, ops);
    OrderlyMeans(c, Run(c, s, ops).value, k, 0);
  }

  /** In every run any five successive activates to one rank span at least the activate window. */
  lemma FiveActivatesSpanWindow(c: Config, s: Sys, ops: seq<Op>, r: nat)
    requires c.Sensible() && Initial(c, s) && r < c.ranks && forall i :: 0 <= i < |ops| ==> ValidOp(c, ops[i])
    requires Run(c, s, ops).Ok?
    ensures FiveApart(c.tFAW, ActivateTimes(Run(c, s, ops).value.history, r))
  {
    hide Run, Orderly, QueueShape, InitialQueue, Units, Issued, Accepted, FiveApart, ActivateTimes;
    Reached(c, s, ops);
    OrderlyMeans(c, Run(c, s, ops).value, Key(0, 0, Some(0)), r);
  }
}
