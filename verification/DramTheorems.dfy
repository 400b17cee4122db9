/** The invariants together: no run of the memory system reaches any of its error exits. */
module DramTheorems {
  import opened Wrappers
  import opened DramTypes
  import opened DramBank
  import opened DramQueue
  import opened DramRank
  import opened DramSystem
  import opened DramSafety
  import opened DramReads
  import opened DramWrites
  import opened Sums

  // ---- queue depth ----

  /** No command queue holds more than it may. */
  ghost predicate DepthOk(c: Config, q: QueueState)
    requires c.Sensible() && QueueShape(c, q)
  {
    forall r, b :: 0 <= r < c.ranks && 0 <= b < c.banks ==> |Line(c, q, r, b)| <= c.cmdQueueDepth
  }

  lemma SetLineDepth(c: Config, q: QueueState, r: nat, b: nat, line: seq<Packet>)
    requires c.Sensible() && QueueShape(c, q) && DepthOk(c, q) && r < c.ranks && b < c.banks
    requires QueueShape(c, SetLine(c, q, r, b, line)) && |line| <= c.cmdQueueDepth
    ensures DepthOk(c, SetLine(c, q, r, b, line))
  {
    var q1 := SetLine(c, q, r, b, line);
    forall r1, b1 | 0 <= r1 < c.ranks && 0 <= b1 < c.banks ensures |Line(c, q1, r1, b1)| <= c.cmdQueueDepth {
      assert Line(c, q1, r1, b1) == if r1 == r && Slot(c, b1) == Slot(c, b) then line else Line(c, q, r1, b1);
    }
  }

  lemma RemoveDepth(c: Config, q: QueueState, pick: Pick)
    requires c.Sensible() && QueueShape(c, q) && Valid(c, q, pick) && DepthOk(c, q)
    ensures QueueShape(c, Remove(c, q, pick)) && DepthOk(c, Remove(c, q, pick))
  {
    RemoveKeepsShape(c, q, pick);
    match pick
    case FromQueue(r, b, i) =>
      var line := Line(c, q, r, b);
      var q1 := q.(nextRank := r, nextBank := b);
      TakeKeepsShape(c, q, r, b, i);
      assert DepthOk(c, q1) by {
        assert forall r1, b1 :: 0 <= r1 < c.ranks && 0 <= b1 < c.banks ==> Line(c, q1, r1, b1) == Line(c, q, r1, b1);
      }
      if TakesActivate(c, line, i) {
        CutKeepsShape(c, line, i - 1, i + 1, r, Slot(c, b));
        SetLineKeepsShape(c, q1, r, b, line[..i - 1] + line[i + 1..]);
        SetLineDepth(c, q1, r, b, line[..i - 1] + line[i + 1..]);
        SameLinesDepth(c, SetLine(c, q1, r, b, line[..i - 1] + line[i + 1..]), Remove(c, q, pick));
      } else {
        SetLineDepth(c, q1, r, b, Without(line, i));
      }
    case LastColumn(b, i) =>
      SetLineDepth(c, q, q.refreshRank, b, Without(Line(c, q, q.refreshRank, b), i));
    case CloseForRefresh(b) => SameLinesDepth(c, q, Remove(c, q, pick));
    case CloseRow(r, b) => SameLinesDepth(c, q, Remove(c, q, pick));
    case SendRefresh => SameLinesDepth(c, q, Remove(c, q, pick));
  }

  lemma SameLinesDepth(c: Config, q: QueueState, q1: QueueState)
    requires c.Sensible() && QueueShape(c, q) && QueueShape(c, q1) && q1.queues == q.queues && DepthOk(c, q)
    ensures DepthOk(c, q1)
  {
    forall r, b | 0 <= r < c.ranks && 0 <= b < c.banks ensures |Line(c, q1, r, b)| <= c.cmdQueueDepth {
      assert Line(c, q1, r, b) == Line(c, q, r, b);
    }
  }

  lemma PopDepth(c: Config, q: QueueState, t: Table, now: nat)
    requires c.Sensible() && QueueShape(c, q) && TableShape(c, t) && DepthOk(c, q)
    ensures DepthOk(c, Pop(c, q, t, now).0)
  {
    var q1 := q.(faw := AgeAll(q.faw));
    var pick := Choose(c, q1, t, now);
    SameLinesDepth(c, q, q1);
    if !pick.Nothing? {
      ChoiceValid(c, q1, t, now);
      RemoveDepth(c, q1, pick);
      FinishDepth(c, Remove(c, q1, pick), Chosen(c, q1, pick));
      hide DepthOk, Choose, Remove, Finish, QueueShape, Valid, Chosen;
    }
  }

  lemma FinishDepth(c: Config, q: QueueState, p: Packet)
    requires c.Sensible() && QueueShape(c, q) && DepthOk(c, q) && p.rank < c.ranks
    ensures QueueShape(c, Finish(c, q, p)) && DepthOk(c, Finish(c, q, p))
  {
    FinishKeepsShape(c, q, p);
    SameLinesDepth(c, q, Finish(c, q, p));
  }

  /** Room for two means that two packets can be queued. */
  lemma ScheduleDepth(c: Config, s: Sys)
    requires c.Sensible() && Shape(c, s) && DepthOk(c, s.queue)
    ensures Schedule(c, s).Ok? && DepthOk(c, Schedule(c, s).value.queue)
  {
    var i := FirstSchedulable(c, s, 0);
    if i < |s.transactions| {
      var t := s.transactions[i];
      var act, col := ActivateFor(t), ColumnFor(c, t);
      var line := Line(c, s.queue, t.rank, t.bank);
      assert |line| <= c.cmdQueueDepth;
      assert (c.cmdQueueDepth - |line|) % 0x1_0000_0000_0000_0000 == c.cmdQueueDepth - |line|;
      SetLineShape(c, s.queue, act);
      SetLineDepth(c, s.queue, t.rank, t.bank, line + [act]);
      var q1 := SetLine(c, s.queue, t.rank, t.bank, line + [act]);
      assert Line(c, q1, t.rank, t.bank) == line + [act];
      SetLineShape(c, q1, col);
      SetLineDepth(c, q1, t.rank, t.bank, line + [act] + [col]);
    }
  }

  // ---- phases that leave the queue alone ----

  lemma AdvanceRanksQueue(c: Config, s: Sys, i: nat)
    requires Shape(c, s) && i <= c.ranks && AdvanceRanks(c, s, i).Ok?
    ensures AdvanceRanks(c, s, i).value.queue == s.queue
    decreases c.ranks - i
  {
    hide QueueShape, Advance;
    if i < c.ranks {
      AdvanceRanksQueue(c, AdvanceRank(c, s, i).value, i + 1);
    }
  }

  lemma PowerRanksRest(c: Config, s: Sys, i: nat)
    requires c.Sensible() && Shape(c, s) && i <= c.ranks && PowerRanks(c, s, i).Ok?
    ensures var s1 := PowerRanks(c, s, i).value;
      && s1.queue == s.queue && SameWrites(s, s1)
      && s1.history == s.history && s1.transactions == s.transactions
    decreases c.ranks - i
  {
    hide QueueShape, Wake, Sleep, WakeBanks, SleepBanks;
    if i < c.ranks && c.lowPower {
      PowerRanksRest(c, PowerRank(c, s, i).value, i + 1);
    }
  }

  lemma PowerRankWrites(c: Config, s: Sys, i: nat, t: int, e: int)
    requires c.Sensible() && Shape(c, s) && i < c.ranks && PowerRank(c, s, i).Ok? && WritesSpaced(c, s, t, e)
    requires SleepAgrees(c, s, i)
    ensures WritesSpaced(c, PowerRank(c, s, i).value, t, e)
  {
    var s1 := PowerRank(c, s, i).value;
    assert forall r, j :: 0 <= r < c.ranks && 0 <= j < c.banks ==>
      && s1.table[r][j].nextWrite == s.table[r][j].nextWrite && s1.table[r][j].countdown == s.table[r][j].countdown
      && (s.table[r][j].mode.RowActive? <==> s1.table[r][j].mode.RowActive?);
    assert AsPipe(s1) == AsPipe(s);
    hide PowerRank, QueueShape, DramReads.Pipe, DramReads.Busy;
    forall r, j | 0 <= r < c.ranks && 0 <= j < c.banks ensures WriteGap(c, s1.table[r][j], t, e,
        EarliestWrite(c, s1, t)) {
      assert WriteGap(c, s.table[r][j], t, e, EarliestWrite(c, s, t));
    }
  }

  lemma PowerRanksWrites(c: Config, s: Sys, i: nat, e: int)
    requires c.Sensible() && Shape(c, s) && i <= c.ranks && WritesSpaced(c, s, s.now, e)
    requires Related(c, s, s.now + 1, s.now) && BusLegal(c, s, s.now + 1) && AllSleepAgrees(c, s) && BusBusy(c, s)
    ensures PowerRanks(c, s, i).Ok? && WritesSpaced(c, PowerRanks(c, s, i).value, s.now, e)
    decreases c.ranks - i
  {
    hide Shape, Related, BusLegal, BusBusy, WritesSpaced, PowerRank, SleepAgrees;
    if i < c.ranks && c.lowPower {
      PowerRankSafe(c, s, i);
      PowerRankWrites(c, s, i, s.now, e);
      PowerRanksWrites(c, PowerRank(c, s, i).value, i + 1, e);
    }
  }

  // ---- one step ----

  /** Everything that holds between two calls of update. */
  ghost predicate Good(c: Config, s: Sys)
    requires c.Sensible() && Shape(c, s)
  {
    Safe(c, s) && ReadsOk(c, s) && DepthOk(c, s.queue) && (WritesFit(c) ==> WritesOk(c, s))
  }

  /** Everything that holds when the next command is chosen. */
  ghost predicate GoodInside(c: Config, s: Sys)
    requires c.Sensible() && Shape(c, s)
  {
    && s.cmdBus.None? && Related(c, s, s.now, s.now) && AllSleepAgrees(c, s)
    && Conserved(s) && Spaced(c, s, s.now, 0) && DepthOk(c, s.queue)
    && (WritesFit(c) ==> WritesSpaced(c, s, s.now, 0))
  }

  lemma SmallerGap(c: Config, m: Bank, t: int, e: int, limit: int, limit1: int)
    requires WriteGap(c, m, t, e, limit) && e >= 0 && (limit1 <= limit || limit1 <= t)
    ensures WriteGap(c, m, t, e, limit1)
  {
  }

  lemma DeliverCommandWrites(c: Config, s: Sys)
    requires c.Sensible() && Shape(c, s) && DeliverCommand(c, s).Ok?
    ensures var s1 := DeliverCommand(c, s).value; SameWrites(s, s1) && s1.table == s.table
  {
  }

  /** From the countdown at the start of a step to the moment the write data has been sent. */
  lemma BusesWrites(c: Config, s: Sys, s1: Sys, s2: Sys)
    requires c.Sensible() && Shape(c, s) && Shape(c, s1) && Shape(c, s2) && WritesOk(c, s)
    requires SameWrites(s, s1)
    requires forall r, j :: 0 <= r < c.ranks && 0 <= j < c.banks ==>
      WriteGap(c, s1.table[r][j], s.now, 0, EarliestWrite(c, s, s.now - 1))
    requires DeliverCommand(c, s1).Ok? && DeliverData(c, DeliverCommand(c, s1).value) == Ok(s2)
    ensures SendData(c, s2).Ok?
    ensures var s3 := SendData(c, s2).value;
      s3.now == s.now && WritesSpaced(c, s3, s.now, 0)
  {
    hide DeliverCommand, Shape, DramReads.Pipe, DramReads.Busy, DeliverData, SendData, WriteGap, WritesOk,
      WritesSpaced;
    var d := DeliverCommand(c, s1).value;
    DeliverCommandWrites(c, s1);
    WritesOkPipe(c, s);
    assert AsPipe(d) == AsPipe(s1) == AsPipe(s);
    SameWritesKeep(c, s1, d, s.now - 1, 0);
    SendDataWrites(c, d, s2);
    GapsAfterSend(c, s, SendData(c, s2).value);
  }

  lemma WritesOkPipe(c: Config, s: Sys)
    requires c.Sensible() && Shape(c, s) && WritesOk(c, s)
    ensures DramReads.Pipe(c, AsPipe(s))
  {
  }

  lemma GapsAfterSend(c: Config, s: Sys, s3: Sys)
    requires c.Sensible() && Shape(c, s) && Shape(c, s3) && s3.now == s.now && WritesOk(c, s)
    requires DramReads.Pipe(c, AsPipe(s3)) && DramReads.Busy(c, AsPipe(s3)) <= Max(DramReads.Busy(c, AsPipe(s)) - 1, 0)
    requires forall r, j :: 0 <= r < c.ranks && 0 <= j < c.banks ==>
      WriteGap(c, s3.table[r][j], s.now, 0, EarliestWrite(c, s, s.now - 1))
    ensures WritesSpaced(c, s3, s.now, 0)
  {
    hide QueueShape, DramReads.Pipe, DramReads.Busy;
    forall r, j | 0 <= r < c.ranks && 0 <= j < c.banks ensures WriteGap(c, s3.table[r][j], s.now, 0,
        EarliestWrite(c, s3, s.now)) {
      SmallerGap(c, s3.table[r][j], s.now, 0, EarliestWrite(c, s, s.now - 1), EarliestWrite(c, s3, s.now));
    }
  }

  lemma MoveBusesQueue(c: Config, s: Sys)
    requires c.Sensible() && Shape(c, s) && MoveBuses(c, s).Ok?
    ensures MoveBuses(c, s).value.queue == s.queue
  {
    hide QueueShape, Receive;
  }

  /** The first half of a step fails only if write data collides, and that only where writes do not fit. */
  lemma FirstHalfGood(c: Config, s: Sys)
    requires c.Sensible() && Shape(c, s) && Good(c, s)
    ensures Arrive(c, s).Ok?
    ensures match MoveBuses(c, Arrive(c, s).value)
      case Exit(f) => f.DataBusCollision? && !WritesFit(c)
      case Ok(s1) => s1.now == s.now && GoodInside(c, s1)
  {
    ArriveReads(c, s);
    ArriveSafe(c, s);
    var s1 := Arrive(c, s).value;
    MoveBusesSafe(c, s1);
    DeliverCommandSafe(c, s1, s.now);
    DeliverDataSame(c, DeliverCommand(c, s1).value);
    if WritesFit(c) {
      ArriveWrites(c, s);
      BusesWrites(c, s, s1, DeliverData(c, DeliverCommand(c, s1).value).value);
    }
    if MoveBuses(c, s1).Ok? {
      MoveBusesReads(c, s1);
      MoveBusesQueue(c, s1);
      AdvanceRanksQueue(c, s, 0);
      assert s1.queue == s.queue;
      hide Arrive, Safe, Related, AllSleepAgrees, Conserved, Spaced, WritesSpaced, DeliverCommand,
        DeliverData, SendData, Shape;
      SameLinesDepth(c, s.queue, MoveBuses(c, s1).value.queue);
    }
  }

  /** When the command is out and before the power states are looked at. */
  ghost predicate GoodIssued(c: Config, s: Sys)
    requires c.Sensible() && Shape(c, s)
  {
    && Related(c, s, s.now + 1, s.now) && BusLegal(c, s, s.now + 1) && AllSleepAgrees(c, s) && BusBusy(c, s)
    && Conserved(s) && Spaced(c, s, s.now, 1) && DepthOk(c, s.queue)
    && (WritesFit(c) ==> WritesSpaced(c, s, s.now, 1))
  }

  lemma RefreshTimerGood(c: Config, s: Sys)
    requires c.Sensible() && Shape(c, s) && GoodInside(c, s)
    ensures GoodInside(c, RefreshTimer(c, s)) && RefreshTimer(c, s).now == s.now
  {
    hide QueueShape, Related, AllSleepAgrees, Conserved, Spaced, DepthOk, WritesSpaced, BusLegal;
    var s1 := RefreshTimer(c, s);
    RefreshTimerSame(c, s);
    RefreshTimerReads(c, s);
    hide RefreshTimer;
    SameTablesKeep(c, s, s1, s.now, s.now) by {
      assert BusLegal(c, s, s.now) by { NoBusLegal(c, s, s.now); }
    }
    SameReadsKeep(c, s, s1, s.now, 0);
    SameWritesKeep(c, s, s1, s.now, 0);
    SameLinesDepth(c, s.queue, s1.queue);
  }

  lemma NoBusLegal(c: Config, s: Sys, at: nat)
    requires c.Sensible() && Shape(c, s) && s.cmdBus.None?
    ensures BusLegal(c, s, at)
  {
  }

  lemma RefreshTimerReads(c: Config, s: Sys)
    requires c.Sensible() && Shape(c, s)
    ensures var s1 := RefreshTimer(c, s); SameReads(s, s1) && SameWrites(s, s1)
  {
    hide QueueShape;
  }

  lemma IssueNextGood(c: Config, s: Sys)
    requires c.Sensible() && Shape(c, s) && GoodInside(c, s)
    ensures IssueNext(c, s).Ok? && GoodIssued(c, IssueNext(c, s).value) && IssueNext(c, s).value.now == s.now
  {
    hide Shape, Related, AllSleepAgrees, Conserved, Spaced, DepthOk, WritesSpaced, BusLegal,
      BusBusy, IssueNext;
    IssueNextSafe(c, s);
    IssueNextReads(c, s);
    IssueNextDepth(c, s);
    if WritesFit(c) {
      IssueNextWrites(c, s);
    }
  }

  lemma IssueNextDepth(c: Config, s: Sys)
    requires c.Sensible() && Shape(c, s) && DepthOk(c, s.queue) && IssueNext(c, s).Ok?
    ensures DepthOk(c, IssueNext(c, s).value.queue)
  {
    hide QueueShape, DepthOk;
    PopDepth(c, s.queue, s.table, s.now);
  }

  lemma ScheduleGood(c: Config, s: Sys)
    requires c.Sensible() && Shape(c, s) && GoodIssued(c, s)
    ensures Schedule(c, s).Ok? && GoodIssued(c, Schedule(c, s).value) && Schedule(c, s).value.now == s.now
  {
    hide Shape, Related, AllSleepAgrees, Conserved, Spaced, DepthOk, WritesSpaced, BusLegal, Schedule;
    ScheduleDepth(c, s);
    var s1 := Schedule(c, s).value;
    ScheduleSame(c, s);
    ScheduleWrites(c, s);
    SameTablesKeep(c, s, s1, s.now + 1, s.now);
    ScheduleReads(c, s, s.now, 1);
    SameWritesKeep(c, s, s1, s.now, 1);
  }

  lemma ScheduleWrites(c: Config, s: Sys)
    requires c.Sensible() && Shape(c, s) && Schedule(c, s).Ok?
    ensures SameWrites(s, Schedule(c, s).value)
  {
    hide QueueShape;
  }

  lemma CloseGood(c: Config, s: Sys)
    requires c.Sensible() && Shape(c, s) && GoodIssued(c, s)
    ensures Close(c, s).Ok? && Good(c, Close(c, s).value)
  {
    hide QueueShape, Related, AllSleepAgrees, Conserved, Spaced, DepthOk, WritesSpaced, BusLegal, BusBusy,
      PowerRanks, ReturnRead, Safe;
    CloseSafe(c, s);
    PowerRanksReads(c, s, 0, 1);
    PowerRanksRest(c, s, 0);
    var s1 := PowerRanks(c, s, 0).value;
    ReturnFindsRead(c, s1);
    var s2 := ReturnRead(c, s1).value;
    ReturnReadSpaced(c, s1, s.now, 1);
    var s3 := EndCycle(c, s2);
    EndCycleReads(c, s2);
    ReturnReadQueue(c, s1);
    if WritesFit(c) {
      PowerRanksWrites(c, s, 0, 1);
      SameWritesKeep(c, s, s1, s.now, 1);
      SameWritesKeep(c, s1, s2, s.now, 1);
      EndCycleWrites(c, s2);
    }
  }

  lemma ReturnReadQueue(c: Config, s: Sys)
    requires Shape(c, s) && ReturnRead(c, s).Ok?
    ensures var s1 := ReturnRead(c, s).value;
      s1.queue == s.queue && SameWrites(s, s1) && s1.table == s.table && s1.now == s.now
  {
    hide QueueShape;
  }

  lemma ReturnReadSpaced(c: Config, s: Sys, t: int, e: int)
    requires Shape(c, s) && ReturnRead(c, s).Ok? && Spaced(c, s, t, e)
    ensures Spaced(c, ReturnRead(c, s).value, t, e)
  {
    SameSpaced(c, s, ReturnRead(c, s).value, t, e);
  }

  lemma EndCycleReads(c: Config, s: Sys)
    requires c.Sensible() && Shape(c, s) && Conserved(s) && Spaced(c, s, s.now, 1)
    ensures ReadsOk(c, EndCycle(c, s))
  {
    var s1 := EndCycle(c, s);
    SameSpaced(c, s, s1, s.now, 1);
    forall a ensures OnTheWay(s1, a) == OnTheWay(s, a) {
    }
  }

  lemma EndCycleWrites(c: Config, s: Sys)
    requires c.Sensible() && Shape(c, s) && WritesSpaced(c, s, s.now, 1)
    ensures WritesOk(c, EndCycle(c, s))
  {
    var s1 := EndCycle(c, s);
    assert AsPipe(s1) == AsPipe(s);
    hide QueueShape, DramReads.Pipe, DramReads.Busy;
    forall r, j | 0 <= r < c.ranks && 0 <= j < c.banks ensures WriteGap(c, s1.table[r][j], s.now, 1,
        EarliestWrite(c, s1, s.now)) {
      assert WriteGap(c, s.table[r][j], s.now, 1, EarliestWrite(c, s, s.now));
    }
  }

  /** One call of update keeps everything, and ends the simulation only where write data can collide. */
  lemma StepGood(c: Config, s: Sys)
    requires c.Sensible() && Shape(c, s) && Good(c, s)
    ensures match Step(c, s)
      case Exit(f) => f.DataBusCollision? && !WritesFit(c)
      case Ok(s1) => Good(c, s1)
  {
    hide Shape, Good, GoodInside, GoodIssued, Arrive, MoveBuses, IssueNext, Schedule, Close, RefreshTimer;
    FirstHalfGood(c, s);
    var s1 := Arrive(c, s).value;
    if MoveBuses(c, s1).Ok? {
      var s2 := MoveBuses(c, s1).value;
      RefreshTimerGood(c, s2);
      IssueNextGood(c, RefreshTimer(c, s2));
      ScheduleGood(c, IssueNext(c, RefreshTimer(c, s2)).value);
      CloseGood(c, Command(c, s2).value);
    }
  }

  lemma OfferGood(c: Config, s: Sys, t: Transaction)
    requires c.Sensible() && Shape(c, s) && Good(c, s) && Placed(c, t)
    ensures Good(c, Offer(c, s, t)) && Good(c, Submit(c, s, t))
  {
    hide QueueShape, Related, AllSleepAgrees, Conserved, Spaced, DepthOk, WritesSpaced, BusLegal;
    var o := Offer(c, s, t);
    SameTablesKeep(c, s, o, s.now, s.now - 1);
    OfferConserves(c, s, t);
    OfferSpaced(c, s, t, s.now - 1, 1);
    SameWritesKeep(c, s, o, s.now - 1, 1);
    var w := s.(waiting := s.waiting + [t]);
    if !WillAccept(c, s) {
      SameTablesKeep(c, s, w, s.now, s.now - 1);
      SameReadsKeep(c, s, w, s.now - 1, 1);
      SameWritesKeep(c, s, w, s.now - 1, 1);
    }
  }

  lemma InitialGood(c: Config, s: Sys)
    requires c.Sensible() && Shape(c, s) && Initial(c, s)
    ensures Good(c, s)
  {
    InitialSafe(c, s);
    forall a ensures OnTheWay(s, a) == 0 {
      forall r, k | 0 <= r < c.ranks && 0 <= k < |s.queue.queues[r]| ensures LineWeight(a)(s.queue.queues[r][k]) == 0 {
        assert s.queue.queues[r][k] == [];
      }
      forall r | 0 <= r < c.ranks ensures LinesWeight(a)(s.queue.queues[r]) == 0 {
        SumPositive(s.queue.queues[r], LineWeight(a));
      }
      SumPositive(s.queue.queues, LinesWeight(a));
      forall r | 0 <= r < c.ranks ensures RankWeight(a)(s.ranks[r]) == 0 {
        assert s.ranks[r] == FreshRank(c);
      }
      SumPositive(s.ranks, RankWeight(a));
    }
    InitialRest(c, s);
  }

  lemma InitialRest(c: Config, s: Sys)
    requires c.Sensible() && Shape(c, s) && Initial(c, s)
    ensures Spaced(c, s, -1, 1) && DepthOk(c, s.queue) && WritesOk(c, s)
  {
    forall r, b | 0 <= r < c.ranks && 0 <= b < c.banks ensures |Line(c, s.queue, r, b)| <= c.cmdQueueDepth {
      assert Line(c, s.queue, r, b) == s.queue.queues[r][Slot(c, b)];
    }
    forall r | 0 <= r < c.ranks ensures RankSpaced(c, s, r, -1, 1) {
      assert s.ranks[r] == FreshRank(c);
    }
  }

  lemma {:induction false} RunGood(c: Config, s: Sys, ops: seq<Op>)
    requires c.Sensible() && Shape(c, s) && Good(c, s) && forall i :: 0 <= i < |ops| ==> ValidOp(c, ops[i])
    ensures match Run(c, s, ops)
      case Exit(f) => f.DataBusCollision? && !WritesFit(c)
      case Ok(s1) => Good(c, s1)
    decreases |ops|
  {
    hide Shape, Good, Step, Submit, Offer;
    if ops != [] {
      match ops[0] {
        case Request(t) => OfferGood(c, s, t);
        case Direct(t) => OfferGood(c, s, t);
        case Cycle => StepGood(c, s);
      }
      if Do(c, s, ops[0]).Ok? {
        RunGood(c, Do(c, s, ops[0]).value, ops[1..]);
      }
    }
  }

  // ---- the main results, from the initial state on ----

  /**
   Whatever is asked of the memory system and for however long, no error exit is reached, with the one
   exception of write data colliding where a freshly opened row can be written too soon.
  */
  lemma NoExitReachable(c: Config, s: Sys, ops: seq<Op>)
    requires c.Sensible() && Initial(c, s) && forall i :: 0 <= i < |ops| ==> ValidOp(c, ops[i])
    ensures WritesFit(c) ==> Run(c, s, ops).Ok?
    ensures Run(c, s, ops).Exit? ==> Run(c, s, ops).fault.DataBusCollision?
  {
    InitialGood(c, s);
    RunGood(c, s, ops);
  }

  /** In every run each accepted read is waiting, under way, or answered, and never two of these. */
  lemma ReadsConserved(c: Config, s: Sys, ops: seq<Op>, a: nat)
    requires c.Sensible() && Initial(c, s) && forall i :: 0 <= i < |ops| ==> ValidOp(c, ops[i])
    requires Run(c, s, ops).Ok?
    ensures var e := Run(c, s, ops).value;
      Sum(e.history.accepted, ReadWeight(a)) ==
        Sum(e.transactions, ReadWeight(a)) + OnTheWay(e, a) + Sum(e.history.answered, AddrWeight(a))
  {
    InitialGood(c, s);
    RunGood(c, s, ops);
  }
}
