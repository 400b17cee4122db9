/**
 Steps in which no refresh is near and no bank but one has commands queued, and how runs are put together.
 What pop gives and the new transaction then decide about every rank's entries.
*/
module DramCalm {
  import opened Wrappers
  import opened DramTypes
  import opened DramBank
  import opened DramQueue
  import opened DramRank
  import opened DramSystem
  import opened DramSafety
  import opened DramOrder
  import opened DramTheorems
  import opened DramOrderTheorems
  import opened DramOneBank
  import opened DramSleep

  // ---- one step, as the controller sees it ----

  /** The same for everything that decides about writes. */
  predicate SameView(s: Sys, s1: Sys) {
    && s1.now == s.now && s1.table == s.table && s1.queue == s.queue && s1.writes == s.writes
    && s1.dataBus == s.dataBus && s1.dataLeft == s.dataLeft && s1.refreshCountdown == s.refreshCountdown
    && s1.refreshRank == s.refreshRank && s1.transactions == s.transactions && s1.waiting == s.waiting
  }

  lemma {:induction false} AdvanceRanksView(c: Config, s: Sys, i: nat)
    requires Shape(c, s) && i <= |s.ranks| && AdvanceRanks(c, s, i).Ok?
    ensures SameView(s, AdvanceRanks(c, s, i).value)
    decreases |s.ranks| - i
  {
    hide QueueShape, Advance;
    if i < |s.ranks| {
      AdvanceRanksView(c, AdvanceRank(c, s, i).value, i + 1);
    }
  }

  lemma ArriveView(c: Config, s: Sys)
    requires c.Sensible() && Shape(c, s) && s.waiting == [] && Arrive(c, s).Ok?
    ensures SameView(s.(table := TickTable(c, s.table)), Arrive(c, s).value)
  {
    AdvanceRanksView(c, s, 0);
    hide QueueShape, AdvanceRanks;
  }

  /** The write data still to be sent after the buses have moved. */
  function MovedWrites(s: Sys): seq<Return> {
    var ws := CountReturns(s.writes);
    if |ws| > 0 && ws[0].left == 0 then ws[1..] else ws
  }

  /** The data bus before and after it has moved; it must be free when write data is due. */
  predicate BusMoved(c: Config, s: Sys, s1: Sys) {
    var bus := if s.dataBus.Some? && Dec32(s.dataLeft) != 0 then s.dataBus else None;
    var ws := CountReturns(s.writes);
    if |ws| > 0 && ws[0].left == 0 then
      bus.None? && s1.dataBus == Some(ws[0].packet) && s1.dataLeft == c.Burst()
    else
      s1.dataBus == bus && (bus.Some? ==> s1.dataLeft == Dec32(s.dataLeft))
  }

  lemma BusesView(c: Config, s: Sys)
    requires c.Sensible() && Shape(c, s) && MoveBuses(c, s).Ok?
    ensures var s1 := MoveBuses(c, s).value;
      SameView(s.(writes := s1.writes, dataBus := s1.dataBus, dataLeft := s1.dataLeft), s1)
      && BusMoved(c, s, s1) && s1.writes == MovedWrites(s)
  {
    hide Shape, DeliverCommand, DeliverData, SendData, CountReturns;
    CommandDelivered(c, s);
    var s1 := DeliverCommand(c, s).value;
    DataDelivered(c, s1);
    SendView(c, DeliverData(c, s1).value);
  }

  lemma CommandDelivered(c: Config, s: Sys)
    requires c.Sensible() && Shape(c, s) && DeliverCommand(c, s).Ok?
    ensures SameView(s, DeliverCommand(c, s).value)
  {
    hide Shape, Receive;
  }

  lemma DataDelivered(c: Config, s: Sys)
    requires c.Sensible() && Shape(c, s) && DeliverData(c, s).Ok?
    ensures var s1 := DeliverData(c, s).value;
      && SameView(s.(dataBus := s1.dataBus, dataLeft := s1.dataLeft), s1)
      && s1.dataBus == (if s.dataBus.Some? && Dec32(s.dataLeft) != 0 then s.dataBus else None)
      && (s1.dataBus.Some? ==> s1.dataLeft == Dec32(s.dataLeft))
  {
    hide Shape, Receive;
  }

  lemma SendView(c: Config, s: Sys)
    requires Shape(c, s) && SendData(c, s).Ok?
    ensures var s1 := SendData(c, s).value;
      && SameView(s.(writes := s1.writes, dataBus := s1.dataBus, dataLeft := s1.dataLeft), s1)
      && s1.writes == MovedWrites(s)
      && (if |CountReturns(s.writes)| > 0 && CountReturns(s.writes)[0].left == 0 then
            s.dataBus.None? && s1.dataBus == Some(CountReturns(s.writes)[0].packet) && s1.dataLeft == c.Burst()
          else s1.dataBus == s.dataBus && s1.dataLeft == s.dataLeft)
  {
    hide Shape, CountReturns;
  }

  lemma RefreshView(c: Config, s: Sys)
    requires c.Sensible() && Shape(c, s) && forall r :: 0 <= r < c.ranks ==> s.refreshCountdown[r] >= 1
    ensures SameView(s, RefreshTimer(c, s))
  {
  }

  lemma IssueView(c: Config, s: Sys)
    requires c.Sensible() && Shape(c, s) && IssueNext(c, s).Ok?
    ensures var (q1, popped) := DramQueue.Pop(c, s.queue, s.table, s.now);
      SameView(s.(queue := q1,
                  table := if popped.None? then s.table else IssueTable(c, s.table, popped.value, s.now),
                  writes := if popped.Some? && popped.value.kind.IsWrite()
                            then s.writes + [Return(popped.value.(kind := Data), c.WL())] else s.writes),
               IssueNext(c, s).value)
  {
    hide DramQueue.Pop, QueueShape, IssueTable;
  }

  /** The queues after the transactions, one at most, were turned into commands. */
  function NextLines(c: Config, s: Sys, lines: seq<seq<Packet>>): seq<seq<Packet>>
    requires |lines| == c.ranks && forall i :: 0 <= i < |s.transactions| ==> Placed(c, s.transactions[i])
  {
    if s.transactions == [] then lines
    else
      var t := s.transactions[0];
      assert Placed(c, t);
      lines[t.rank := Pair(c, t)]
  }

  function Pair(c: Config, t: Transaction): seq<Packet> { [ActivateFor(t), ColumnFor(c, t)] }

  /** One transaction at most waits, and its queue is empty. */
  predicate CanSchedule(c: Config, s: Sys, bt: nat, lines: seq<seq<Packet>>)
    requires |lines| == c.ranks
  {
    || s.transactions == []
    || (|s.transactions| == 1 &&
        var t := s.transactions[0]; Placed(c, t) && t.bank == bt && lines[t.rank] == [])
  }

  lemma ScheduleView(c: Config, s: Sys, bt: nat, lines: seq<seq<Packet>>)
    requires c.Sensible() && Shape(c, s) && Schedule(c, s).Ok? && bt < c.banks && |lines| == c.ranks
    requires c.cmdQueueDepth >= 2 && Only(c, s.queue, bt, lines) && Plain(c, s.queue) && CanSchedule(c, s, bt, lines)
    ensures var s1 := Schedule(c, s).value;
      && SameView(s.(queue := s1.queue, transactions := []), s1) && Plain(c, s1.queue) && s1.queue.faw == s.queue.faw
      && Only(c, s1.queue, bt, NextLines(c, s, lines))
  {
    if s.transactions != [] {
      var t := s.transactions[0];
      assert Line(c, s.queue, t.rank, t.bank) == [];
      assert HasRoom(c, s.queue, 2, t.rank, t.bank);
      var s1 := Schedule(c, s).value;
      forall r, b | 0 <= r < c.ranks && 0 <= b < c.banks
        ensures Line(c, s1.queue, r, b) == if Slot(c, b) == Slot(c, bt) then NextLines(c, s, lines)[r] else []
      {
        ScheduledLine(c, s, Key(r, b, Some(0)));
      }
      ScheduleRest(c, s);
      hide QueueShape, Schedule;
    }
  }

  lemma ScheduleRest(c: Config, s: Sys)
    requires c.Sensible() && Shape(c, s) && Schedule(c, s).Ok?
    ensures var s1 := Schedule(c, s).value;
      && s1.queue == s.queue.(queues := s1.queue.queues)
      && SameView(s.(queue := s1.queue, transactions := s1.transactions), s1)
      && (FirstSchedulable(c, s, 0) == 0 && |s.transactions| == 1 ==> s1.transactions == [])
  {
    hide QueueShape, FirstSchedulable, TableShape;
  }

  // ---- a calm step ----

  /** No rank has been asked to wake up for its refresh. */
  predicate NoneAsked(s: Sys) { forall r :: 0 <= r < |s.ranks| ==> !s.ranks[r].refreshWaiting }

  /** Every rank's next refresh is due only after so many cycles. */
  predicate RefreshesLate(c: Config, s: Sys, m: nat) {
    forall r :: 0 <= r < |s.refreshCountdown| ==> s.refreshCountdown[r] >= m
  }

  /** Only the queues of bank bt hold anything, nothing waits outside, and no refresh is near for m cycles. */
  ghost predicate Calm(c: Config, s: Sys, m: nat, bt: nat, lines: seq<seq<Packet>>) {
    && c.Sensible() && c.cmdQueueDepth >= 2 && bt < c.banks && |lines| == c.ranks && Shape(c, s) && Good(c, s)
    && s.waiting == [] && RefreshesLate(c, s, m + c.tXP + 1) && NoneAsked(s)
    && Plain(c, s.queue) && Only(c, s.queue, bt, lines)
  }

  /** A rank's activate window after one cycle. */
  function Window(c: Config, w: seq<nat>, r: nat, popped: Option<Packet>): seq<nat> {
    if popped.Some? && popped.value.kind.Activate? && popped.value.rank == r then Age(w) + [c.tFAW] else Age(w)
  }

  ghost predicate Windows(c: Config, s: Sys, q1: QueueState, popped: Option<Packet>) {
    && |q1.faw| == |s.queue.faw| == c.ranks
    && forall r :: 0 <= r < c.ranks ==> q1.faw[r] == Window(c, s.queue.faw[r], r, popped)
  }

  /** The next pop gives this, and leaves lines1. */
  ghost predicate Pops(c: Config, s: Sys, bt: nat, popped: Option<Packet>, lines1: seq<seq<Packet>>)
    requires c.Sensible() && Shape(c, s) && bt < c.banks
  {
    var (q1, p) := DramQueue.Pop(c, s.queue, TickTable(c, s.table), s.now);
    p == popped && |lines1| == c.ranks && Plain(c, q1) && Only(c, q1, bt, lines1) && Windows(c, s, q1, popped)
  }

  /** The entries of rank r after the countdown and a command. */
  function Moved(c: Config, ms: seq<Bank>, r: nat, popped: Option<Packet>, now: nat): (ms1: seq<Bank>)
    requires c.Sensible()
    ensures |ms1| == |ms|
  {
    seq(|ms|, j requires 0 <= j < |ms| =>
      if popped.None? then Tick(c, ms[j]) else Issue(c, Tick(c, ms[j]), r, j, popped.value, now))
  }

  /** A rank's entries after its power state was looked at. */
  function Powered(c: Config, ms: seq<Bank>, empty: bool, now: nat): (ms1: seq<Bank>)
    requires |ms| > 0
    ensures |ms1| == |ms|
  {
    if !c.lowPower then ms
    else if empty then (if forall j :: 0 <= j < |ms| ==> ms[j].mode.Idle? then SleepBanks(c, ms, now) else ms)
    else if ms[0].mode.PowerDown? && now >= ms[0].nextPowerUp then WakeBanks(c, ms, now)
    else ms
  }

  // ---- the first half ----

  lemma AdvanceRanksAsks(c: Config, s: Sys, i: nat)
    requires Shape(c, s) && i <= c.ranks && AdvanceRanks(c, s, i).Ok? && NoneAsked(s)
    ensures NoneAsked(AdvanceRanks(c, s, i).value)
    decreases c.ranks - i
  {
    hide QueueShape;
    if i < c.ranks {
      AdvanceRanksAsks(c, AdvanceRank(c, s, i).value, i + 1);
    }
  }

  lemma ArriveAsks(c: Config, s: Sys)
    requires c.Sensible() && Shape(c, s) && NoneAsked(s) && Arrive(c, s).Ok?
    ensures NoneAsked(Arrive(c, s).value)
  {
    hide QueueShape, AdvanceRanks;
    AdvanceRanksAsks(c, s, 0);
  }

  lemma MoveBusesAsks(c: Config, s: Sys)
    requires c.Sensible() && Shape(c, s) && NoneAsked(s) && MoveBuses(c, s).Ok?
    ensures NoneAsked(MoveBuses(c, s).value)
  {
    hide QueueShape, DeliverCommand, DeliverData;
    DeliverAsks(c, s);
    DeliverAsks(c, DeliverCommand(c, s).value);
  }

  lemma DeliverAsks(c: Config, s: Sys)
    requires c.Sensible() && Shape(c, s) && NoneAsked(s)
    ensures DeliverCommand(c, s).Ok? ==> NoneAsked(DeliverCommand(c, s).value)
    ensures DeliverData(c, s).Ok? ==> NoneAsked(DeliverData(c, s).value)
  {
    hide QueueShape, Legal;
  }

  lemma RefreshTimerAsks(c: Config, s: Sys)
    requires c.Sensible() && Shape(c, s) && NoneAsked(s) && RefreshesLate(c, s, c.tXP + 1)
    ensures NoneAsked(RefreshTimer(c, s))
  {
    hide QueueShape;
  }

  /** What the pop finds. */
  ghost predicate Found(c: Config, s: Sys, s3: Sys) {
    && c.Sensible() && Shape(c, s) && Shape(c, s3) && GoodInside(c, s3) && NoneAsked(s3)
    && s3.now == s.now && s3.queue == s.queue && s3.table == TickTable(c, s.table)
    && s3.transactions == s.transactions && s3.waiting == s.waiting && s3.refreshCountdown == s.refreshCountdown
    && s3.history.issued == s.history.issued && s3.writes == MovedWrites(s) && BusMoved(c, s, s3)
  }

  lemma UpToPop(c: Config, s: Sys)
    requires c.Sensible() && Shape(c, s) && Good(c, s) && s.waiting == [] && NoneAsked(s)
    requires RefreshesLate(c, s, c.tXP + 1) && Arrive(c, s).Ok? && MoveBuses(c, Arrive(c, s).value).Ok?
    ensures Found(c, s, RefreshTimer(c, MoveBuses(c, Arrive(c, s).value).value))
  {
    hide Shape, Good, GoodInside, Arrive, MoveBuses, RefreshTimer, MovedWrites, BusMoved;
    FirstHalfGood(c, s);
    var s1 := Arrive(c, s).value;
    ArriveView(c, s);
    ArriveTable(c, s);
    ArriveAsks(c, s);
    var s2 := MoveBuses(c, s1).value;
    BusesView(c, s1);
    MoveBusesOrder(c, s1);
    MoveBusesAsks(c, s1);
    assert RefreshesLate(c, s2, c.tXP + 1);
    RefreshTimerGood(c, s2);
    RefreshTimerOrder(c, s2);
    RefreshTimerAsks(c, s2);
    LateView(c, s2);
    SameBuses(c, s, s1, s2, RefreshTimer(c, s2));
  }

  lemma LateView(c: Config, s: Sys)
    requires c.Sensible() && Shape(c, s) && RefreshesLate(c, s, c.tXP + 1)
    ensures SameView(s, RefreshTimer(c, s))
  {
    RefreshView(c, s);
  }

  /** Only the state of the bus and the waiting write data matters to its move. */
  lemma SameBuses(c: Config, s: Sys, s1: Sys, e1: Sys, e: Sys)
    requires BusMoved(c, s1, e1) && s1.dataBus == s.dataBus && s1.dataLeft == s.dataLeft && s1.writes == s.writes
    requires e.dataBus == e1.dataBus && e.dataLeft == e1.dataLeft
    ensures BusMoved(c, s, e) && MovedWrites(s1) == MovedWrites(s)
  {
  }

  // ---- the second half ----

  /** The write data that follows a command. */
  function Pushed(c: Config, popped: Option<Packet>): seq<Return>
    requires c.Sensible()
  {
    if popped.Some? && popped.value.kind.IsWrite() then [Return(popped.value.(kind := Data), c.WL())] else []
  }

  function Issued(popped: Option<Packet>, now: nat): seq<Event> {
    if popped.None? then [] else [Event(popped.value, now)]
  }

  /** How the pop's choice and the new transaction leave the state, before the power states are looked at. */
  ghost predicate Queued(c: Config, s3: Sys, s5: Sys, bt: nat, popped: Option<Packet>, lines: seq<seq<Packet>>) {
    && c.Sensible() && Shape(c, s3) && Shape(c, s5) && GoodIssued(c, s5) && bt < c.banks && |lines| == c.ranks
    && s5.now == s3.now && s5.ranks == s3.ranks && s5.waiting == s3.waiting && s5.transactions == []
    && s5.refreshCountdown == s3.refreshCountdown
    && Plain(c, s5.queue) && Only(c, s5.queue, bt, lines) && Windows(c, s3, s5.queue, popped)
    && s5.table == (if popped.None? then s3.table else IssueTable(c, s3.table, popped.value, s3.now))
    && s5.history.issued == s3.history.issued + Issued(popped, s3.now)
    && s5.writes == s3.writes + Pushed(c, popped) && s5.dataBus == s3.dataBus && s5.dataLeft == s3.dataLeft
  }

  lemma FromPop(c: Config, s3: Sys, bt: nat, popped: Option<Packet>, lines1: seq<seq<Packet>>)
    requires c.Sensible() && Shape(c, s3) && GoodInside(c, s3) && bt < c.banks && c.cmdQueueDepth >= 2
    requires |lines1| == c.ranks && CanSchedule(c, s3, bt, lines1)
    requires var (q1, p) := DramQueue.Pop(c, s3.queue, s3.table, s3.now);
      p == popped && Plain(c, q1) && Only(c, q1, bt, lines1) && Windows(c, s3, q1, popped)
    ensures IssueNext(c, s3).Ok? && Schedule(c, IssueNext(c, s3).value).Ok?
    ensures Queued(c, s3, Schedule(c, IssueNext(c, s3).value).value, bt, popped, NextLines(c, s3, lines1))
  {
    hide QueueShape, GoodInside, GoodIssued, IssueNext, Schedule, DramQueue.Pop, IssueTable, TableShape, Plain, Only;
    IssueNextGood(c, s3);
    var s4 := IssueNext(c, s3).value;
    IssueView(c, s3);
    IssueRanks(c, s3);
    ScheduleGood(c, s4);
    ScheduleKeeps(c, s4);
    ScheduleRanks(c, s4);
    ScheduleView(c, s4, bt, lines1);
  }

  lemma IssueRanks(c: Config, s: Sys)
    requires c.Sensible() && Shape(c, s) && IssueNext(c, s).Ok?
    ensures var s1 := IssueNext(c, s).value; var popped := DramQueue.Pop(c, s.queue, s.table, s.now).1;
      && s1.ranks == s.ranks
      && s1.history.issued == s.history.issued + (if popped.None? then [] else [Event(popped.value, s.now)])
  {
    hide QueueShape, DramQueue.Pop, IssueTable;
  }

  lemma ScheduleRanks(c: Config, s: Sys)
    requires c.Sensible() && Shape(c, s) && Schedule(c, s).Ok?
    ensures var s1 := Schedule(c, s).value; s1.ranks == s.ranks && s1.history.issued == s.history.issued
  {
    hide QueueShape, FirstSchedulable;
  }

  // ---- power states ----

  /** Looking at a power state changes nothing but the sleeper. */
  ghost predicate SamePower(c: Config, s: Sys, s1: Sys) {
    && Shape(c, s) && Shape(c, s1)
    && s1 == s.(table := s1.table, ranks := s1.ranks, powerDown := s1.powerDown)
    && (NoneAsked(s) ==> NoneAsked(s1))
  }

  lemma PowerRankSame(c: Config, s: Sys, i: nat)
    requires c.Sensible() && Shape(c, s) && i < c.ranks && PowerRank(c, s, i).Ok? && SleepAgrees(c, s, i)
    ensures var s1 := PowerRank(c, s, i).value;
      SamePower(c, s, s1) && forall r :: 0 <= r < c.ranks && r != i ==> s1.table[r] == s.table[r]
  {
    PowerRankSteps(c, s, i);
    hide QueueShape, Empty, SleepAgrees, WakeBanks, SleepBanks;
    var s1 := PowerRank(c, s, i).value;
    assert s1 == s.(table := s1.table, ranks := s1.ranks, powerDown := s1.powerDown);
    assert NoneAsked(s) ==> NoneAsked(s1);
    hide PowerRank;
  }

  lemma PowerRankRow(c: Config, s: Sys, i: nat)
    requires c.Sensible() && c.lowPower && Shape(c, s) && i < c.ranks && PowerRank(c, s, i).Ok?
    requires SleepAgrees(c, s, i) && NoneAsked(s)
    ensures PowerRank(c, s, i).value.table[i] == Powered(c, s.table[i], Empty(c, s.queue, i), s.now)
  {
    hide QueueShape, Empty, Wake, Sleep, WakeBanks, SleepBanks;
  }

  /** The entries of rank r once the ranks from i on have been looked at. */
  function PoweredFrom(c: Config, s: Sys, i: nat, r: nat): seq<Bank>
    requires c.Sensible() && Shape(c, s) && r < c.ranks
  {
    if r < i then s.table[r] else Powered(c, s.table[r], Empty(c, s.queue, r), s.now)
  }

  lemma {:induction false} PowerRanksRows(c: Config, s: Sys, i: nat)
    requires c.Sensible() && c.lowPower && Shape(c, s) && i <= c.ranks && NoneAsked(s)
    requires Related(c, s, s.now + 1, s.now) && BusLegal(c, s, s.now + 1) && AllSleepAgrees(c, s) && BusBusy(c, s)
    ensures PowerRanks(c, s, i).Ok? && SamePower(c, s, PowerRanks(c, s, i).value)
    ensures forall r :: 0 <= r < c.ranks ==> PowerRanks(c, s, i).value.table[r] == PoweredFrom(c, s, i, r)
    decreases c.ranks - i
  {
    hide Related, BusLegal, BusBusy, AllSleepAgrees, PowerRank, SleepAgrees, QueueShape, NoneAsked, Powered, Empty;
    if i < c.ranks {
      RankAgrees(c, s, i);
      PowerRankSafe(c, s, i);
      PowerRankSame(c, s, i);
      PowerRankRow(c, s, i);
      PowerRanksRows(c, PowerRank(c, s, i).value, i + 1);
    }
  }

  lemma RankAgrees(c: Config, s: Sys, r: nat)
    requires Shape(c, s) && AllSleepAgrees(c, s) && r < c.ranks
    ensures SleepAgrees(c, s, r)
  {
  }

  lemma OnlyEmpty(c: Config, q: QueueState, bt: nat, lines: seq<seq<Packet>>, r: nat)
    requires c.Sensible() && QueueShape(c, q) && bt < c.banks && |lines| == c.ranks && r < c.ranks
    requires Only(c, q, bt, lines)
    ensures Empty(c, q, r) <==> lines[r] == []
  {
    assert Line(c, q, r, bt) == lines[r];
    forall k | 0 <= k < c.QueuesPerRank() && lines[r] == [] ensures q.queues[r][k] == [] {
      assert q.queues[r][k] == Line(c, q, r, k);
    }
  }

  /** Every rank's entries after the power states were looked at. */
  ghost predicate AllPowered(c: Config, s: Sys, t: Table, lines: seq<seq<Packet>>) {
    && TableShape(c, s.table) && TableShape(c, t) && |lines| == c.ranks && c.banks > 0
    && forall r :: 0 <= r < c.ranks ==> t[r] == Powered(c, s.table[r], lines[r] == [], s.now)
  }

  lemma RanksPowered(c: Config, s: Sys, bt: nat, lines: seq<seq<Packet>>)
    requires c.Sensible() && Shape(c, s) && GoodIssued(c, s) && NoneAsked(s)
    requires bt < c.banks && |lines| == c.ranks && Only(c, s.queue, bt, lines)
    ensures PowerRanks(c, s, 0).Ok? && SamePower(c, s, PowerRanks(c, s, 0).value)
    ensures AllPowered(c, s, PowerRanks(c, s, 0).value.table, lines)
  {
    hide QueueShape, Only, Empty, Powered, PowerRank, Related, BusLegal, BusBusy, AllSleepAgrees, NoneAsked;
    if c.lowPower {
      PowerRanksRows(c, s, 0);
      hide PowerRanks;
      forall r | 0 <= r < c.ranks
        ensures PowerRanks(c, s, 0).value.table[r] == Powered(c, s.table[r], lines[r] == [], s.now)
      {
        OnlyEmpty(c, s.queue, bt, lines, r);
        assert PowerRanks(c, s, 0).value.table[r] == PoweredFrom(c, s, 0, r);
      }
    } else {
      NoPower(c, s);
    }
  }

  lemma NoPower(c: Config, s: Sys)
    requires c.Sensible() && Shape(c, s) && !c.lowPower
    ensures PowerRanks(c, s, 0) == Ok(s)
    ensures forall r :: 0 <= r < c.ranks ==> forall empty :: Powered(c, s.table[r], empty, s.now) == s.table[r]
  {
  }

  /** The rest of the step. */
  lemma AfterQueued(c: Config, s: Sys, bt: nat, lines: seq<seq<Packet>>)
    requires c.Sensible() && Shape(c, s) && GoodIssued(c, s) && NoneAsked(s)
    requires bt < c.banks && |lines| == c.ranks && Only(c, s.queue, bt, lines)
    ensures Close(c, s).Ok? && Good(c, Close(c, s).value)
    ensures var e := Close(c, s).value;
      && e.queue == s.queue && e.transactions == s.transactions && e.waiting == s.waiting && e.now == s.now + 1
      && e.refreshCountdown == CountRefresh(s.refreshCountdown) && e.history.issued == s.history.issued
      && e.writes == s.writes && e.dataBus == s.dataBus && e.dataLeft == s.dataLeft && NoneAsked(e)
      && AllPowered(c, s, e.table, lines)
  {
    CloseGood(c, s);
    RanksPowered(c, s, bt, lines);
    hide GoodIssued, Good, QueueShape, PowerRanks, AllPowered, FindPending;
    AllPoweredTable(c, s, PowerRanks(c, s, 0).value.table, lines);
  }

  lemma AllPoweredTable(c: Config, s: Sys, t: Table, lines: seq<seq<Packet>>)
    requires AllPowered(c, s, t, lines)
    ensures TableShape(c, t)
  {
  }

  lemma TableMoves(c: Config, t: Table, popped: Option<Packet>, now: nat)
    requires c.Sensible() && TableShape(c, t)
    ensures var t1 := TickTable(c, t); var t2 := if popped.None? then t1 else IssueTable(c, t1, popped.value, now);
      forall r :: 0 <= r < c.ranks ==> t2[r] == Moved(c, t[r], r, popped, now)
  {
    hide Tick, Issue;
  }

  /** Every rank's entries after a step. */
  ghost predicate RowsAfter(c: Config, s: Sys, e: Sys, popped: Option<Packet>, lines: seq<seq<Packet>>) {
    && c.Sensible() && TableShape(c, s.table) && TableShape(c, e.table) && |lines| == c.ranks
    && forall r :: 0 <= r < c.ranks ==>
         e.table[r] == Powered(c, Moved(c, s.table[r], r, popped, s.now), lines[r] == [], s.now)
  }

  /** What a calm step does. */
  ghost predicate StepsTo(c: Config, s: Sys, e: Sys, m: nat, bt: nat, popped: Option<Packet>,
      lines: seq<seq<Packet>>)
  {
    && Calm(c, e, m, bt, lines) && e.now == s.now + 1 && e.transactions == []
    && e.history.issued == s.history.issued + Issued(popped, s.now)
    && RowsAfter(c, s, e, popped, lines) && Windows(c, s, e.queue, popped)
    && BusMoved(c, s, e) && e.writes == MovedWrites(s) + Pushed(c, popped)
  }

  lemma CalmStep(c: Config, s: Sys, m: nat, bt: nat, lines: seq<seq<Packet>>, popped: Option<Packet>,
      lines1: seq<seq<Packet>>)
    requires Calm(c, s, m, bt, lines) && m >= 1 && Step(c, s).Ok?
    requires Pops(c, s, bt, popped, lines1) && CanSchedule(c, s, bt, lines1)
    ensures StepsTo(c, s, Step(c, s).value, m - 1, bt, popped, NextLines(c, s, lines1))
  {
    hide QueueShape, Good, GoodInside, GoodIssued, Plain, Only, Powered, Moved, Arrive, MoveBuses, RefreshTimer,
      IssueNext, Schedule, Close, DramQueue.Pop, CountRefresh, MovedWrites, BusMoved, TickTable, IssueTable;
    StepParts(c, s);
    UpToPop(c, s);
    var s3 := RefreshTimer(c, MoveBuses(c, Arrive(c, s).value).value);
    FromPop(c, s3, bt, popped, lines1);
    var s5 := Schedule(c, IssueNext(c, s3).value).value;
    TableMoves(c, s.table, popped, s.now);
    AfterQueued(c, s5, bt, NextLines(c, s, lines1));
    CountedLate(c, s5.refreshCountdown, m);
    SameBuses(c, s, s, s3, Step(c, s).value);
  }

  lemma StepParts(c: Config, s: Sys)
    requires c.Sensible() && Shape(c, s) && Step(c, s).Ok?
    ensures Arrive(c, s).Ok? && MoveBuses(c, Arrive(c, s).value).Ok?
    ensures var s3 := RefreshTimer(c, MoveBuses(c, Arrive(c, s).value).value);
      && IssueNext(c, s3).Ok? && Schedule(c, IssueNext(c, s3).value).Ok?
      && Step(c, s) == Close(c, Schedule(c, IssueNext(c, s3).value).value)
  {
    hide Shape, RefreshTimer, IssueNext, Schedule, Close, MoveBuses, Arrive;
  }

  lemma CountedLate(c: Config, cs: seq<nat>, m: nat)
    requires m >= 1 && forall r :: 0 <= r < |cs| ==> cs[r] >= m + c.tXP + 1
    ensures forall r :: 0 <= r < |CountRefresh(cs)| ==> CountRefresh(cs)[r] >= m - 1 + c.tXP + 1
  {
  }

  // ---- what pop gives ----

  /** The queue and the ticked table at the time of the pop. */
  predicate CanGo(c: Config, s: Sys, line: seq<Packet>, i: nat)
    requires c.Sensible() && Shape(c, s) && i < |line| && line[i].rank < c.ranks && line[i].bank < c.banks
  {
    QueueShape(c, Aged(s.queue)) && Eligible(c, Aged(s.queue), TickTable(c, s.table), line, i, s.now)
  }

  ghost predicate NoneCanGo(c: Config, s: Sys, line: seq<Packet>)
    requires c.Sensible() && Shape(c, s)
  {
    forall i :: 0 <= i < |line| ==> line[i].rank < c.ranks && line[i].bank < c.banks && !CanGo(c, s, line, i)
  }

  ghost predicate NoRowCloses(c: Config, s: Sys, r: nat)
    requires c.Sensible() && Shape(c, s) && r < c.ranks
  {
    forall b :: 0 <= b < c.banks ==> !Closable(c, s.queue, TickTable(c, s.table), r, b, s.now)
  }

  lemma NoneIsStuck(c: Config, s: Sys, line: seq<Packet>)
    requires c.Sensible() && Shape(c, s) && QueueShape(c, Aged(s.queue)) && NoneCanGo(c, s, line)
    ensures Stuck(c, Aged(s.queue), TickTable(c, s.table), line, s.now)
  {
    hide QueueShape, Eligible;
  }

  /** With no packet that may go and no row to close, pop gives nothing. */
  lemma PopsNothing(c: Config, s: Sys, m: nat, bt: nat, lines: seq<seq<Packet>>)
    requires Calm(c, s, m, bt, lines) && forall r :: 0 <= r < c.ranks ==> NoneCanGo(c, s, lines[r])
    requires c.openPage ==> forall r :: 0 <= r < c.ranks ==> NoRowCloses(c, s, r)
    ensures Pops(c, s, bt, None, lines)
  {
    assert |s.queue.faw| == c.ranks;
    hide QueueShape, Eligible, Closable, Good, Plain, Only, DramQueue.Pop, Tick, NoneCanGo, Stuck, Age;
    AgedLines(c, s.queue);
    var t := TickTable(c, s.table);
    forall r | 0 <= r < c.ranks ensures Stuck(c, Aged(s.queue), t, lines[r], s.now) {
      NoneIsStuck(c, s, lines[r]);
    }
    if c.openPage {
      forall r, b | 0 <= r < c.ranks && 0 <= b < c.banks ensures !Closable(c, s.queue, t, r, b, s.now) {
        assert NoRowCloses(c, s, r);
      }
    }
    PopsNoPacket(c, s.queue, t, s.now, bt, lines);
    var popped := DramQueue.Pop(c, s.queue, t, s.now).1;
    if popped.Some? {
      AgedClosable(c, s.queue, t, popped.value.rank, popped.value.bank, s.now);
    }
  }

  lemma PopsPacket(c: Config, s: Sys, m: nat, bt: nat, lines: seq<seq<Packet>>, rt: nat)
    requires Calm(c, s, m, bt, lines) && rt < c.ranks && |lines[rt]| > 0
    requires lines[rt][0].rank == rt && lines[rt][0].bank < c.banks && CanGo(c, s, lines[rt], 0)
    requires forall r :: 0 <= r < c.ranks && r != rt ==> NoneCanGo(c, s, lines[r])
    ensures Pops(c, s, bt, Some(lines[rt][0]), lines[rt := lines[rt][1..]])
  {
    assert |s.queue.faw| == c.ranks;
    hide QueueShape, Eligible, Good, Plain, Only, DramQueue.Pop, Tick, NoneCanGo, Stuck, Age;
    AgedLines(c, s.queue);
    var t := TickTable(c, s.table);
    forall r | 0 <= r < c.ranks && r != rt ensures Stuck(c, Aged(s.queue), t, lines[r], s.now) {
      NoneIsStuck(c, s, lines[r]);
    }
    PopsFirst(c, s.queue, t, s.now, rt, bt, lines);
  }

  /** With no packet that may go, the one row that may be closed is closed. */
  lemma PopsRow(c: Config, s: Sys, m: nat, bt: nat, lines: seq<seq<Packet>>, rt: nat)
    requires Calm(c, s, m, bt, lines) && c.openPage && rt < c.ranks
    requires forall r :: 0 <= r < c.ranks ==> NoneCanGo(c, s, lines[r])
    requires Closable(c, s.queue, TickTable(c, s.table), rt, 0, s.now)
    requires forall b :: 1 <= b < c.banks ==> !Closable(c, s.queue, TickTable(c, s.table), rt, b, s.now)
    requires forall r :: 0 <= r < c.ranks && r != rt ==> NoRowCloses(c, s, r)
    ensures Pops(c, s, bt, Some(Packet(Precharge, 0, 0, 0, rt, 0)), lines)
  {
    assert |s.queue.faw| == c.ranks;
    hide QueueShape, Eligible, Closable, Good, Plain, Only, DramQueue.Pop, Tick, NoneCanGo, Stuck, Age;
    AgedLines(c, s.queue);
    var t := TickTable(c, s.table);
    forall r | 0 <= r < c.ranks ensures Stuck(c, Aged(s.queue), t, lines[r], s.now) {
      NoneIsStuck(c, s, lines[r]);
    }
    forall r, b | 0 <= r < c.ranks && 0 <= b < c.banks && (r != rt || b != 0)
      ensures !Closable(c, s.queue, t, r, b, s.now)
    {
      if r != rt {
        assert NoRowCloses(c, s, r);
      }
    }
    PopsTheRow(c, s.queue, t, s.now, bt, lines, rt, 0);
  }

  // ---- ranks that rest ----

  predicate Resting(m: Bank) { (m.mode.Idle? || m.mode.PowerDown?) && m.countdown == 0 }

  /** The ranks from n on have nothing open and nothing under way. */
  ghost predicate OthersRest(c: Config, t: Table, n: nat)
    requires TableShape(c, t)
  {
    forall r, j :: n <= r < c.ranks && 0 <= j < c.banks ==> Resting(t[r][j])
  }

  lemma RestStays(c: Config, m: Bank, r: nat, j: nat, popped: Option<Packet>, now: nat)
    requires c.Sensible() && Resting(m) && (popped.Some? ==> popped.value.rank != r)
    ensures Tick(c, m) == m && (popped.Some? ==> Resting(Issue(c, m, r, j, popped.value, now)))
  {
  }

  lemma RowRests(c: Config, ms: seq<Bank>, r: nat, popped: Option<Packet>, empty: bool, now: nat)
    requires c.Sensible() && |ms| > 0 && (popped.Some? ==> popped.value.rank != r)
    requires forall j :: 0 <= j < |ms| ==> Resting(ms[j])
    ensures var ms1 := Powered(c, Moved(c, ms, r, popped, now), empty, now);
      forall j :: 0 <= j < |ms1| ==> Resting(ms1[j])
  {
    var ms0 := Moved(c, ms, r, popped, now);
    forall j | 0 <= j < |ms| ensures Resting(ms0[j]) {
      RestStays(c, ms[j], r, j, popped, now);
      hide Tick, Issue;
    }
    hide Moved;
  }

  lemma OthersStay(c: Config, s: Sys, e: Sys, popped: Option<Packet>, lines: seq<seq<Packet>>, n: nat)
    requires RowsAfter(c, s, e, popped, lines) && OthersRest(c, s.table, n) && (popped.Some? ==> popped.value.rank < n)
    ensures OthersRest(c, e.table, n)
  {
    forall r, j | n <= r < c.ranks && 0 <= j < c.banks ensures Resting(e.table[r][j]) {
      assert forall j1 :: 0 <= j1 < c.banks ==> Resting(s.table[r][j1]);
      RowRests(c, s.table[r], r, popped, lines[r] == [], s.now);
      hide Resting, Powered, Moved;
    }
  }

  lemma RestingBank(c: Config, s: Sys, r: nat, b: nat)
    requires c.Sensible() && Shape(c, s) && r < c.ranks && b < c.banks && Resting(s.table[r][b])
    ensures !Closable(c, s.queue, TickTable(c, s.table), r, b, s.now)
  {
    hide QueueShape;
  }

  lemma RestingNotClosable(c: Config, s: Sys, r: nat, n: nat)
    requires c.Sensible() && Shape(c, s) && n <= r < c.ranks && OthersRest(c, s.table, n)
    ensures NoRowCloses(c, s, r)
  {
    hide QueueShape, Closable;
    forall b | 0 <= b < c.banks ensures !Closable(c, s.queue, TickTable(c, s.table), r, b, s.now) {
      RestingBank(c, s, r, b);
    }
  }

  // ---- runs ----

  function Cycles(n: nat): (ops: seq<Op>)
    ensures |ops| == n && forall i :: 0 <= i < n ==> ops[i] == Cycle
  {
    seq(n, i => Cycle)
  }

  predicate ValidOps(c: Config, ops: seq<Op>) { forall i :: 0 <= i < |ops| ==> ValidOp(c, ops[i]) }

  /** A run that gets through gets through both its parts. */
  lemma {:induction false} RunParts(c: Config, s: Sys, xs: seq<Op>, ys: seq<Op>)
    requires c.Sensible() && Shape(c, s) && ValidOps(c, xs) && ValidOps(c, ys)
    ensures ValidOps(c, xs + ys)
    ensures Run(c, s, xs + ys) == if Run(c, s, xs).Exit? then Run(c, s, xs) else Run(c, Run(c, s, xs).value, ys)
    decreases |xs|
  {
    hide Do, Shape;
    if xs == [] {
      assert xs + ys == ys;
    } else {
      assert (xs + ys)[0] == xs[0] && (xs + ys)[1..] == xs[1..] + ys;
      match Do(c, s, xs[0])
      case Exit(f) =>
      case Ok(s1) => RunParts(c, s1, xs[1..], ys);
    }
  }

  lemma FirstCycle(c: Config, s: Sys, n: nat)
    requires c.Sensible() && Shape(c, s) && n > 0
    ensures Run(c, s, Cycles(n)) ==
      if Step(c, s).Exit? then Exit(Step(c, s).fault) else Run(c, Step(c, s).value, Cycles(n - 1))
  {
    hide Step, Shape;
    assert Cycles(n)[1..] == Cycles(n - 1);
  }

  lemma OneCycle(c: Config, s: Sys)
    requires c.Sensible() && Shape(c, s)
    ensures Run(c, s, Cycles(1)) == if Step(c, s).Exit? then Exit(Step(c, s).fault) else Step(c, s)
  {
    hide Step, Shape;
    FirstCycle(c, s, 1);
    assert Cycles(0) == [];
  }

  lemma Offered(c: Config, s: Sys, t: Transaction)
    requires c.Sensible() && Shape(c, s) && Placed(c, t) && c.transQueueDepth >= 1 && s.transactions == []
    ensures var s1 := Offer(c, s, t);
      && Run(c, s, [Direct(t)]) == Ok(s1) && s1.transactions == [t]
      && SameView(s.(transactions := [t]), s1) && Shape(c, s1)
  {
    hide QueueShape, TableShape;
    assert [Direct(t)][1..] == [];
    assert Run(c, Offer(c, s, t), []) == Ok(Offer(c, s, t));
  }

  /** A request leaves all else as it is. */
  lemma CalmOffered(c: Config, s: Sys, m: nat, bt: nat, lines: seq<seq<Packet>>, t: Transaction)
    requires Calm(c, s, m, bt, lines) && s.transactions == [] && c.transQueueDepth >= 1 && Placed(c, t)
    ensures Run(c, s, [Direct(t)]) == Ok(Offer(c, s, t))
    ensures var s1 := Offer(c, s, t);
      && Calm(c, s1, m, bt, lines) && s1.transactions == [t] && s1.history.issued == s.history.issued
      && SameView(s.(transactions := [t]), s1)
  {
    Offered(c, s, t);
    OfferGood(c, s, t);
    assert Offer(c, s, t).ranks == s.ranks && Offer(c, s, t).history.issued == s.history.issued;
    hide QueueShape, Good, Run, Only, Plain, Offer;
  }

  /** At the start nothing is queued. */
  lemma InitialCalm(c: Config, s: Sys, m: nat, bt: nat)
    requires c.Sensible() && c.cmdQueueDepth >= 2 && Initial(c, s) && RefreshesLate(c, s, m + c.tXP + 1)
    requires bt < c.banks
    ensures Calm(c, s, m, bt, NoLines(c)) && OthersRest(c, s.table, 0)
    ensures forall r :: 0 <= r < c.ranks ==> s.queue.faw[r] == []
  {
    InitialGood(c, s);
    InitialLines(c, s.queue, bt);
    hide QueueShape, Good, Only, Plain;
  }
}
