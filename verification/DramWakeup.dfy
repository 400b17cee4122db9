/**
 The condition under which activates keep their distance although ranks sleep is exact.  Where it does
 not hold, one access, a sleep as short as can be, and a second access break the distance.
*/
module DramWakeup {
  import opened Wrappers
  import opened DramTypes
  import opened DramBank
  import opened DramQueue
  import opened DramRank
  import opened DramSystem
  import opened DramTheorems
  import opened DramOneBank
  import opened DramCalm
  import opened DramActivates
  import opened DramSimulation
  import opened DramSleep

  // ---- one step while only rank 0 is used ----

  /** Writes whose data has not been delivered. */
  function InFlight(s: Sys): nat { |s.writes| + if s.dataBus.Some? then 1 else 0 }

  /** The queues while only rank 0 has commands queued. */
  function Alone(c: Config, line: seq<Packet>): (lines: seq<seq<Packet>>)
    ensures |lines| == c.ranks && forall r :: 0 <= r < c.ranks ==> lines[r] == if r == 0 then line else []
  {
    seq(c.ranks, r => if r == 0 then line else [])
  }

  /** Only rank 0 is in use.  It has n activates in its window at most, and w writes are under way. */
  ghost predicate RankCalm(c: Config, s: Sys, m: nat, b: nat, line: seq<Packet>, n: nat, w: nat) {
    && c.lowPower && Calm(c, s, m, b, Alone(c, line)) && OthersRest(c, s.table, 1)
    && |s.queue.faw[0]| <= n && InFlight(s) <= w
  }

  predicate OnRank0(popped: Option<Packet>) { popped.Some? ==> popped.value.rank == 0 }

  predicate OneRequest(s: Sys, b: nat, line: seq<Packet>) {
    s.transactions == [] ||
    (|s.transactions| == 1 && s.transactions[0].rank == 0 && s.transactions[0].bank == b && line == [])
  }

  function NextLine(c: Config, s: Sys, line: seq<Packet>): seq<Packet> {
    if s.transactions == [] then line else Pair(c, s.transactions[0])
  }

  /** Write data cannot collide while only one write is under way. */
  lemma NoCollision(c: Config, s: Sys)
    requires c.Sensible() && Shape(c, s) && InFlight(s) <= 1
    ensures match MoveBuses(c, s)
      case Exit(f) => !f.DataBusCollision?
      case Ok(s1) => InFlight(s1) <= InFlight(s)
  {
    hide Shape, CountReturns, Legal;
  }

  lemma OneWriteIsOk(c: Config, s: Sys)
    requires c.Sensible() && Shape(c, s) && Good(c, s) && s.waiting == [] && InFlight(s) <= 1
    ensures Step(c, s).Ok?
  {
    hide Shape, Good, GoodInside, GoodIssued, Arrive, MoveBuses, IssueNext, Schedule, Close, RefreshTimer;
    FirstHalfGood(c, s);
    var s1 := Arrive(c, s).value;
    ArriveView(c, s);
    NoCollision(c, s1);
    var s2 := MoveBuses(c, s1).value;
    RefreshTimerGood(c, s2);
    IssueNextGood(c, RefreshTimer(c, s2));
    ScheduleGood(c, IssueNext(c, RefreshTimer(c, s2)).value);
    CloseGood(c, Command(c, s2).value);
  }

  lemma InFlightMoves(c: Config, s: Sys, e: Sys, popped: Option<Packet>)
    requires c.Sensible() && BusMoved(c, s, e) && e.writes == MovedWrites(s) + Pushed(c, popped)
    ensures InFlight(e) <= InFlight(s) + if popped.Some? && popped.value.kind.IsWrite() then 1 else 0
  {
  }

  lemma AloneNext(c: Config, s: Sys, b: nat, line: seq<Packet>)
    requires c.Sensible() && b < c.banks && OneRequest(s, b, line)
    requires forall i :: 0 <= i < |s.transactions| ==> Placed(c, s.transactions[i])
    ensures CanSchedule(c, s, b, Alone(c, line))
    ensures NextLines(c, s, Alone(c, line)) == Alone(c, NextLine(c, s, line))
  {
    assert s.transactions != [] ==> Placed(c, s.transactions[0]);
  }

  /** What pop gives and the new request decide about rank 0. */
  lemma RankStep(c: Config, s: Sys, m: nat, b: nat, line: seq<Packet>, n: nat, w: nat, popped: Option<Packet>,
      line1: seq<Packet>)
    requires RankCalm(c, s, m, b, line, n, w) && m >= 1 && w <= 1 && OnRank0(popped)
    requires Pops(c, s, b, popped, Alone(c, line1)) && OneRequest(s, b, line1)
    ensures Step(c, s).Ok?
    ensures var e := Step(c, s).value; var line2 := NextLine(c, s, line1);
      && RankCalm(c, e, m - 1, b, line2, n + (if popped.Some? && popped.value.kind.Activate? then 1 else 0),
           w + if popped.Some? && popped.value.kind.IsWrite() then 1 else 0)
      && e.now == s.now + 1 && e.transactions == [] && e.history.issued == s.history.issued + Issued(popped, s.now)
      && e.table[0] == Powered(c, Moved(c, s.table[0], 0, popped, s.now), line2 == [], s.now)
  {
    RankFacts(c, s, m, b, line, n, w);
    OneWriteIsOk(c, s);
    AloneNext(c, s, b, line1);
    hide Shape, Good, Calm, Powered, Moved, Step, MovedWrites, BusMoved, Pops, CanSchedule, OthersRest, Alone;
    CalmStep(c, s, m, b, Alone(c, line), popped, Alone(c, line1));
    RankStepped(c, s, Step(c, s).value, m - 1, b, NextLine(c, s, line1), n, w, popped);
  }

  lemma RankFacts(c: Config, s: Sys, m: nat, b: nat, line: seq<Packet>, n: nat, w: nat)
    requires RankCalm(c, s, m, b, line, n, w)
    ensures c.Sensible() && b < c.banks && Shape(c, s) && Good(c, s) && s.waiting == []
    ensures forall i :: 0 <= i < |s.transactions| ==> Placed(c, s.transactions[i])
  {
  }

  lemma RankStepped(c: Config, s: Sys, e: Sys, m: nat, b: nat, line: seq<Packet>, n: nat, w: nat,
      popped: Option<Packet>)
    requires c.Sensible() && c.lowPower && OnRank0(popped) && StepsTo(c, s, e, m, b, popped, Alone(c, line))
    requires TableShape(c, s.table) && OthersRest(c, s.table, 1) && |s.queue.faw| == c.ranks
    requires |s.queue.faw[0]| <= n && InFlight(s) <= w
    ensures RankCalm(c, e, m, b, line, n + (if popped.Some? && popped.value.kind.Activate? then 1 else 0),
      w + if popped.Some? && popped.value.kind.IsWrite() then 1 else 0)
    ensures c.banks == |s.table[0]| > 0 && |e.table| == c.ranks
    ensures e.table[0] == Powered(c, Moved(c, s.table[0], 0, popped, s.now), line == [], s.now)
  {
    hide QueueShape, Calm, Powered, Moved, MovedWrites, BusMoved, Age, OthersRest;
    InFlightMoves(c, s, e, popped);
    OthersStay(c, s, e, popped, Alone(c, line), 1);
    WindowGrows(c, s, e, popped);
  }

  lemma WindowGrows(c: Config, s: Sys, e: Sys, popped: Option<Packet>)
    requires c.ranks >= 1 && DramCalm.Windows(c, s, e.queue, popped) && OnRank0(popped)
    ensures |e.queue.faw[0]| <= |s.queue.faw[0]| + if popped.Some? && popped.value.kind.Activate? then 1 else 0
  {
    AgedWindow(s.queue.faw[0]);
  }

  lemma AgedWindow(w: seq<nat>)
    ensures |Age(w)| <= |w|
  {
  }

  /** With no packet that may go and no row to close, pop gives nothing. */
  lemma NothingPops(c: Config, s: Sys, m: nat, b: nat, line: seq<Packet>, n: nat, w: nat)
    requires RankCalm(c, s, m, b, line, n, w) && NoneCanGo(c, s, line) && (c.openPage ==> NoRowCloses(c, s, 0))
    ensures Pops(c, s, b, None, Alone(c, line))
  {
    hide QueueShape, Good, Plain, Only, Pops, NoRowCloses, OthersRest;
    RestingRows(c, s);
    PopsNothing(c, s, m, b, Alone(c, line));
  }

  lemma RestingRows(c: Config, s: Sys)
    requires c.Sensible() && Shape(c, s) && OthersRest(c, s.table, 1)
    ensures forall r :: 1 <= r < c.ranks ==> NoRowCloses(c, s, r)
  {
    hide QueueShape, NoRowCloses, OthersRest;
    forall r | 1 <= r < c.ranks ensures NoRowCloses(c, s, r) {
      RestingNotClosable(c, s, r, 1);
    }
  }

  lemma PacketPops(c: Config, s: Sys, m: nat, b: nat, line: seq<Packet>, n: nat, w: nat)
    requires RankCalm(c, s, m, b, line, n, w) && |line| > 0
    requires line[0].rank == 0 && line[0].bank < c.banks && CanGo(c, s, line, 0)
    ensures Pops(c, s, b, Some(line[0]), Alone(c, line[1..]))
  {
    hide QueueShape, Good, Plain, Only, Pops, CanGo;
    PopsPacket(c, s, m, b, Alone(c, line), 0);
    assert Alone(c, line)[0 := line[1..]] == Alone(c, line[1..]);
  }

  /** The one row that is open and may be closed is closed. */
  lemma RowPops(c: Config, s: Sys, m: nat, n: nat, w: nat)
    requires RankCalm(c, s, m, 0, [], n, w) && c.openPage
    requires Closable(c, s.queue, TickTable(c, s.table), 0, 0, s.now)
    requires forall j :: 1 <= j < c.banks ==> !Closable(c, s.queue, TickTable(c, s.table), 0, j, s.now)
    ensures Pops(c, s, 0, Some(Packet(Precharge, 0, 0, 0, 0, 0)), Alone(c, []))
  {
    hide QueueShape, Good, Plain, Only, Pops, NoRowCloses, Closable, OthersRest;
    RestingRows(c, s);
    PopsRow(c, s, m, 0, Alone(c, []), 0);
  }

  // ---- the phases of rank 0 ----

  /** Where rank 0 is; the numbers are cycles. */
  datatype Phase =
    | Unused
    | Waiting                  // the first access is queued
    | Opened(at: int)          // its row was opened then
    | Using(ready: int)        // its column command has gone, and the row may be closed from then on
    | AutoClosing(done: int)   // the row closes itself then
    | RowClosed(done: int)     // the rank is idle, and falls asleep, then
    | Asleep(until: int)       // it may wake up from then on
    | Awake(ready: int)        // the second access is queued, and may be activated from then on

  function First(c: Config): Transaction
    requires c.Sensible()
  {
    Transaction(c.ReadToPre() <= c.WriteToPre(), 0, 0, 0, 0, 0)
  }

  /** The bank of the second access: the one for which the time between activates is longer. */
  function SecondBank(c: Config): nat { if c.banks > 1 && c.tRRD > c.tRC then 1 else 0 }

  function SecondAccess(c: Config): Transaction { Transaction(true, 0, 0, SecondBank(c), 0, 0) }

  function PhaseLine(c: Config, ph: Phase): seq<Packet>
    requires c.Sensible()
  {
    match ph
    case Waiting => Pair(c, First(c))
    case Opened(_) => [ColumnFor(c, First(c))]
    case Awake(_) => Pair(c, SecondAccess(c))
    case _ => []
  }

  function PhaseBank(c: Config, ph: Phase): nat { if ph.Asleep? || ph.Awake? then SecondBank(c) else 0 }

  predicate Quiet(m: Bank) { m.mode.Idle? && m.countdown == 0 }

  /** Rank 0's entries before the step of cycle now. */
  predicate InPhase(c: Config, ms: seq<Bank>, ph: Phase, now: int)
    requires |ms| > 0
  {
    && (!ph.Asleep? && !ph.Awake? ==> forall j :: 1 <= j < |ms| ==> Quiet(ms[j]))
    && match ph
       case Unused => ms[0] == FreshBank
       case Waiting => ms[0] == FreshBank
       case Opened(at) =>
         && at < now && ms[0].mode.RowActive? && ms[0].countdown == 0 && ms[0].openRow == 0
         && ms[0].nextRead == ms[0].nextWrite == at + (c.tRCD - c.AL) && ms[0].nextPrecharge == at + c.tRAS
       case Using(ready) =>
         c.openPage && ms[0].mode.RowActive? && ms[0].countdown == 0 && ms[0].nextPrecharge == ready
       case AutoClosing(done) =>
         && !c.openPage && ms[0].mode.RowActive? && ms[0].lastCommand.AutoPrecharges()
         && now <= done && ms[0].countdown == done - now + 1
       case RowClosed(done) =>
         && ms[0].mode.Precharging? && ms[0].lastCommand.Precharge?
         && now <= done && ms[0].countdown == done - now + 1
       case Asleep(until) =>
         forall j :: 0 <= j < |ms| ==> ms[j].mode.PowerDown? && ms[j].countdown == 0 && ms[j].nextPowerUp == until
       case Awake(ready) =>
         forall j :: 0 <= j < |ms| ==> Quiet(ms[j]) && ms[j].nextActivate == ready
  }

  /** The last cycle before which nothing happens by itself. */
  function Until(c: Config, ph: Phase): int {
    match ph
    case Unused => 0
    case Waiting => 0
    case Opened(at) => at + FirstColumn(c)
    case Using(ready) => ready
    case AutoClosing(done) => done
    case RowClosed(done) => done
    case Asleep(until) => until
    case Awake(ready) => ready
  }

  // ---- rank 0's entries in one step ----

  /** While time is left, the phase stays. */
  lemma PhaseStays(c: Config, ms: seq<Bank>, ph: Phase, now: nat)
    requires c.Sensible() && c.lowPower && |ms| > 0 && InPhase(c, ms, ph, now) && now < Until(c, ph)
    ensures InPhase(c, Powered(c, Moved(c, ms, 0, None, now), PhaseLine(c, ph) == [], now), ph, now + 1)
  {
  }

  lemma UnusedStays(c: Config, ms: seq<Bank>, now: nat)
    requires c.Sensible() && c.lowPower && |ms| > 0 && InPhase(c, ms, Unused, now)
    ensures InPhase(c, Powered(c, Moved(c, ms, 0, None, now), false, now), Waiting, now + 1)
  {
  }

  lemma RowOpens(c: Config, ms: seq<Bank>, now: nat)
    requires c.Sensible() && c.lowPower && |ms| > 0 && InPhase(c, ms, Waiting, now)
    ensures InPhase(c, Powered(c, Moved(c, ms, 0, Some(ActivateFor(First(c))), now), false, now), Opened(now), now + 1)
  {
  }

  /** The phase after the column command. */
  function AfterColumn(c: Config, at: int, now: int): Phase {
    if c.openPage then Using(Max(at + c.tRAS, now + ColumnToPre(c))) else AutoClosing(now + ColumnToPre(c))
  }

  lemma ColumnGoes(c: Config, ms: seq<Bank>, at: int, now: nat)
    requires c.Sensible() && c.lowPower && |ms| > 0 && InPhase(c, ms, Opened(at), now)
    ensures InPhase(c, Powered(c, Moved(c, ms, 0, Some(ColumnFor(c, First(c))), now), true, now),
        AfterColumn(c, at, now), now + 1)
  {
  }

  lemma RowClosesItself(c: Config, ms: seq<Bank>, now: nat)
    requires c.Sensible() && c.lowPower && |ms| > 0 && InPhase(c, ms, AutoClosing(now), now)
    ensures InPhase(c, Powered(c, Moved(c, ms, 0, None, now), true, now), RowClosed(now + c.tRP), now + 1)
  {
  }

  lemma RowCloses(c: Config, ms: seq<Bank>, ready: int, now: nat)
    requires c.Sensible() && c.lowPower && |ms| > 0 && InPhase(c, ms, Using(ready), now)
    ensures InPhase(c, Powered(c, Moved(c, ms, 0, Some(Packet(Precharge, 0, 0, 0, 0, 0)), now), true, now),
        RowClosed(now + c.tRP), now + 1)
  {
  }

  lemma FallsAsleep(c: Config, ms: seq<Bank>, now: nat)
    requires c.Sensible() && c.lowPower && |ms| > 0 && InPhase(c, ms, RowClosed(now), now)
    ensures InPhase(c, Powered(c, Moved(c, ms, 0, None, now), true, now), Asleep(now + c.tCKE), now + 1)
  {
  }

  lemma WakesUp(c: Config, ms: seq<Bank>, until: int, now: nat)
    requires c.Sensible() && c.lowPower && |ms| > 0 && InPhase(c, ms, Asleep(until), now) && now >= until
    ensures InPhase(c, Powered(c, Moved(c, ms, 0, None, now), false, now), Awake(now + c.tXP), now + 1)
  {
  }

  // ---- single cycles ----

  function Activates(ph: Phase): nat { if ph.Unused? || ph.Waiting? then 0 else 1 }

  function Writes(ph: Phase): nat { if ph.Opened? then 0 else Activates(ph) }

  /** Rank 0 is in phase ph, and all else is calm. */
  ghost predicate Stage(c: Config, s: Sys, m: nat, ph: Phase) {
    && c.Sensible() && RankCalm(c, s, m, PhaseBank(c, ph), PhaseLine(c, ph), Activates(ph), Writes(ph))
    && InPhase(c, s.table[0], ph, s.now)
  }

  /** The state after one more cycle, in phase ph, in which these commands were issued. */
  ghost predicate OneOn(c: Config, s: Sys, m: nat, ph: Phase, issued: seq<Event>) {
    && c.Sensible() && Shape(c, s) && m >= 1 && Step(c, s).Ok?
    && var e := Step(c, s).value;
       && Stage(c, e, m - 1, ph) && e.now == s.now + 1 && e.transactions == []
       && e.history.issued == s.history.issued + issued
  }

  /** An empty queue may be anywhere, and a bound may be larger. */
  lemma LooserCalm(c: Config, s: Sys, m: nat, b: nat, line: seq<Packet>, n: nat, w: nat, b1: nat, n1: nat, w1: nat)
    requires RankCalm(c, s, m, b, line, n, w) && b1 < c.banks && (b1 == b || line == []) && n <= n1 && w <= w1
    ensures RankCalm(c, s, m, b1, line, n1, w1)
  {
    hide QueueShape, Good;
  }

  /** A calm step as a step from phase ph to phase ph1. */
  lemma PhaseStep(c: Config, s: Sys, m: nat, ph: Phase, popped: Option<Packet>, line1: seq<Packet>, ph1: Phase)
    requires Stage(c, s, m, ph) && m >= 1 && OnRank0(popped)
    requires Pops(c, s, PhaseBank(c, ph), popped, Alone(c, line1)) && OneRequest(s, PhaseBank(c, ph), line1)
    requires Activates(ph) + (if popped.Some? && popped.value.kind.Activate? then 1 else 0) <= Activates(ph1)
    requires Writes(ph) + (if popped.Some? && popped.value.kind.IsWrite() then 1 else 0) <= Writes(ph1)
    requires NextLine(c, s, line1) == PhaseLine(c, ph1)
    requires PhaseBank(c, ph1) == PhaseBank(c, ph) || PhaseLine(c, ph1) == []
    requires
      InPhase(c, Powered(c, Moved(c, s.table[0], 0, popped, s.now), PhaseLine(c, ph1) == [], s.now), ph1, s.now + 1)
    ensures OneOn(c, s, m, ph1, Issued(popped, s.now))
  {
    hide RankCalm, Step, InPhase, Powered, Moved, Pops, Shape, OneRequest, PhaseLine;
    var b := PhaseBank(c, ph);
    CalmShape(c, s, m, b, PhaseLine(c, ph), Activates(ph), Writes(ph));
    RankStep(c, s, m, b, PhaseLine(c, ph), Activates(ph), Writes(ph), popped, line1);
    var n1 := Activates(ph) + if popped.Some? && popped.value.kind.Activate? then 1 else 0;
    var w1 := Writes(ph) + if popped.Some? && popped.value.kind.IsWrite() then 1 else 0;
    PhaseBanks(c, ph1);
    LooserCalm(c, Step(c, s).value, m - 1, b, PhaseLine(c, ph1), n1, w1, PhaseBank(c, ph1), Activates(ph1),
        Writes(ph1));
  }

  lemma PhaseBanks(c: Config, ph: Phase)
    requires c.Sensible()
    ensures PhaseBank(c, ph) < c.banks
  {
  }

  lemma CalmShape(c: Config, s: Sys, m: nat, b: nat, line: seq<Packet>, n: nat, w: nat)
    requires RankCalm(c, s, m, b, line, n, w)
    ensures c.Sensible() && b < c.banks && Shape(c, s) && |s.table| == c.ranks && |s.table[0]| == c.banks
  {
  }

  /** Only the row of bank 0 can be open, and it is wanted while its column command waits. */
  lemma NothingToClose(c: Config, s: Sys, m: nat, ph: Phase)
    requires Stage(c, s, m, ph) && (ph.Using? ==> s.now < ph.ready) && c.openPage
    ensures NoRowCloses(c, s, 0)
  {
    assert Line(c, s.queue, 0, PhaseBank(c, ph)) == PhaseLine(c, ph);
    hide QueueShape, Good, OthersRest, RefreshesLate, Only;
  }

  /** No packet can go before its time. */
  lemma NothingGoes(c: Config, s: Sys, m: nat, ph: Phase)
    requires Stage(c, s, m, ph) && s.now < Until(c, ph)
    ensures NoneCanGo(c, s, PhaseLine(c, ph))
  {
    hide QueueShape, Good, OthersRest, RefreshesLate, Only, Plain;
  }

  lemma WaitStep(c: Config, s: Sys, m: nat, ph: Phase)
    requires Stage(c, s, m, ph) && m >= 1 && s.transactions == [] && s.now < Until(c, ph)
    ensures OneOn(c, s, m, ph, [])
  {
    hide QueueShape, Good, Only, Plain, OthersRest, RefreshesLate, DramQueue.Pop, Step, Tick, Issue;
    NothingGoes(c, s, m, ph);
    if c.openPage {
      NothingToClose(c, s, m, ph);
    }
    var line := PhaseLine(c, ph);
    NothingPops(c, s, m, PhaseBank(c, ph), line, Activates(ph), Writes(ph));
    PhaseStays(c, s.table[0], ph, s.now);
    hide CanGo, Closable, RankCalm, Calm, Pops, Shape, Powered, Moved, InPhase, Step;
    PhaseStep(c, s, m, ph, None, line, ph);
  }

  /** A cycle without a command, at the end of which the phase changes. */
  lemma NoCommandStep(c: Config, s: Sys, m: nat, ph: Phase, ph1: Phase)
    requires Stage(c, s, m, ph) && m >= 1 && PhaseLine(c, ph) == [] && (c.openPage ==> !ph.Using?)
    requires OneRequest(s, PhaseBank(c, ph), []) && NextLine(c, s, []) == PhaseLine(c, ph1)
    requires Activates(ph) <= Activates(ph1) && Writes(ph) <= Writes(ph1)
    requires PhaseBank(c, ph1) == PhaseBank(c, ph) || PhaseLine(c, ph1) == []
    requires InPhase(c, Powered(c, Moved(c, s.table[0], 0, None, s.now), PhaseLine(c, ph1) == [], s.now),
      ph1, s.now + 1)
    ensures OneOn(c, s, m, ph1, [])
  {
    hide QueueShape, Good, Only, Plain, OthersRest, RefreshesLate, DramQueue.Pop, Step, Tick, Issue;
    if c.openPage {
      NothingToClose(c, s, m, ph);
    }
    NothingPops(c, s, m, PhaseBank(c, ph), [], Activates(ph), Writes(ph));
    hide CanGo, Closable, RankCalm, Calm, Pops, Shape, Powered, Moved, InPhase, Step;
    PhaseStep(c, s, m, ph, None, [], ph1);
  }

  lemma QueueStep(c: Config, s: Sys, m: nat)
    requires Stage(c, s, m, Unused) && m >= 1 && s.transactions == [First(c)]
    ensures OneOn(c, s, m, Waiting, [])
  {
    hide QueueShape, Good, Only, Plain, OthersRest, RefreshesLate, DramQueue.Pop, Step, Tick, Issue;
    UnusedStays(c, s.table[0], s.now);
    hide RankCalm, Calm, Shape, Powered, Moved, InPhase, Step;
    NoCommandStep(c, s, m, Unused, Waiting);
  }

  lemma OpenStep(c: Config, s: Sys, m: nat)
    requires Stage(c, s, m, Waiting) && m >= 1 && s.transactions == []
    ensures OneOn(c, s, m, Opened(s.now), [Event(ActivateFor(First(c)), s.now)])
  {
    hide QueueShape, Good, Only, Plain, OthersRest, RefreshesLate, DramQueue.Pop, Step, Tick, Issue;
    var line := PhaseLine(c, Waiting);
    assert CanGo(c, s, line, 0) by {
      FirstCanGo(c, s, m);
    }
    PacketPops(c, s, m, 0, line, 0, 0);
    RowOpens(c, s.table[0], s.now);
    assert line[1..] == PhaseLine(c, Opened(s.now));
    hide CanGo, RankCalm, Calm, Pops, Shape, Powered, Moved, InPhase, Step;
    PhaseStep(c, s, m, Waiting, Some(line[0]), line[1..], Opened(s.now));
  }

  lemma FirstCanGo(c: Config, s: Sys, m: nat)
    requires Stage(c, s, m, Waiting)
    ensures CanGo(c, s, PhaseLine(c, Waiting), 0)
  {
    AgedWindow(s.queue.faw[0]);
    AgedLines(c, s.queue);
    hide QueueShape, Good, OthersRest, RefreshesLate, Only, Plain;
  }

  lemma ColumnStep(c: Config, s: Sys, m: nat, at: int)
    requires Stage(c, s, m, Opened(at)) && m >= 1 && s.transactions == [] && s.now >= at + FirstColumn(c)
    ensures OneOn(c, s, m, AfterColumn(c, at, s.now), [Event(ColumnFor(c, First(c)), s.now)])
  {
    hide QueueShape, Good, Only, Plain, OthersRest, RefreshesLate, DramQueue.Pop, Step, Tick, Issue;
    var line := PhaseLine(c, Opened(at));
    ColumnCanGo(c, s, m, at);
    PacketPops(c, s, m, 0, line, 1, 0);
    ColumnGoes(c, s.table[0], at, s.now);
    assert line[1..] == [];
    hide CanGo, RankCalm, Calm, Pops, Shape, Powered, Moved, InPhase, Step;
    PhaseStep(c, s, m, Opened(at), Some(line[0]), line[1..], AfterColumn(c, at, s.now));
  }

  lemma ColumnCanGo(c: Config, s: Sys, m: nat, at: int)
    requires Stage(c, s, m, Opened(at)) && s.now >= at + FirstColumn(c)
    ensures CanGo(c, s, PhaseLine(c, Opened(at)), 0)
  {
    AgedLines(c, s.queue);
    hide QueueShape, Good, OthersRest, RefreshesLate, Only;
  }

  lemma RowClosedStep(c: Config, s: Sys, m: nat, ph: Phase) returns (issued: seq<Event>)
    requires Stage(c, s, m, ph) && m >= 1 && s.transactions == []
    requires ph == AutoClosing(s.now) || ph == Using(s.now)
    ensures OneOn(c, s, m, RowClosed(s.now + c.tRP), issued)
  {
    hide QueueShape, Good, Only, Plain, OthersRest, RefreshesLate, DramQueue.Pop, Step, Tick, Issue;
    var done := RowClosed(s.now + c.tRP);
    if ph.AutoClosing? {
      RowClosesItself(c, s.table[0], s.now);
      hide RankCalm, Calm, Shape, Powered, Moved, InPhase, Step;
      NoCommandStep(c, s, m, ph, done);
      issued := [];
    } else {
      var p := Packet(Precharge, 0, 0, 0, 0, 0);
      RowCanClose(c, s, m);
      RowPops(c, s, m, 1, 1);
      RowCloses(c, s.table[0], s.now, s.now);
      hide Closable, RankCalm, Calm, Pops, Shape, Powered, Moved, InPhase, Step;
      PhaseStep(c, s, m, ph, Some(p), [], done);
      issued := [Event(p, s.now)];
    }
  }

  lemma RowCanClose(c: Config, s: Sys, m: nat)
    requires Stage(c, s, m, Using(s.now))
    ensures c.openPage && Closable(c, s.queue, TickTable(c, s.table), 0, 0, s.now)
    ensures forall j :: 1 <= j < c.banks ==> !Closable(c, s.queue, TickTable(c, s.table), 0, j, s.now)
  {
    assert Line(c, s.queue, 0, 0) == [];
    hide QueueShape, Good, OthersRest, RefreshesLate, Only, Plain;
  }

  lemma SleepStep(c: Config, s: Sys, m: nat)
    requires Stage(c, s, m, RowClosed(s.now)) && m >= 1 && s.transactions == []
    ensures OneOn(c, s, m, Asleep(s.now + c.tCKE), [])
  {
    hide QueueShape, Good, Only, Plain, OthersRest, RefreshesLate, DramQueue.Pop, Step, Tick, Issue;
    FallsAsleep(c, s.table[0], s.now);
    hide RankCalm, Calm, Shape, Powered, Moved, InPhase, Step;
    NoCommandStep(c, s, m, RowClosed(s.now), Asleep(s.now + c.tCKE));
  }

  lemma WakeStep(c: Config, s: Sys, m: nat, until: int)
    requires Stage(c, s, m, Asleep(until)) && m >= 1 && s.transactions == [SecondAccess(c)] && s.now >= until
    ensures OneOn(c, s, m, Awake(s.now + c.tXP), [])
  {
    hide QueueShape, Good, Only, Plain, OthersRest, RefreshesLate, DramQueue.Pop, Step, Tick, Issue;
    WakesUp(c, s.table[0], until, s.now);
    hide RankCalm, Calm, Shape, Powered, Moved, InPhase, Step;
    NoCommandStep(c, s, m, Asleep(until), Awake(s.now + c.tXP));
  }

  /** The second access is activated. */
  lemma LastStep(c: Config, s: Sys, m: nat, ready: int)
    requires Stage(c, s, m, Awake(ready)) && m >= 1 && s.transactions == [] && s.now >= ready
    ensures Step(c, s).Ok?
    ensures Step(c, s).value.history.issued == s.history.issued + [Event(ActivateFor(SecondAccess(c)), s.now)]
  {
    hide QueueShape, Good, Only, Plain, OthersRest, RefreshesLate, DramQueue.Pop, Step, Tick, Issue;
    var line := PhaseLine(c, Awake(ready));
    SecondCanGo(c, s, m, ready);
    PacketPops(c, s, m, SecondBank(c), line, 1, 1);
    hide CanGo, RankCalm, Calm, Pops, Shape, Powered, Moved, InPhase, Step;
    RankStep(c, s, m, SecondBank(c), line, 1, 1, Some(line[0]), line[1..]);
  }

  lemma SecondCanGo(c: Config, s: Sys, m: nat, ready: int)
    requires Stage(c, s, m, Awake(ready)) && s.now >= ready
    ensures CanGo(c, s, PhaseLine(c, Awake(ready)), 0)
  {
    AgedWindow(s.queue.faw[0]);
    AgedLines(c, s.queue);
    hide QueueShape, Good, OthersRest, RefreshesLate, Only, Plain;
  }

  // ---- the run ----

  /** From s0 these operations lead to s, in phase ph with nothing requested, and the first activate was in cycle 1. */
  ghost predicate Trail(c: Config, s0: Sys, ops: seq<Op>, s: Sys, m: nat, ph: Phase) {
    && c.Sensible() && Shape(c, s0) && ValidOps(c, ops) && Run(c, s0, ops) == Ok(s) && Shape(c, s)
    && Stage(c, s, m, ph) && s.transactions == [] && (!Before(ph) ==> FirstOpened(c, s))
  }

  predicate Before(ph: Phase) { ph.Unused? || ph.Waiting? }

  predicate FirstOpened(c: Config, s: Sys)
    requires c.Sensible()
  {
    |s.history.issued| > 0 && s.history.issued[0] == Event(ActivateFor(First(c)), 1)
  }

  lemma GoesOn(c: Config, s0: Sys, ops: seq<Op>, s: Sys, m: nat, ph: Phase, ph1: Phase, issued: seq<Event>)
    requires Trail(c, s0, ops, s, m, ph) && OneOn(c, s, m, ph1, issued) && (!Before(ph1) ==> !Before(ph))
    ensures Trail(c, s0, ops + Cycles(1), Step(c, s).value, m - 1, ph1) && Step(c, s).value.now == s.now + 1
  {
    hide Stage, Step, Run, Shape;
    OneCycle(c, s);
    RunParts(c, s0, ops, Cycles(1));
  }

  lemma {:induction false} WaitsOn(c: Config, s0: Sys, ops: seq<Op>, s: Sys, m: nat, ph: Phase, n: nat)
      returns (ops1: seq<Op>, s1: Sys)
    requires Trail(c, s0, ops, s, m, ph) && m >= n && (n > 0 ==> s.now + n <= Until(c, ph))
    ensures Trail(c, s0, ops1, s1, m - n, ph) && s1.now == s.now + n
    decreases n
  {
    hide Stage, Step, Run, Shape;
    if n == 0 {
      ops1, s1 := ops, s;
    } else {
      WaitStep(c, s, m, ph);
      GoesOn(c, s0, ops, s, m, ph, ph, []);
      ops1, s1 := WaitsOn(c, s0, ops + Cycles(1), Step(c, s).value, m - 1, ph, n - 1);
    }
  }

  /** A request leaves all else as it is. */
  lemma StageOffered(c: Config, s: Sys, m: nat, ph: Phase, t: Transaction)
    requires Stage(c, s, m, ph) && s.transactions == [] && c.transQueueDepth >= 1 && Placed(c, t)
    ensures Shape(c, s) && Run(c, s, [Direct(t)]) == Ok(Offer(c, s, t))
    ensures var s1 := Offer(c, s, t);
      Stage(c, s1, m, ph) && s1.transactions == [t] && s1.now == s.now && s1.history.issued == s.history.issued
  {
    CalmOffered(c, s, m, PhaseBank(c, ph), Alone(c, PhaseLine(c, ph)), t);
    hide QueueShape, Calm, Run, InPhase, Offer, OthersRest;
  }

  /** One cycle in which a request is taken. */
  lemma OffersOn(c: Config, s0: Sys, ops: seq<Op>, s: Sys, m: nat, ph: Phase, t: Transaction, ph1: Phase)
    requires Trail(c, s0, ops, s, m, ph) && c.transQueueDepth >= 1 && Placed(c, t) && Before(ph) == Before(ph1)
    requires OneOn(c, Offer(c, s, t), m, ph1, [])
    ensures Trail(c, s0, ops + [Direct(t)] + Cycles(1), Step(c, Offer(c, s, t)).value, m - 1, ph1)
    ensures Step(c, Offer(c, s, t)).value.now == s.now + 1
  {
    hide Stage, Step, Run, Shape, Offer;
    OfferedOn(c, s0, ops, s, m, ph, t);
    var s1 := Offer(c, s, t);
    OneCycle(c, s1);
    RunParts(c, s0, ops + [Direct(t)], Cycles(1));
  }

  lemma OfferedOn(c: Config, s0: Sys, ops: seq<Op>, s: Sys, m: nat, ph: Phase, t: Transaction)
    requires Trail(c, s0, ops, s, m, ph) && c.transQueueDepth >= 1 && Placed(c, t)
    ensures ValidOps(c, ops + [Direct(t)]) && Shape(c, Offer(c, s, t))
    ensures var s1 := Offer(c, s, t);
      Run(c, s0, ops + [Direct(t)]) == Ok(s1) && s1.now == s.now && s1.history.issued == s.history.issued
  {
    hide Stage, Step, Run, Shape, Offer;
    StageOffered(c, s, m, ph, t);
    RunParts(c, s0, ops, [Direct(t)]);
  }

  /** The first access, up to its column command. */
  lemma UpToColumn(c: Config, s0: Sys, m: nat) returns (ops: seq<Op>, s: Sys)
    requires c.Sensible() && Shape(c, s0) && Stage(c, s0, m, Unused)
    requires s0.transactions == [] && s0.now == 0 && s0.history.issued == []
    requires m >= 2 + FirstColumn(c) && c.transQueueDepth >= 1
    ensures Trail(c, s0, ops, s, m - 2 - FirstColumn(c), AfterColumn(c, 1, 1 + FirstColumn(c)))
    ensures s.now == 2 + FirstColumn(c)
  {
    hide Stage, Step, Run, Shape;
    var t := First(c);
    FirstPlaced(c);
    StageOffered(c, s0, m, Unused, t);
    QueueStep(c, Offer(c, s0, t), m);
    assert Trail(c, s0, [], s0, m, Unused) by {
      EmptyRun(c, s0);
    }
    OffersOn(c, s0, [], s0, m, Unused, t, Waiting);
    var s1 := Step(c, Offer(c, s0, t)).value;
    var ops1 := [] + [Direct(t)] + Cycles(1);
    OpenStep(c, s1, m - 1);
    Opens(c, s0, ops1, s1, m - 1);
    var ops2, s2 := WaitsOn(c, s0, ops1 + Cycles(1), Step(c, s1).value, m - 2, Opened(1), FirstColumn(c) - 1);
    ColumnStep(c, s2, m - 1 - FirstColumn(c), 1);
    GoesOn(c, s0, ops2, s2, m - 1 - FirstColumn(c), Opened(1), AfterColumn(c, 1, s2.now),
      [Event(ColumnFor(c, First(c)), s2.now)]);
    ops, s := ops2 + Cycles(1), Step(c, s2).value;
  }

  lemma FirstPlaced(c: Config)
    requires c.Sensible()
    ensures Placed(c, First(c)) && Placed(c, SecondAccess(c))
  {
  }

  lemma EmptyRun(c: Config, s: Sys)
    requires c.Sensible() && Shape(c, s)
    ensures Run(c, s, []) == Ok(s)
  {
  }

  lemma Opens(c: Config, s0: Sys, ops: seq<Op>, s: Sys, m: nat)
    requires Trail(c, s0, ops, s, m, Waiting) && s.now == 1 && s.history.issued == []
    requires OneOn(c, s, m, Opened(1), [Event(ActivateFor(First(c)), 1)])
    ensures Trail(c, s0, ops + Cycles(1), Step(c, s).value, m - 1, Opened(1)) && Step(c, s).value.now == 2
  {
    hide Stage, Step, Run, Shape;
    OneCycle(c, s);
    RunParts(c, s0, ops, Cycles(1));
  }

  /** From the column command until the rank may wake up again. */
  lemma UpToSleep(c: Config, s0: Sys, ops: seq<Op>, s: Sys, m: nat) returns (ops1: seq<Op>, s1: Sys)
    requires c.Sensible() && Trail(c, s0, ops, s, m, AfterColumn(c, 1, 1 + FirstColumn(c)))
    requires s.now == 2 + FirstColumn(c)
    requires m >= OpenTime(c) + c.tRP + Max(c.tCKE, 1) - FirstColumn(c) - 1
    ensures var left := m - (OpenTime(c) + c.tRP + Max(c.tCKE, 1) - FirstColumn(c) - 1);
      Trail(c, s0, ops1, s1, left, Asleep(1 + OpenTime(c) + c.tRP + c.tCKE))
    ensures s1.now == 1 + OpenTime(c) + c.tRP + Max(c.tCKE, 1)
  {
    hide Stage, Step, Run, Shape;
    var ph := AfterColumn(c, 1, 1 + FirstColumn(c));
    var closes := 1 + OpenTime(c);
    assert ph == Using(closes) || ph == AutoClosing(closes);
    var ops2, s2 := WaitsOn(c, s0, ops, s, m, ph, closes - s.now);
    var m2 := m - (closes - s.now);
    var issued := RowClosedStep(c, s2, m2, ph);
    GoesOn(c, s0, ops2, s2, m2, ph, RowClosed(closes + c.tRP), issued);
    var ops3, s3 := WaitsOn(c, s0, ops2 + Cycles(1), Step(c, s2).value, m2 - 1, RowClosed(closes + c.tRP), c.tRP - 1);
    var m3 := m2 - c.tRP;
    SleepStep(c, s3, m3);
    GoesOn(c, s0, ops3, s3, m3, RowClosed(s3.now), Asleep(s3.now + c.tCKE), []);
    ops1, s1 := WaitsOn(c, s0, ops3 + Cycles(1), Step(c, s3).value, m3 - 1, Asleep(s3.now + c.tCKE),
        Max(c.tCKE, 1) - 1);
  }

  /** From the sleep to the second activate. */
  lemma UpToSecond(c: Config, s0: Sys, ops: seq<Op>, s: Sys, m: nat, until: int) returns (ops1: seq<Op>)
    requires Trail(c, s0, ops, s, m, Asleep(until)) && s.now >= until && c.transQueueDepth >= 1
    requires m >= Max(c.tXP, 1) + 1
    ensures ValidOps(c, ops1) && Run(c, s0, ops1).Ok?
    ensures var issued := Run(c, s0, ops1).value.history.issued;
      && |issued| >= 2 && issued[0] == Event(ActivateFor(First(c)), 1)
      && issued[|issued| - 1] == Event(ActivateFor(SecondAccess(c)), s.now + Max(c.tXP, 1))
  {
    hide Stage, Step, Run, Shape;
    var t := SecondAccess(c);
    FirstPlaced(c);
    StageOffered(c, s, m, Asleep(until), t);
    WakeStep(c, Offer(c, s, t), m, until);
    OffersOn(c, s0, ops, s, m, Asleep(until), t, Awake(s.now + c.tXP));
    var ops2, s2 := WaitsOn(c, s0, ops + [Direct(t)] + Cycles(1), Step(c, Offer(c, s, t)).value, m - 1,
      Awake(s.now + c.tXP), Max(c.tXP, 1) - 1);
    LastStep(c, s2, m - Max(c.tXP, 1), s.now + c.tXP);
    OneCycle(c, s2);
    RunParts(c, s0, ops2, Cycles(1));
    ops1 := ops2 + Cycles(1);
  }

  // ---- the main results ----

  lemma InitialStage(c: Config, s: Sys, m: nat)
    requires c.Sensible() && c.lowPower && c.cmdQueueDepth >= 2 && Initial(c, s) && RefreshesLate(c, s, m + c.tXP + 1)
    ensures Stage(c, s, m, Unused)
  {
    InitialCalm(c, s, m, 0);
    assert NoLines(c) == Alone(c, []);
    hide QueueShape, Calm;
  }

  /** The number of cycles that the two accesses take, and before which no rank may be woken for its refresh. */
  function EnoughForTwo(c: Config): int { ShortestRest(c) + 3 + c.tXP }

  /** Two accesses with a sleep between them that is as short as can be. */
  lemma TwoAccesses(c: Config, s: Sys, m: nat) returns (ops: seq<Op>)
    requires c.Sensible() && Shape(c, s) && Stage(c, s, m, Unused) && m == ShortestRest(c) + 2
    requires s.transactions == [] && s.now == 0 && s.history.issued == [] && c.transQueueDepth >= 1
    ensures ValidOps(c, ops) && Run(c, s, ops).Ok?
    ensures var issued := Run(c, s, ops).value.history.issued;
      && |issued| >= 2 && issued[0] == Event(ActivateFor(First(c)), 1)
      && issued[|issued| - 1] == Event(ActivateFor(SecondAccess(c)), 1 + ShortestRest(c))
  {
    hide Stage, Trail, Step, Run, Shape;
    var ops1, s1 := UpToColumn(c, s, m);
    var ops2, s2 := UpToSleep(c, s, ops1, s1, m - 2 - FirstColumn(c));
    ops := UpToSecond(c, s, ops2, s2, Max(c.tXP, 1) + 1, 1 + OpenTime(c) + c.tRP + c.tCKE);
  }

  /** Where a sleep can be too short, two activates come too close in some run. */
  lemma ShortSleepReachable(c: Config, s: Sys)
    requires c.Sensible() && c.lowPower && c.transQueueDepth >= 1 && c.cmdQueueDepth >= 2 && !SleepsLongEnough(c)
    requires Initial(c, s) && RefreshesLate(c, s, EnoughForTwo(c))
    ensures exists ops :: ValidOps(c, ops) && Run(c, s, ops).Ok? && !Distant(c, Run(c, s, ops).value.history.issued)
  {
    hide Stage, Run, QueueShape, InitialQueue, Distant, ShortestRest, SleepsLongEnough;
    var m: nat := RestLength(c);
    InitialStage(c, s, m);
    var ops := TwoAccesses(c, s, m);
    TooClose(c, Run(c, s, ops).value.history.issued);
  }

  function RestLength(c: Config): (m: nat)
    requires c.Sensible()
    ensures m == ShortestRest(c) + 2
  {
    ShortestRest(c) + 2
  }

  lemma TooClose(c: Config, issued: seq<Event>)
    requires c.Sensible() && !SleepsLongEnough(c) && |issued| >= 2
    requires issued[0] == Event(ActivateFor(First(c)), 1)
    requires issued[|issued| - 1] == Event(ActivateFor(SecondAccess(c)), 1 + ShortestRest(c))
    ensures !Distant(c, issued)
  {
    assert IsActivate(issued[0], issued[|issued| - 1].packet.rank);
  }

  /**
   The condition is exact: with ranks that sleep, activates keep their distance in every run if and only if the
   shortest sleep after an activate ends late enough.
  */
  lemma SleepsLongEnoughExactly(c: Config, s: Sys)
    requires c.Sensible() && c.lowPower && c.transQueueDepth >= 1 && c.cmdQueueDepth >= 2
    requires Initial(c, s) && RefreshesLate(c, s, EnoughForTwo(c))
    ensures SleepsLongEnough(c) <==>
      forall ops :: ValidOps(c, ops) && Run(c, s, ops).Ok? ==> Distant(c, Run(c, s, ops).value.history.issued)
  {
    hide Run, Initial, Shape, Distant, SleepsLongEnough;
    InitialShape(c, s);
    if SleepsLongEnough(c) {
      forall ops | ValidOps(c, ops) && Run(c, s, ops).Ok? ensures Distant(c, Run(c, s, ops).value.history.issued) {
        ActivatesKeepDistance(c, s, ops);
      }
    } else {
      ShortSleepReachable(c, s);
    }
  }

  /** With these times the condition holds under the open-page policy only. */
  lemma MicronSg15(c: Config)
    requires c.CL == 10 && c.AL == 0 && c.BL == 8 && c.tRAS == 24 && c.tRCD == 10 && c.tRRD == 4 && c.tRC == 34
    requires c.tRP == 10 && c.tCCD == 4 && c.tRTP == 5 && c.tWR == 10 && c.tCKE == 4 && c.tXP == 4
    ensures SleepsLongEnough(c) <==> c.openPage
  {
  }
}
