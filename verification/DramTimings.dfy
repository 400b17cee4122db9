/**
 The device's times.  In every run any two commands keep the distance that the times of the device ask for, however
 many others are in between.
*/
module DramTimings {
  import opened Wrappers
  import opened DramTypes
  import opened DramBank
  import opened DramQueue
  import opened DramSystem
  import opened DramSafety
  import opened DramTheorems
  import opened DramUnits
  import opened DramOrder
  import opened DramRowLimit
  import DramOrderTheorems

  // ---- what the device asks for ----

  /** From the command to a read of bank b of rank r. */
  function ToRead(c: Config, p: Packet, r: nat, b: nat): int {
    var burst := c.BL / 2;
    if p.kind.Activate? then (if p.rank == r && p.bank == b then c.tRCD - c.AL else 0)
    else if p.kind.IsRead() then (if p.rank == r then Max(c.tCCD, burst) else burst + c.tRTRS)
    else if p.kind.IsWrite() then (if p.rank == r then c.CL + c.AL - 1 + burst + c.tWTR else burst + c.tRTRS - 1)
    else 0
  }

  /** To a write. */
  function ToWrite(c: Config, p: Packet, r: nat, b: nat): int {
    var burst := c.BL / 2;
    if p.kind.Activate? then (if p.rank == r && p.bank == b then c.tRCD - c.AL else 0)
    else if p.kind.IsRead() then burst + c.tRTRS + 1
    else if p.kind.IsWrite() then (if p.rank == r then Max(c.tCCD, burst) else burst + c.tRTRS)
    else 0
  }

  /** To an activate, or to a refresh. */
  function ToActivate(c: Config, p: Packet, r: nat, b: nat): int {
    if p.rank != r then 0
    else match p.kind
      case Activate => if p.bank == b then c.tRC else c.tRRD
      case Precharge => if p.bank == b then c.tRP else 0
      case ReadP => if p.bank == b then c.AL + c.tRTP + c.tRP else 0
      case WriteP => if p.bank == b then c.CL + c.AL - 1 + c.BL / 2 + c.tWR + c.tRP else 0
      case Refresh => c.tRFC
      case _ => 0
  }

  /** To a precharge. */
  function ToPrecharge(c: Config, p: Packet, r: nat, b: nat): int {
    if p.rank != r || p.bank != b then 0
    else match p.kind
      case Activate => c.tRAS
      case Read => c.AL + c.BL / 2 + Max(c.tRTP, c.tCCD) - c.tCCD
      case Write => c.CL + c.AL - 1 + c.BL / 2 + c.tWR
      case _ => 0
  }

  /** The distance from p to a later q. */
  function Gap(c: Config, p: Packet, q: Packet): int {
    if q.kind.IsRead() then ToRead(c, p, q.rank, q.bank)
    else if q.kind.IsWrite() then ToWrite(c, p, q.rank, q.bank)
    else match q.kind
      case Activate => ToActivate(c, p, q.rank, q.bank)
      case Refresh => ToActivate(c, p, q.rank, p.bank)
      case Precharge => ToPrecharge(c, p, q.rank, q.bank)
      case _ => 0
  }

  predicate IsActivateOf(e: Event, r: nat, b: nat) {
    e.packet.kind.Activate? && e.packet.rank == r && e.packet.bank == b
  }

  /** After event i the bank has not been activated again. */
  predicate Fresh(issued: seq<Event>, i: nat, r: nat, b: nat) {
    forall k :: i < k < |issued| ==> !IsActivateOf(issued[k], r, b)
  }

  /**
   The distances that are kept: those to activates and refreshes unless ranks may sleep; and those between column
   commands inside a rank under the open-page policy, otherwise as long as the row that is accessed was open.
  */
  predicate Claimed(c: Config, issued: seq<Event>, i: nat, q: Packet) {
    i < |issued| && var p := issued[i].packet;
      if q.kind.IsColumn() then (c.openPage && p.rank == q.rank) || Fresh(issued, i, q.rank, q.bank)
      else !(q.kind.Activate? || q.kind.Refresh?) || !c.lowPower
  }

  /** Every command kept its distances from all commands before. */
  ghost predicate AllKept(c: Config, issued: seq<Event>) {
    forall i: nat, j: nat :: i < j < |issued| && Claimed(c, issued[..j], i, issued[j].packet) ==>
      issued[j].at >= issued[i].at + Gap(c, issued[i].packet, issued[j].packet)
  }

  // ---- what a bank's entry remembers ----

  predicate ColumnsOwed(c: Config, m: Bank, e: Event, since: bool, r: nat) {
    (c.openPage && e.packet.rank == r) || (since && m.mode.RowActive? && m.countdown == 0)
  }

  /** The entry holds commands back for as long as the event asks for. */
  predicate Owed(c: Config, m: Bank, e: Event, since: bool, r: nat, b: nat) {
    var p := e.packet;
    && (c.lowPower || ToActivate(c, p, r, b) <= 0 || e.at + ToActivate(c, p, r, b) <= m.nextActivate)
    && (ToPrecharge(c, p, r, b) <= 0 || e.at + ToPrecharge(c, p, r, b) <= m.nextPrecharge)
    && (ColumnsOwed(c, m, e, since, r) ==>
         && (ToRead(c, p, r, b) <= 0 || e.at + ToRead(c, p, r, b) <= m.nextRead)
         && (ToWrite(c, p, r, b) <= 0 || e.at + ToWrite(c, p, r, b) <= m.nextWrite))
  }

  /** What the controller knows of this bank when p goes out. */
  predicate Allows(c: Config, m: Bank, r: nat, b: nat, p: Packet, now: nat) {
    && (p.rank == r && p.kind.Refresh? ==> RefreshableAt(m, now))
    && (p.rank == r && p.bank == b && !p.kind.Refresh? ==> PermittedAt(c, m, p, now))
  }

  lemma OldOwed(c: Config, m: Bank, e: Event, since: bool, r: nat, b: nat, p: Packet, now: nat)
    requires c.Sensible() && Owed(c, m, e, since, r, b) && Allows(c, m, r, b, p, now)
    ensures Owed(c, Issue(c, m, r, b, p, now), e, since && !IsActivateOf(Event(p, now), r, b), r, b)
  {
    hide ToRead, ToWrite, ToActivate, ToPrecharge;
  }

  lemma NewOwed(c: Config, m: Bank, r: nat, b: nat, p: Packet, now: nat)
    requires c.Sensible() && Allows(c, m, r, b, p, now)
    ensures Owed(c, Issue(c, m, r, b, p, now), Event(p, now), true, r, b)
  {
  }

  /** A command that goes out has waited long enough. */
  lemma OwedIsKept(c: Config, m: Bank, e: Event, since: bool, r: nat, b: nat, q: Packet, now: nat)
    requires c.Sensible() && Owed(c, m, e, since, r, b) && e.at <= now && q.rank == r
    requires q.kind.Refresh? ==> RefreshableAt(m, now) && e.packet.bank == b
    requires !q.kind.Refresh? ==> q.bank == b && PermittedAt(c, m, q, now)
    requires q.kind.IsColumn() ==> m.countdown == 0 && ((c.openPage && e.packet.rank == r) || since)
    requires q.kind.Activate? || q.kind.Refresh? ==> !c.lowPower
    ensures now >= e.at + Gap(c, e.packet, q)
  {
    hide ToRead, ToWrite, ToActivate, ToPrecharge;
  }

  // ---- the invariant ----

  ghost predicate BankOwes(c: Config, m: Bank, issued: seq<Event>, r: nat, b: nat) {
    forall i: nat :: i < |issued| ==> Owed(c, m, issued[i], Fresh(issued, i, r, b), r, b)
  }

  predicate Sent(c: Config, issued: seq<Event>, now: nat) {
    forall i: nat :: i < |issued| ==>
      issued[i].packet.rank < c.ranks && issued[i].packet.bank < c.banks && issued[i].at < now
  }

  /** Here next is the first cycle in which another command may go out. */
  ghost predicate Timed(c: Config, s: Sys, next: nat)
    requires Shape(c, s)
  {
    && (forall r, b :: 0 <= r < c.ranks && 0 <= b < c.banks ==> BankOwes(c, s.table[r][b], s.history.issued, r, b))
    && Sent(c, s.history.issued, next) && AllKept(c, s.history.issued)
  }

  predicate KeepsTimes(c: Config, m: Bank, m1: Bank) {
    && m1.nextRead == m.nextRead && m1.nextWrite == m.nextWrite && m1.nextPrecharge == m.nextPrecharge
    && (c.lowPower || m1.nextActivate == m.nextActivate)
    && (m1.mode.RowActive? && m1.countdown == 0 ==> m.mode.RowActive? && m.countdown == 0)
  }

  lemma TableKeepsTimed(c: Config, s: Sys, s1: Sys, next: nat, next1: nat)
    requires Shape(c, s) && Shape(c, s1) && Timed(c, s, next) && next <= next1
    requires s1.history.issued == s.history.issued
    requires forall r, b :: 0 <= r < c.ranks && 0 <= b < c.banks ==> KeepsTimes(c, s.table[r][b], s1.table[r][b])
    ensures Timed(c, s1, next1)
  {
    hide QueueShape, AllKept, Fresh;
    forall r, b | 0 <= r < c.ranks && 0 <= b < c.banks
      ensures BankOwes(c, s1.table[r][b], s1.history.issued, r, b)
    {
      assert BankOwes(c, s.table[r][b], s.history.issued, r, b);
      KeepsOwed(c, s.table[r][b], s1.table[r][b], s.history.issued, r, b);
    }
  }

  lemma KeepsOwed(c: Config, m: Bank, m1: Bank, issued: seq<Event>, r: nat, b: nat)
    requires BankOwes(c, m, issued, r, b) && KeepsTimes(c, m, m1)
    ensures BankOwes(c, m1, issued, r, b)
  {
    hide ToRead, ToWrite, ToActivate, ToPrecharge, Fresh;
  }

  lemma TickKeepsTimes(c: Config, m: Bank, v: Bank, t: int)
    requires c.Sensible() && BankRel(c, m, v, t)
    ensures KeepsTimes(c, m, Tick(c, m))
  {
  }

  lemma CountDownTimed(c: Config, s: Sys, at: nat, next: nat)
    requires c.Sensible() && Shape(c, s) && Related(c, s, at, s.now - 1) && Timed(c, s, next)
    ensures Timed(c, CountDown(c, s), next)
  {
    var s1 := CountDown(c, s);
    hide QueueShape, Timed, KeepsTimes;
    forall r, b | 0 <= r < c.ranks && 0 <= b < c.banks ensures KeepsTimes(c, s.table[r][b], s1.table[r][b]) {
      assert BankRel(c, s.table[r][b], View(c, s, r, at)[b], s.now - 1);
      TickKeepsTimes(c, s.table[r][b], View(c, s, r, at)[b], s.now - 1);
    }
    TableKeepsTimed(c, s, s1, next, next);
  }

  lemma ArriveTimed(c: Config, s: Sys, next: nat)
    requires c.Sensible() && Shape(c, s) && Safe(c, s) && Timed(c, s, next) && Arrive(c, s).Ok?
    ensures Timed(c, Arrive(c, s).value, next)
  {
    hide QueueShape, Timed, AdvanceRanks, CountDown, Related, BusLegal, AllSleepAgrees;
    var s1 := AdvanceRanks(c, s, 0).value;
    DramOrderTheorems.AdvanceRanksOrder(c, s, 0);
    AdvanceRanksSame(c, s, 0);
    SameTablesKeep(c, s, s1, s.now, s.now - 1);
    TableKeepsTimed(c, s, s1, next, next);
    var s2 := AdmitWaiting(c, s1);
    SameTablesKeep(c, s1, s2, s.now, s.now - 1);
    TableKeepsTimed(c, s1, s2, next, next);
    CountDownTimed(c, s2, s.now, next);
  }

  // ---- the next command ----

  lemma FreshPush(issued: seq<Event>, e: Event, i: nat, r: nat, b: nat)
    requires i < |issued|
    ensures Fresh(issued + [e], i, r, b) <==> Fresh(issued, i, r, b) && !IsActivateOf(e, r, b)
  {
    var all := issued + [e];
    assert all[|issued|] == e;
    if Fresh(all, i, r, b) {
      forall k | i < k < |issued| ensures !IsActivateOf(issued[k], r, b) {
        assert all[k] == issued[k];
      }
    }
  }

  lemma BankOwesPush(c: Config, m: Bank, issued: seq<Event>, r: nat, b: nat, p: Packet, now: nat)
    requires c.Sensible() && BankOwes(c, m, issued, r, b) && Allows(c, m, r, b, p, now)
    ensures BankOwes(c, Issue(c, m, r, b, p, now), issued + [Event(p, now)], r, b)
  {
    var e := Event(p, now);
    var all := issued + [e];
    forall i: nat | i < |all| ensures Owed(c, Issue(c, m, r, b, p, now), all[i], Fresh(all, i, r, b), r, b) {
      if i < |issued| {
        FreshPush(issued, e, i, r, b);
        OldOwed(c, m, issued[i], Fresh(issued, i, r, b), r, b, p, now);
      } else {
        assert Fresh(all, i, r, b);
        NewOwed(c, m, r, b, p, now);
      }
    }
  }

  lemma KeptPush(c: Config, issued: seq<Event>, e: Event)
    requires AllKept(c, issued)
    requires forall i: nat :: i < |issued| && Claimed(c, issued, i, e.packet) ==>
      e.at >= issued[i].at + Gap(c, issued[i].packet, e.packet)
    ensures AllKept(c, issued + [e])
  {
    hide Gap, Claimed;
    var all := issued + [e];
    forall i: nat, j: nat | i < j < |all| && Claimed(c, all[..j], i, all[j].packet)
      ensures all[j].at >= all[i].at + Gap(c, all[i].packet, all[j].packet)
    {
      if j < |issued| {
        assert all[..j] == issued[..j];
      } else {
        assert all[..j] == issued;
      }
    }
  }

  lemma ClaimKept(c: Config, s: Sys, q: Packet, i: nat)
    requires c.Sensible() && Shape(c, s) && Timed(c, s, s.now) && Settled(c, s.table, s.now)
    requires q.rank < c.ranks && q.bank < c.banks && Permitted(c, s.table[q.rank], q, s.now)
    requires i < |s.history.issued| && Claimed(c, s.history.issued, i, q)
    ensures s.now >= s.history.issued[i].at + Gap(c, s.history.issued[i].packet, q)
  {
    hide QueueShape, AllKept, ToRead, ToWrite, ToActivate, ToPrecharge, Gap, Fresh, Owed;
    var issued := s.history.issued;
    var b := if q.kind.Refresh? then issued[i].packet.bank else q.bank;
    var m := s.table[q.rank][b];
    assert BankOwes(c, m, issued, q.rank, b);
    assert q.kind.IsColumn() ==> m.countdown == 0;
    OwedIsKept(c, m, issued[i], Fresh(issued, i, q.rank, b), q.rank, b, q, s.now);
  }

  lemma IssuedTimed(c: Config, s: Sys, s1: Sys, p: Packet)
    requires c.Sensible() && Shape(c, s) && Shape(c, s1) && Timed(c, s, s.now) && Settled(c, s.table, s.now)
    requires p.rank < c.ranks && p.bank < c.banks && !p.kind.Data? && Permitted(c, s.table[p.rank], p, s.now)
    requires s1.history.issued == s.history.issued + [Event(p, s.now)] && s1.table == IssueTable(c, s.table, p, s.now)
    ensures Timed(c, s1, s.now + 1)
  {
    var e := Event(p, s.now);
    forall r, b | 0 <= r < c.ranks && 0 <= b < c.banks
      ensures BankOwes(c, s1.table[r][b], s1.history.issued, r, b)
    {
      assert BankOwes(c, s.table[r][b], s.history.issued, r, b);
      assert s1.table[r][b] == Issue(c, s.table[r][b], r, b, p, s.now);
      hide BankOwes, Issue, IssueTable, QueueShape, AllKept;
      BankOwesPush(c, s.table[r][b], s.history.issued, r, b, p, s.now);
    }
    hide QueueShape, BankOwes, IssueTable;
    forall i: nat | i < |s.history.issued| && Claimed(c, s.history.issued, i, p)
      ensures s.now >= s.history.issued[i].at + Gap(c, s.history.issued[i].packet, p)
    {
      ClaimKept(c, s, p, i);
    }
    KeptPush(c, s.history.issued, e);
  }

  lemma IssueNextTimed(c: Config, s: Sys)
    requires c.Sensible() && Shape(c, s) && GoodInside(c, s) && Timed(c, s, s.now) && IssueNext(c, s).Ok?
    ensures Timed(c, IssueNext(c, s).value, s.now + 1)
  {
    var q0 := s.queue.(faw := AgeAll(s.queue.faw));
    var pick := Choose(c, q0, s.table, s.now);
    var s1 := IssueNext(c, s).value;
    hide Timed, IssueNext, Choose, Remove, QueueShape, Valid, Settled, Related, AllSleepAgrees, Permitted;
    SettledOf(c, s);
    DramOrderTheorems.AgedShape(c, s.queue);
    IssuedEvents(c, s);
    if pick.Nothing? {
      DramOrderTheorems.IssuedNothing(c, s);
      TableKeepsTimed(c, s, s1, s.now, s.now + 1);
    } else {
      DramOrderTheorems.IssuedAfter(c, s);
      WholeRanksOf(c, s);
      ChoiceIsPermitted(c, q0, s.table, pick, s.now);
      IssuedTimed(c, s, s1, Chosen(c, q0, pick));
    }
  }

  // ---- steps and runs ----

  lemma PowerRankTimed(c: Config, s: Sys, i: nat, next: nat)
    requires c.Sensible() && Shape(c, s) && i < c.ranks && c.lowPower && PowerRank(c, s, i).Ok?
    requires Timed(c, s, next)
    ensures Timed(c, PowerRank(c, s, i).value, next)
  {
    var s1 := PowerRank(c, s, i).value;
    assert s1.history == s.history;
    forall r, b | 0 <= r < c.ranks && 0 <= b < c.banks ensures KeepsTimes(c, s.table[r][b], s1.table[r][b]) {
    }
    hide PowerRank, QueueShape, Timed, KeepsTimes;
    TableKeepsTimed(c, s, s1, next, next);
  }

  lemma {:induction false} PowerRanksTimed(c: Config, s: Sys, i: nat, next: nat)
    requires c.Sensible() && Shape(c, s) && i <= c.ranks && Timed(c, s, next)
    requires Related(c, s, s.now + 1, s.now) && BusLegal(c, s, s.now + 1) && AllSleepAgrees(c, s) && BusBusy(c, s)
    ensures PowerRanks(c, s, i).Ok? && Timed(c, PowerRanks(c, s, i).value, next)
    decreases c.ranks - i
  {
    hide Shape, Related, BusLegal, BusBusy, Timed, PowerRank, SleepAgrees;
    if i < c.ranks && c.lowPower {
      PowerRankSafe(c, s, i);
      PowerRankTimed(c, s, i, next);
      PowerRanksTimed(c, PowerRank(c, s, i).value, i + 1, next);
    }
  }

  lemma CloseTimed(c: Config, s: Sys, next: nat)
    requires c.Sensible() && Shape(c, s) && GoodIssued(c, s) && Timed(c, s, next) && Close(c, s).Ok?
    ensures Timed(c, Close(c, s).value, next)
  {
    IssuedIsSafe(c, s);
    hide QueueShape, Timed, GoodIssued, Related, AllSleepAgrees, BusLegal, BusBusy, PowerRanks;
    PowerRanksTimed(c, s, 0, next);
    var s1 := PowerRanks(c, s, 0).value;
    DramOrderTheorems.ClosedSame(c, s);
    hide Close;
    TableKeepsTimed(c, s1, Close(c, s).value, next, next);
  }

  lemma StepTimed(c: Config, s: Sys)
    requires c.Sensible() && Shape(c, s) && Good(c, s) && Timed(c, s, s.now) && Step(c, s).Ok?
    ensures Timed(c, Step(c, s).value, s.now + 1)
  {
    hide Shape, Good, GoodInside, GoodIssued, Timed, Arrive, MoveBuses, IssueNext, Schedule, Close, RefreshTimer;
    FirstHalfGood(c, s);
    DramOrderTheorems.SafeOf(c, s);
    var s1 := Arrive(c, s).value;
    var s2 := MoveBuses(c, s1).value;
    var s3 := RefreshTimer(c, s2);
    var s4 := IssueNext(c, s3).value;
    ArriveTimed(c, s, s.now);
    DramOrderTheorems.MoveBusesOrder(c, s1);
    TableKeepsTimed(c, s1, s2, s.now, s.now);
    DramOrderTheorems.RefreshTimerOrder(c, s2);
    TableKeepsTimed(c, s2, s3, s.now, s.now);
    RefreshTimerGood(c, s2);
    IssueNextTimed(c, s3);
    IssueNextGood(c, s3);
    DramOrderTheorems.ScheduleKeeps(c, s4);
    ScheduleGood(c, s4);
    TableKeepsTimed(c, s4, Schedule(c, s4).value, s.now + 1, s.now + 1);
    CloseTimed(c, Schedule(c, s4).value, s.now + 1);
  }

  lemma {:induction false} RunTimed(c: Config, s: Sys, ops: seq<Op>)
    requires c.Sensible() && Shape(c, s) && Good(c, s) && DramOrderTheorems.Orderly(c, s, s.now - 1)
    requires Timed(c, s, s.now) && forall i :: 0 <= i < |ops| ==> ValidOp(c, ops[i])
    requires Run(c, s, ops).Ok?
    ensures var e := Run(c, s, ops).value; Timed(c, e, e.now)
    decreases |ops|
  {
    hide Shape, Good, Step, DramOrderTheorems.Orderly, Timed, Submit, Offer;
    if ops != [] {
      var s1 := Do(c, s, ops[0]).value;
      match ops[0] {
        case Request(t) =>
          OfferGood(c, s, t);
          DramOrderTheorems.SubmitOrderly(c, s, t);
          SubmitTimed(c, s, t);
        case Direct(t) =>
          OfferGood(c, s, t);
          DramOrderTheorems.SubmitOrderly(c, s, t);
          SubmitTimed(c, s, t);
        case Cycle =>
          StepGood(c, s);
          DramOrderTheorems.StepOrderly(c, s);
          StepTimed(c, s);
      }
      RunTimed(c, s1, ops[1..]);
    }
  }

  lemma SubmitTimed(c: Config, s: Sys, t: Transaction)
    requires c.Sensible() && Shape(c, s) && Timed(c, s, s.now) && Placed(c, t)
    ensures Timed(c, Submit(c, s, t), s.now) && Timed(c, Offer(c, s, t), s.now)
  {
    hide Timed, QueueShape;
    TableKeepsTimed(c, s, Offer(c, s, t), s.now, s.now);
    TableKeepsTimed(c, s, Submit(c, s, t), s.now, s.now);
  }

  /**
   In every run any two commands keep the distance that the device asks for; to an activate or a refresh unless ranks
   may sleep, and between column commands inside a rank under the open-page policy, otherwise as long as the
   row that is accessed was open all the time.
  */
  lemma TimingsKept(c: Config, s: Sys, ops: seq<Op>)
    requires c.Sensible() && Initial(c, s) && forall i :: 0 <= i < |ops| ==> ValidOp(c, ops[i])
    requires Run(c, s, ops).Ok?
    ensures AllKept(c, Run(c, s, ops).value.history.issued)
  {
    hide Run, Good, DramOrderTheorems.Orderly, QueueShape, InitialQueue, BankOwes;
    InitialGood(c, s);
    DramOrderTheorems.InitialOrderly(c, s);
    NothingOwed(c, s);
    RunTimed(c, s, ops);
  }

  lemma NothingOwed(c: Config, s: Sys)
    requires c.Sensible() && Initial(c, s)
    ensures Timed(c, s, s.now)
  {
    hide QueueShape, InitialQueue;
  }
}
