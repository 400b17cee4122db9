/**
 The controller's table against the history of issued commands: what it says of a bank is what the commands so far
 and the device's times ask for, no less and no more.
*/
module DramTable {
  import opened Wrappers
  import opened DramTypes
  import opened DramBank
  import opened DramQueue
  import opened DramRank
  import opened DramSystem
  import opened DramSafety
  import opened DramTheorems
  import opened DramUnits
  import opened DramOrder
  import opened DramRowLimit
  import opened DramTimings
  import DramOrderTheorems

  // ---- what the history says ----

  predicate Concerns(e: Event, r: nat, b: nat) { e.packet.rank == r && (e.packet.bank == b || e.packet.kind.Refresh?) }

  /** The last command to this bank. */
  function Last(issued: seq<Event>, r: nat, b: nat): Option<Event> {
    if issued == [] then None
    else
      var n := |issued| - 1;
      if Concerns(issued[n], r, b) then Some(issued[n]) else Last(issued[..n], r, b)
  }

  datatype Phase = Phase(mode: Mode, left: int)

  /** For how long the row stays open that an access closes. */
  function ClosingTime(c: Config, p: Packet): int {
    if p.kind.IsRead() then c.AL + c.BL / 2 + Max(c.tRTP, c.tCCD) - c.tCCD else c.CL + c.AL - 1 + c.BL / 2 + c.tWR
  }

  /** In which phase the bank is at t after its last command, and for how many more cycles. */
  function PhaseAfter(c: Config, last: Option<Event>, t: int): Phase {
    match last
    case None => Phase(Idle, 0)
    case Some(e) =>
      var age := t - e.at;
      match e.packet.kind
      case Activate | Read | Write => Phase(RowActive, 0)
      case ReadP | WriteP =>
        var closed := ClosingTime(c, e.packet);
        if age < closed then Phase(RowActive, closed - age)
        else if age < closed + c.tRP then Phase(Precharging, closed + c.tRP - age)
        else Phase(Idle, 0)
      case Precharge => if age < c.tRP then Phase(Precharging, c.tRP - age) else Phase(Idle, 0)
      case Refresh => if age < c.tRFC then Phase(Refreshing, c.tRFC - age) else Phase(Idle, 0)
      case Data => Phase(Idle, 0)
  }

  predicate ClosesItself(e: Event, r: nat, b: nat) {
    e.packet.kind.AutoPrecharges() && e.packet.rank == r && e.packet.bank == b
  }

  /** A column access is noted at its own rank, and at open banks of the others, until the row closes itself. */
  predicate Noted(c: Config, issued: seq<Event>, i: nat, r: nat, b: nat) {
    && i < |issued|
    && (issued[i].packet.rank == r || PhaseAfter(c, Last(issued[..i], r, b), issued[i].at).mode.RowActive?)
    && forall k :: i <= k < |issued| ==> !ClosesItself(issued[k], r, b)
  }

  datatype Timer = ForRead | ForWrite | ForActivate | ForPrecharge {
    predicate IsColumn() { ForRead? || ForWrite? }
  }

  function TimeOf(m: Bank, k: Timer): nat {
    match k
    case ForRead => m.nextRead
    case ForWrite => m.nextWrite
    case ForActivate => m.nextActivate
    case ForPrecharge => m.nextPrecharge
  }

  /** What the device asks for. */
  function Dist(c: Config, k: Timer, p: Packet, r: nat, b: nat): int {
    match k
    case ForRead => ToRead(c, p, r, b)
    case ForWrite => ToWrite(c, p, r, b)
    case ForActivate => ToActivate(c, p, r, b)
    case ForPrecharge => ToPrecharge(c, p, r, b)
  }

  predicate Counts(c: Config, issued: seq<Event>, k: Timer, i: nat, r: nat, b: nat) {
    i < |issued| && (k.IsColumn() ==> Noted(c, issued, i, r, b))
  }

  /** At x all commands that count are far enough back. */
  ghost predicate AllPast(c: Config, issued: seq<Event>, k: Timer, r: nat, b: nat, x: nat) {
    forall i: nat :: i < |issued| && Counts(c, issued, k, i, r, b) ==>
        x >= issued[i].at + Dist(c, k, issued[i].packet, r, b)
  }

  // ---- one entry ----

  predicate Open(m: Bank) { m.mode.RowActive? && m.countdown == 0 }

  predicate FitsPhase(c: Config, m: Bank, last: Option<Event>, t: int) {
    && (last.Some? ==> last.value.at <= t)
    && (m.mode.PowerDown? ==> c.lowPower)
    && (if m.mode.PowerDown? then m.countdown == 0 && PhaseAfter(c, last, t).mode.Idle?
        else m.mode == PhaseAfter(c, last, t).mode && m.countdown == PhaseAfter(c, last, t).left)
    && (m.mode.RowActive? ==> m.openRow == last.value.packet.row)
    && (m.countdown > 0 ==> match m.mode
          case RowActive => m.lastCommand.AutoPrecharges()
          case Precharging => m.lastCommand.Precharge?
          case _ => m.lastCommand.Refresh?)
  }

  predicate Owes(c: Config, m: Bank, issued: seq<Event>, k: Timer, i: nat, r: nat, b: nat) {
    Counts(c, issued, k, i, r, b) ==>
      Dist(c, k, issued[i].packet, r, b) <= 0 || issued[i].at + Dist(c, k, issued[i].packet, r, b) <= TimeOf(m, k)
  }

  predicate Asked(c: Config, m: Bank, issued: seq<Event>, k: Timer, i: nat, r: nat, b: nat) {
    Counts(c, issued, k, i, r, b) && issued[i].at + Dist(c, k, issued[i].packet, r, b) == TimeOf(m, k)
  }

  /** The time is over, or some command asks for it; while the bank is closed, that of columns may be the activate's. */
  ghost predicate Reached(c: Config, m: Bank, issued: seq<Event>, k: Timer, r: nat, b: nat, next: nat) {
    || TimeOf(m, k) <= next
    || (k.IsColumn() && !Open(m) && TimeOf(m, k) <= m.nextActivate)
    || exists i: nat :: Asked(c, m, issued, k, i, r, b)
  }

  ghost predicate TimerFits(c: Config, m: Bank, issued: seq<Event>, k: Timer, r: nat, b: nat, next: nat) {
    (forall i: nat :: Owes(c, m, issued, k, i, r, b)) && Reached(c, m, issued, k, r, b, next)
  }

  ghost predicate Fits(c: Config, m: Bank, issued: seq<Event>, r: nat, b: nat, t: int, next: nat) {
    FitsPhase(c, m, Last(issued, r, b), t) &&
        (!c.lowPower ==> forall k: Timer :: TimerFits(c, m, issued, k, r, b, next))
  }

  /** The timer is what the commands that count ask for. */
  lemma TimerExactly(c: Config, m: Bank, issued: seq<Event>, k: Timer, r: nat, b: nat, next: nat, x: nat)
    requires TimerFits(c, m, issued, k, r, b, next) && Sent(c, issued, next) && x >= next
    requires k.IsColumn() ==> Open(m)
    ensures x >= TimeOf(m, k) <==> AllPast(c, issued, k, r, b, x)
  {
    hide Dist, Counts, TimeOf;
    if x >= TimeOf(m, k) {
      forall i: nat | i < |issued| && Counts(c, issued, k, i, r, b)
        ensures x >= issued[i].at + Dist(c, k, issued[i].packet, r, b)
      {
        assert Owes(c, m, issued, k, i, r, b);
      }
    } else if i: nat :| Asked(c, m, issued, k, i, r, b) {
      CountsInside(c, issued, k, i, r, b);
    }
  }

  // ---- one command ----

  lemma LastPush(issued: seq<Event>, e: Event, r: nat, b: nat)
    ensures Last(issued + [e], r, b) == if Concerns(e, r, b) then Some(e) else Last(issued, r, b)
  {
    assert (issued + [e])[..|issued|] == issued;
  }

  /** An earlier command counts as before, but column accesses are forgotten when the row closes itself. */
  lemma CountsPush(c: Config, issued: seq<Event>, e: Event, k: Timer, i: nat, r: nat, b: nat)
    requires i < |issued|
    ensures Counts(c, issued + [e], k, i, r, b) <==>
      Counts(c, issued, k, i, r, b) && !(k.IsColumn() && ClosesItself(e, r, b))
  {
    var all := issued + [e];
    assert all[..i] == issued[..i] && all[i] == issued[i];
    hide PhaseAfter, ClosesItself;
    assert all[|issued|] == e;
    if Noted(c, all, i, r, b) {
      forall j | i <= j < |issued| ensures !ClosesItself(issued[j], r, b) {
        assert all[j] == issued[j];
      }
    }
  }

  lemma CountsNew(c: Config, m: Bank, issued: seq<Event>, e: Event, k: Timer, r: nat, b: nat)
    requires FitsPhase(c, m, Last(issued, r, b), e.at)
    ensures Counts(c, issued + [e], k, |issued|, r, b) <==>
      (k.IsColumn() ==> (e.packet.rank == r || m.mode.RowActive?) && !ClosesItself(e, r, b))
  {
    var all := issued + [e];
    assert all[..|issued|] == issued && all[|issued|] == e;
    hide PhaseAfter, ClosesItself;
  }

  predicate MovesRight(c: Config, m: Bank, k: Timer, r: nat, b: nat, p: Packet, now: nat)
    requires c.Sensible()
  {
    var t, t1 := TimeOf(m, k), TimeOf(Issue(c, m, r, b, p, now), k);
    var closes := k.IsColumn() && ClosesItself(Event(p, now), r, b);
    var counts := k.IsColumn() ==> (p.rank == r || m.mode.RowActive?) && !closes;
    var d := Dist(c, k, p, r, b);
    && (counts ==> d <= 0 || t1 == Max(now + d, t))
    && (!counts || d <= 0 ==> t1 == t || t1 <= now || closes)
    && (closes ==> t1 == Issue(c, m, r, b, p, now).nextActivate)
    && (t1 >= t || closes)
  }

  lemma ColumnTimersMove(c: Config, m: Bank, r: nat, b: nat, p: Packet, now: nat)
    requires c.Sensible() && !p.kind.Data?
    ensures MovesRight(c, m, ForRead, r, b, p, now) && MovesRight(c, m, ForWrite, r, b, p, now)
  {
  }

  lemma RowTimersMove(c: Config, m: Bank, r: nat, b: nat, p: Packet, now: nat)
    requires c.Sensible() && Allows(c, m, r, b, p, now) && !p.kind.Data?
    ensures MovesRight(c, m, ForActivate, r, b, p, now) && MovesRight(c, m, ForPrecharge, r, b, p, now)
  {
  }

  /** What a command does to one timer of one entry. */
  lemma TimerMoves(c: Config, m: Bank, k: Timer, r: nat, b: nat, p: Packet, now: nat)
    requires c.Sensible() && Allows(c, m, r, b, p, now) && !p.kind.Data?
    ensures MovesRight(c, m, k, r, b, p, now)
  {
    hide MovesRight, Allows;
    if k.IsColumn() {
      ColumnTimersMove(c, m, r, b, p, now);
    } else {
      RowTimersMove(c, m, r, b, p, now);
    }
  }

  lemma EntryOpens(c: Config, m: Bank, r: nat, b: nat, p: Packet, now: nat)
    requires c.Sensible() && Allows(c, m, r, b, p, now) && !p.kind.Data?
    ensures var m1 := Issue(c, m, r, b, p, now);
      && m1.nextActivate >= m.nextActivate
      && (Open(m1) && !Open(m) ==> p.kind.Activate? && m.nextActivate <= now)
      && (ClosesItself(Event(p, now), r, b) ==> !Open(m1))
  {
  }

  lemma OwesPush(c: Config, m: Bank, m1: Bank, issued: seq<Event>, e: Event, k: Timer, i: nat, r: nat, b: nat)
    requires i < |issued| && Owes(c, m, issued, k, i, r, b)
    requires TimeOf(m1, k) >= TimeOf(m, k) || (k.IsColumn() && ClosesItself(e, r, b))
    ensures Owes(c, m1, issued + [e], k, i, r, b)
  {
    CountsPush(c, issued, e, k, i, r, b);
    hide Counts, Dist, TimeOf, ClosesItself;
  }

  lemma TimerPush(c: Config, m: Bank, issued: seq<Event>, k: Timer, r: nat, b: nat, p: Packet, now: nat)
    requires c.Sensible() && Allows(c, m, r, b, p, now) && !p.kind.Data?
    requires FitsPhase(c, m, Last(issued, r, b), now) && TimerFits(c, m, issued, k, r, b, now)
    ensures TimerFits(c, Issue(c, m, r, b, p, now), issued + [Event(p, now)], k, r, b, now + 1)
  {
    var e := Event(p, now);
    var m1 := Issue(c, m, r, b, p, now);
    var all := issued + [e];
    TimerMoves(c, m, k, r, b, p, now);
    CountsNew(c, m, issued, e, k, r, b);
    EntryOpens(c, m, r, b, p, now);
    hide Dist, TimeOf, ClosesItself, FitsPhase, Allows, Issue, Counts;
    forall i: nat ensures Owes(c, m1, all, k, i, r, b) {
      if i < |issued| {
        assert Owes(c, m, issued, k, i, r, b);
        OwesPush(c, m, m1, issued, e, k, i, r, b);
      } else {
        CountsInside(c, all, k, i, r, b);
      }
    }
    ReachedPush(c, m, m1, issued, e, k, r, b);
  }

  lemma CountsInside(c: Config, issued: seq<Event>, k: Timer, i: nat, r: nat, b: nat)
    ensures Counts(c, issued, k, i, r, b) ==> i < |issued|
  {
  }

  lemma ReachedPush(c: Config, m: Bank, m1: Bank, issued: seq<Event>, e: Event, k: Timer, r: nat, b: nat)
    requires Reached(c, m, issued, k, r, b, e.at)
    requires m1.nextActivate >= m.nextActivate
    requires Open(m1) && !Open(m) ==> m.nextActivate <= e.at
    requires ClosesItself(e, r, b) ==> !Open(m1)
    requires var all := issued + [e]; var d := Dist(c, k, e.packet, r, b);
      if Counts(c, all, k, |issued|, r, b) && d > 0 then TimeOf(m1, k) == Max(e.at + d, TimeOf(m, k))
      else TimeOf(m1, k) == TimeOf(m, k) || TimeOf(m1, k) <= e.at || (k.IsColumn() && ClosesItself(e, r, b))
    requires k.IsColumn() && ClosesItself(e, r, b) ==> TimeOf(m1, k) == m1.nextActivate
    ensures Reached(c, m1, issued + [e], k, r, b, e.at + 1)
  {
    var all := issued + [e];
    hide Dist, TimeOf, ClosesItself, Counts, Open;
    if Counts(c, all, k, |issued|, r, b) && TimeOf(m1, k) == e.at + Dist(c, k, e.packet, r, b) {
      assert Asked(c, m1, all, k, |issued|, r, b);
    } else if TimeOf(m1, k) == TimeOf(m, k) && exists i: nat :: Asked(c, m, issued, k, i, r, b) {
      var i: nat :| Asked(c, m, issued, k, i, r, b);
      CountsInside(c, issued, k, i, r, b);
      CountsPush(c, issued, e, k, i, r, b);
      assert (k.IsColumn() && ClosesItself(e, r, b)) || Asked(c, m1, all, k, i, r, b);
    }
  }

  // ---- phases of a bank ----

  lemma TickFits(c: Config, m: Bank, last: Option<Event>, t: int)
    requires c.Sensible() && FitsPhase(c, m, last, t)
    ensures FitsPhase(c, Tick(c, m), last, t + 1)
  {
  }

  /** What is known of one entry beside the history. */
  predicate Settles(c: Config, m: Bank, now: nat) {
    && (m.mode.Refreshing? ==> m.countdown > 0 && m.nextActivate >= now + m.countdown)
    && (m.mode.RowActive? && m.countdown > 0 ==> !c.openPage && m.nextRead > now && m.nextWrite > now)
  }

  lemma IssueFits(c: Config, m: Bank, issued: seq<Event>, r: nat, b: nat, p: Packet, now: nat)
    requires c.Sensible() && Settles(c, m, now) && Allows(c, m, r, b, p, now) && !p.kind.Data?
    requires FitsPhase(c, m, Last(issued, r, b), now)
    ensures FitsPhase(c, Issue(c, m, r, b, p, now), Last(issued + [Event(p, now)], r, b), now)
  {
    LastPush(issued, Event(p, now), r, b);
    hide Last;
  }

  lemma EntryPush(c: Config, m: Bank, issued: seq<Event>, r: nat, b: nat, p: Packet, now: nat)
    requires c.Sensible() && Settles(c, m, now) && Allows(c, m, r, b, p, now) && !p.kind.Data?
    requires Fits(c, m, issued, r, b, now, now)
    ensures Fits(c, Issue(c, m, r, b, p, now), issued + [Event(p, now)], r, b, now, now + 1)
  {
    IssueFits(c, m, issued, r, b, p, now);
    hide Issue, Settles, FitsPhase, TimerFits;
    var m1, all, next := Issue(c, m, r, b, p, now), issued + [Event(p, now)], now + 1;
    if !c.lowPower {
      forall k: Timer ensures TimerFits(c, m1, all, k, r, b, next) {
        TimerPush(c, m, issued, k, r, b, p, now);
      }
    }
  }

  /** An entry with the same times fits as well, as time goes on. */
  lemma EntryStays(c: Config, m: Bank, m1: Bank, issued: seq<Event>, r: nat, b: nat, t: int, t1: int,
      next: nat, next1: nat)
    requires Fits(c, m, issued, r, b, t, next) && FitsPhase(c, m1, Last(issued, r, b), t1) && next <= next1
    requires KeepsTimes(c, m, m1)
    ensures Fits(c, m1, issued, r, b, t1, next1)
  {
    hide FitsPhase, Dist, Counts;
    if !c.lowPower {
      forall k: Timer ensures TimerFits(c, m1, issued, k, r, b, next1) {
        assert TimerFits(c, m, issued, k, r, b, next);
        assert TimeOf(m1, k) == TimeOf(m, k);
        assert forall i: nat :: Owes(c, m, issued, k, i, r, b) ==> Owes(c, m1, issued, k, i, r, b);
        assert forall i: nat :: Asked(c, m, issued, k, i, r, b) ==> Asked(c, m1, issued, k, i, r, b);
      }
    }
  }

  // ---- the table ----

  /** The table counts down to t, and next is the first cycle in which another command may go out. */
  ghost predicate Decided(c: Config, s: Sys, t: int, next: nat)
    requires Shape(c, s)
  {
    && (forall r, b :: 0 <= r < c.ranks && 0 <= b < c.banks ==>
         Fits(c, s.table[r][b], s.history.issued, r, b, t, next))
    && Sent(c, s.history.issued, next)
  }

  lemma SameDecided(c: Config, s: Sys, s1: Sys, t: int, next: nat)
    requires Shape(c, s) && Shape(c, s1) && Decided(c, s, t, next)
    requires s1.history.issued == s.history.issued && s1.table == s.table
    ensures Decided(c, s1, t, next)
  {
    hide QueueShape, Fits;
  }

  lemma CountDownDecided(c: Config, s: Sys, at: nat, t: int, next: nat)
    requires c.Sensible() && Shape(c, s) && Related(c, s, at, s.now - 1) && Decided(c, s, t, next)
    ensures Decided(c, CountDown(c, s), t + 1, next)
  {
    var s1 := CountDown(c, s);
    hide QueueShape, KeepsTimes, Fits, FitsPhase, BankRel;
    forall r, b | 0 <= r < c.ranks && 0 <= b < c.banks
      ensures Fits(c, s1.table[r][b], s1.history.issued, r, b, t + 1, next)
    {
      var m := s.table[r][b];
      assert BankRel(c, m, View(c, s, r, at)[b], s.now - 1);
      TickKeepsTimes(c, m, View(c, s, r, at)[b], s.now - 1);
      FitsHasPhase(c, m, s.history.issued, r, b, t, next);
      TickFits(c, m, Last(s.history.issued, r, b), t);
      EntryStays(c, m, Tick(c, m), s.history.issued, r, b, t, t + 1, next, next);
    }
  }

  lemma FitsHasPhase(c: Config, m: Bank, issued: seq<Event>, r: nat, b: nat, t: int, next: nat)
    requires Fits(c, m, issued, r, b, t, next)
    ensures FitsPhase(c, m, Last(issued, r, b), t)
  {
  }

  lemma ArriveDecided(c: Config, s: Sys, t: int, next: nat)
    requires c.Sensible() && Shape(c, s) && Safe(c, s) && Decided(c, s, t, next) && Arrive(c, s).Ok?
    ensures Decided(c, Arrive(c, s).value, t + 1, next)
  {
    hide QueueShape, Decided, AdvanceRanks, CountDown, Related, BusLegal, AllSleepAgrees;
    var s1 := AdvanceRanks(c, s, 0).value;
    DramOrderTheorems.AdvanceRanksOrder(c, s, 0);
    AdvanceRanksSame(c, s, 0);
    SameTablesKeep(c, s, s1, s.now, s.now - 1);
    SameDecided(c, s, s1, t, next);
    var s2 := AdmitWaiting(c, s1);
    SameTablesKeep(c, s1, s2, s.now, s.now - 1);
    SameDecided(c, s1, s2, t, next);
    CountDownDecided(c, s2, s.now, t, next);
  }

  lemma IssuedDecided(c: Config, s: Sys, s1: Sys, p: Packet)
    requires c.Sensible() && Shape(c, s) && Shape(c, s1) && Decided(c, s, s.now, s.now) && Settled(c, s.table, s.now)
    requires p.rank < c.ranks && p.bank < c.banks && !p.kind.Data? && Permitted(c, s.table[p.rank], p, s.now)
    requires s1.history.issued == s.history.issued + [Event(p, s.now)] && s1.table == IssueTable(c, s.table, p, s.now)
    ensures Decided(c, s1, s.now, s.now + 1)
  {
    forall r, b | 0 <= r < c.ranks && 0 <= b < c.banks
      ensures Fits(c, s1.table[r][b], s1.history.issued, r, b, s.now, s.now + 1)
    {
      assert Fits(c, s.table[r][b], s.history.issued, r, b, s.now, s.now);
      assert s1.table[r][b] == Issue(c, s.table[r][b], r, b, p, s.now);
      hide Fits, Issue, IssueTable, QueueShape;
      EntryPush(c, s.table[r][b], s.history.issued, r, b, p, s.now);
    }
    hide Fits, IssueTable, QueueShape;
  }

  lemma IssueNextDecided(c: Config, s: Sys)
    requires c.Sensible() && Shape(c, s) && GoodInside(c, s) && Decided(c, s, s.now, s.now) && IssueNext(c, s).Ok?
    ensures Decided(c, IssueNext(c, s).value, s.now, s.now + 1)
  {
    var q0 := s.queue.(faw := AgeAll(s.queue.faw));
    var pick := Choose(c, q0, s.table, s.now);
    var s1 := IssueNext(c, s).value;
    hide Decided, IssueNext, Choose, Remove, QueueShape, Valid, Settled, Related, AllSleepAgrees, Permitted;
    SettledOf(c, s);
    DramOrderTheorems.AgedShape(c, s.queue);
    IssuedEvents(c, s);
    if pick.Nothing? {
      DramOrderTheorems.IssuedNothing(c, s);
      LaterDecided(c, s, s1, s.now, s.now, s.now + 1);
    } else {
      DramOrderTheorems.IssuedAfter(c, s);
      WholeRanksOf(c, s);
      ChoiceIsPermitted(c, q0, s.table, pick, s.now);
      IssuedDecided(c, s, s1, Chosen(c, q0, pick));
    }
  }

  lemma LaterDecided(c: Config, s: Sys, s1: Sys, t: int, next: nat, next1: nat)
    requires Shape(c, s) && Shape(c, s1) && Decided(c, s, t, next) && next <= next1
    requires s1.history.issued == s.history.issued && s1.table == s.table
    ensures Decided(c, s1, t, next1)
  {
    hide QueueShape, Fits;
    forall r, b | 0 <= r < c.ranks && 0 <= b < c.banks
      ensures Fits(c, s1.table[r][b], s1.history.issued, r, b, t, next1)
    {
      var m := s.table[r][b];
      assert Fits(c, m, s.history.issued, r, b, t, next);
      FitsHasPhase(c, m, s.history.issued, r, b, t, next);
      EntryStays(c, m, m, s.history.issued, r, b, t, t, next, next1);
    }
  }

  lemma PowerRankDecided(c: Config, s: Sys, i: nat, next: nat)
    requires c.Sensible() && Shape(c, s) && i < c.ranks && c.lowPower && PowerRank(c, s, i).Ok?
    requires Decided(c, s, s.now, next) && SleepAgrees(c, s, i)
    requires forall r, b :: 0 <= r < c.ranks && 0 <= b < c.banks && s.table[r][b].mode.Idle? ==>
      s.table[r][b].countdown == 0
    ensures Decided(c, PowerRank(c, s, i).value, s.now, next)
  {
    var s1 := PowerRank(c, s, i).value;
    assert s1.history == s.history;
    hide QueueShape, PhaseAfter, Last;
    forall r, b | 0 <= r < c.ranks && 0 <= b < c.banks
      ensures Fits(c, s1.table[r][b], s1.history.issued, r, b, s.now, next)
    {
      assert Fits(c, s.table[r][b], s.history.issued, r, b, s.now, next);
    }
  }

  lemma {:induction false} PowerRanksDecided(c: Config, s: Sys, i: nat, next: nat)
    requires c.Sensible() && Shape(c, s) && i <= c.ranks && Decided(c, s, s.now, next)
    requires Related(c, s, s.now + 1, s.now) && BusLegal(c, s, s.now + 1) && AllSleepAgrees(c, s) && BusBusy(c, s)
    ensures PowerRanks(c, s, i).Ok? && Decided(c, PowerRanks(c, s, i).value, s.now, next)
    decreases c.ranks - i
  {
    hide Shape, Related, BusLegal, BusBusy, Decided, PowerRank, SleepAgrees;
    if i < c.ranks && c.lowPower {
      PowerRankSafe(c, s, i);
      IdleIsStill(c, s);
      assert SleepAgrees(c, s, i);
      PowerRankDecided(c, s, i, next);
      PowerRankNow(c, s, i);
      PowerRanksDecided(c, PowerRank(c, s, i).value, i + 1, next);
    }
  }

  lemma PowerRankNow(c: Config, s: Sys, i: nat)
    requires c.Sensible() && Shape(c, s) && i < c.ranks && PowerRank(c, s, i).Ok?
    ensures PowerRank(c, s, i).value.now == s.now
  {
    hide QueueShape;
  }

  lemma IdleIsStill(c: Config, s: Sys)
    requires c.Sensible() && Shape(c, s) && Related(c, s, s.now + 1, s.now)
    ensures forall r, b :: 0 <= r < c.ranks && 0 <= b < c.banks && s.table[r][b].mode.Idle? ==>
      s.table[r][b].countdown == 0
  {
    hide QueueShape;
    forall r, b | 0 <= r < c.ranks && 0 <= b < c.banks && s.table[r][b].mode.Idle?
      ensures s.table[r][b].countdown == 0
    {
      assert BankRel(c, s.table[r][b], View(c, s, r, s.now + 1)[b], s.now);
    }
  }

  lemma CloseDecided(c: Config, s: Sys, next: nat)
    requires c.Sensible() && Shape(c, s) && GoodIssued(c, s) && Decided(c, s, s.now, next) && Close(c, s).Ok?
    ensures Decided(c, Close(c, s).value, s.now, next)
  {
    IssuedIsSafe(c, s);
    hide QueueShape, Decided, GoodIssued, Related, AllSleepAgrees, BusLegal, BusBusy, PowerRanks;
    PowerRanksDecided(c, s, 0, next);
    var s1 := PowerRanks(c, s, 0).value;
    DramOrderTheorems.ClosedSame(c, s);
    hide Close;
    SameDecided(c, s1, Close(c, s).value, s.now, next);
  }

  lemma StepDecided(c: Config, s: Sys)
    requires c.Sensible() && Shape(c, s) && Good(c, s) && Decided(c, s, s.now - 1, s.now) && Step(c, s).Ok?
    ensures Decided(c, Step(c, s).value, s.now, s.now + 1)
  {
    hide Shape, Good, GoodInside, GoodIssued, Decided, Arrive, MoveBuses, IssueNext, Schedule, Close, RefreshTimer;
    FirstHalfGood(c, s);
    DramOrderTheorems.SafeOf(c, s);
    var s1 := Arrive(c, s).value;
    var s2 := MoveBuses(c, s1).value;
    var s3 := RefreshTimer(c, s2);
    var s4 := IssueNext(c, s3).value;
    ArriveDecided(c, s, s.now - 1, s.now);
    DramOrderTheorems.MoveBusesOrder(c, s1);
    SameDecided(c, s1, s2, s.now, s.now);
    DramOrderTheorems.RefreshTimerOrder(c, s2);
    SameDecided(c, s2, s3, s.now, s.now);
    RefreshTimerGood(c, s2);
    IssueNextDecided(c, s3);
    IssueNextGood(c, s3);
    DramOrderTheorems.ScheduleKeeps(c, s4);
    ScheduleGood(c, s4);
    SameDecided(c, s4, Schedule(c, s4).value, s.now, s.now + 1);
    CloseDecided(c, Schedule(c, s4).value, s.now + 1);
  }

  lemma {:induction false} RunDecided(c: Config, s: Sys, ops: seq<Op>)
    requires c.Sensible() && Shape(c, s) && Good(c, s) && DramOrderTheorems.Orderly(c, s, s.now - 1)
    requires Decided(c, s, s.now - 1, s.now) && forall i :: 0 <= i < |ops| ==> ValidOp(c, ops[i])
    requires Run(c, s, ops).Ok?
    ensures var e := Run(c, s, ops).value; Decided(c, e, e.now - 1, e.now)
    decreases |ops|
  {
    hide Shape, Good, Step, DramOrderTheorems.Orderly, Decided, Submit, Offer;
    if ops != [] {
      var s1 := Do(c, s, ops[0]).value;
      match ops[0] {
        case Request(t) =>
          OfferGood(c, s, t);
          DramOrderTheorems.SubmitOrderly(c, s, t);
          SubmitDecided(c, s, t);
        case Direct(t) =>
          OfferGood(c, s, t);
          DramOrderTheorems.SubmitOrderly(c, s, t);
          SubmitDecided(c, s, t);
        case Cycle =>
          StepGood(c, s);
          DramOrderTheorems.StepOrderly(c, s);
          StepDecided(c, s);
      }
      RunDecided(c, s1, ops[1..]);
    }
  }

  lemma SubmitDecided(c: Config, s: Sys, t: Transaction)
    requires c.Sensible() && Shape(c, s) && Decided(c, s, s.now - 1, s.now) && Placed(c, t)
    ensures Decided(c, Submit(c, s, t), s.now - 1, s.now) && Decided(c, Offer(c, s, t), s.now - 1, s.now)
  {
    hide Decided, QueueShape;
    SameDecided(c, s, Offer(c, s, t), s.now - 1, s.now);
    SameDecided(c, s, Submit(c, s, t), s.now - 1, s.now);
  }

  lemma NothingDecided(c: Config, s: Sys)
    requires c.Sensible() && Initial(c, s)
    ensures Decided(c, s, s.now - 1, s.now)
  {
    hide QueueShape, InitialQueue;
  }

  // ---- what the controller permits ----

  /** The bank is in the phase that the command needs. */
  predicate InPhase(c: Config, last: Option<Event>, q: Packet, now: int) {
    var phase := PhaseAfter(c, last, now);
    if q.kind.IsColumn() then
      q.kind == c.ColumnKind(q.kind.IsRead()) && phase == Phase(RowActive, 0) && q.row == last.value.packet.row
    else match q.kind
      case Activate => phase.mode.Idle?
      case Precharge => c.openPage && phase.mode.RowActive?
      case Refresh => !phase.mode.RowActive?
      case _ => false
  }

  function TimerFor(kind: Kind): Timer {
    if kind.IsRead() then ForRead else if kind.IsWrite() then ForWrite
    else if kind.Precharge? then ForPrecharge else ForActivate
  }

  lemma EntryPermits(c: Config, m: Bank, issued: seq<Event>, r: nat, b: nat, q: Packet, now: nat)
    requires c.Sensible() && !c.lowPower && Settles(c, m, now) && !m.mode.PowerDown? && !q.kind.Data?
    requires Fits(c, m, issued, r, b, now, now) && Sent(c, issued, now)
    ensures (if q.kind.Refresh? then RefreshableAt(m, now) else PermittedAt(c, m, q, now)) <==>
      InPhase(c, Last(issued, r, b), q, now) && AllPast(c, issued, TimerFor(q.kind), r, b, now)
  {
    var k := TimerFor(q.kind);
    FitsHasPhase(c, m, issued, r, b, now, now);
    assert TimerFits(c, m, issued, k, r, b, now);
    if !k.IsColumn() || Open(m) {
      TimerExactly(c, m, issued, k, r, b, now, now);
    }
    hide Last, AllPast, TimerFits, Fits, Sent;
    if m.mode.Refreshing? && q.kind.Activate? {
      assert m.nextActivate > now;
    }
  }

  /**
   In every run, without sleeping ranks, what the controller's table permits for the next command is what the history
   of issued commands asks for: the bank is in the right phase, and every command that counts is far enough back.
  */
  lemma PermittedExactly(c: Config, s: Sys, ops: seq<Op>, r: nat, b: nat, q: Packet)
    requires c.Sensible() && Initial(c, s) && forall i :: 0 <= i < |ops| ==> ValidOp(c, ops[i])
    requires Run(c, s, ops).Ok? && !c.lowPower && r < c.ranks && b < c.banks && !q.kind.Data?
    ensures var e := Run(c, s, ops).value; var m := Tick(c, e.table[r][b]);
      (if q.kind.Refresh? then RefreshableAt(m, e.now) else PermittedAt(c, m, q, e.now)) <==>
        InPhase(c, Last(e.history.issued, r, b), q, e.now) &&
        AllPast(c, e.history.issued, TimerFor(q.kind), r, b, e.now)
  {
    hide Run, Good, DramOrderTheorems.Orderly, QueueShape, InitialQueue;
    InitialGood(c, s);
    DramOrderTheorems.InitialOrderly(c, s);
    NothingDecided(c, s);
    RunDecided(c, s, ops);
    var e := Run(c, s, ops).value;
    DramOrderTheorems.RunOrderly(c, s, ops);
    hide Decided, Fits;
    NextEntry(c, e, r, b);
    EntryPermits(c, Tick(c, e.table[r][b]), e.history.issued, r, b, q, e.now);
  }

  lemma NextEntry(c: Config, s: Sys, r: nat, b: nat)
    requires c.Sensible() && Shape(c, s) && Good(c, s) && Decided(c, s, s.now - 1, s.now) && r < c.ranks && b < c.banks
    requires !c.lowPower
    ensures var m := Tick(c, s.table[r][b]);
      Fits(c, m, s.history.issued, r, b, s.now, s.now) && Settles(c, m, s.now) && !m.mode.PowerDown?
    ensures Sent(c, s.history.issued, s.now)
  {
    var v := View(c, s, r, s.now)[b];
    assert BankRel(c, s.table[r][b], v, s.now - 1) by {
      hide QueueShape;
      DramOrderTheorems.SafeOf(c, s);
    }
    assert Fits(c, s.table[r][b], s.history.issued, r, b, s.now - 1, s.now) && Sent(c, s.history.issued, s.now);
    hide *;
    NextFits(c, s.table[r][b], v, s.history.issued, r, b, s.now);
  }

  lemma NextFits(c: Config, m: Bank, v: Bank, issued: seq<Event>, r: nat, b: nat, now: nat)
    requires c.Sensible() && !c.lowPower && BankRel(c, m, v, now - 1) && Fits(c, m, issued, r, b, now - 1, now)
    ensures var m1 := Tick(c, m); Fits(c, m1, issued, r, b, now, now) && Settles(c, m1, now) && !m1.mode.PowerDown?
  {
    FitsHasPhase(c, m, issued, r, b, now - 1, now);
    hide Fits, Last, PhaseAfter;
    TickKeepsRel(c, m, v, now - 1);
    TickKeepsTimes(c, m, v, now - 1);
    TickFits(c, m, Last(issued, r, b), now - 1);
    EntryStays(c, m, Tick(c, m), issued, r, b, now - 1, now, now, now);
  }

  /** In every run, with sleeping ranks too, the phase of every bank is that of its last command. */
  lemma PhasesExactly(c: Config, s: Sys, ops: seq<Op>, r: nat, b: nat)
    requires c.Sensible() && Initial(c, s) && forall i :: 0 <= i < |ops| ==> ValidOp(c, ops[i])
    requires Run(c, s, ops).Ok? && r < c.ranks && b < c.banks
    ensures var e := Run(c, s, ops).value; var m := e.table[r][b];
      var phase := PhaseAfter(c, Last(e.history.issued, r, b), e.now - 1);
      if m.mode.PowerDown? then phase.mode.Idle? else phase == Phase(m.mode, m.countdown)
  {
    hide Run, Good, DramOrderTheorems.Orderly, QueueShape, InitialQueue, Last, PhaseAfter;
    InitialGood(c, s);
    DramOrderTheorems.InitialOrderly(c, s);
    NothingDecided(c, s);
    RunDecided(c, s, ops);
    var e := Run(c, s, ops).value;
    FitsHasPhase(c, e.table[r][b], e.history.issued, r, b, e.now - 1, e.now);
  }
}
