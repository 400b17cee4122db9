/**
 A rank on its own, fed with anything at all: it obeys exactly what its device allows.  Whether a command may come is
 said of the commands before it and the device's times alone.
*/
module DramRankTable {
  import opened Wrappers
  import opened DramTypes
  import opened DramBank
  import opened DramRank
  import opened DramTimings
  import DramTable

  type Timer = DramTable.Timer

  /** What can happen to a rank. */
  datatype Input = Bus(packet: Packet) | GoToSleep | WakeUp | Pass

  datatype Stamped = Stamped(input: Input, at: nat)

  function Obey(c: Config, s: RankState, x: Stamped): Result<RankState>
    requires c.Sensible()
  {
    match x.input
    case Bus(p) => Receive(c, s, p, x.at)
    case GoToSleep => Sleep(c, s, x.at)
    case WakeUp => Wake(c, s, x.at)
    case Pass => Ok(Advance(c, s).0)
  }

  function ObeyAll(c: Config, xs: seq<Stamped>): Result<RankState>
    requires c.Sensible()
  {
    if xs == [] then Ok(FreshRank(c))
    else
      var n := |xs| - 1;
      match ObeyAll(c, xs[..n])
      case Exit(f) => Exit(f)
      case Ok(s) => Obey(c, s, xs[n])
  }

  // ---- what the history says ----

  predicate Opens(x: Stamped, b: nat) { x.input.Bus? && x.input.packet.kind.Activate? && x.input.packet.bank == b }

  predicate Shuts(x: Stamped, b: nat) {
    && x.input.Bus? && x.input.packet.bank == b
    && (x.input.packet.kind.Precharge? || x.input.packet.kind.AutoPrecharges())
  }

  /** The row that is open. */
  function OpenRow(xs: seq<Stamped>, b: nat): Option<nat> {
    if xs == [] then None
    else
      var n := |xs| - 1;
      if Opens(xs[n], b) then Some(xs[n].input.packet.row)
      else if Shuts(xs[n], b) then None
      else OpenRow(xs[..n], b)
  }

  /** Since when the rank has slept. */
  function Slept(xs: seq<Stamped>): Option<nat> {
    if xs == [] then None
    else
      var n := |xs| - 1;
      if xs[n].input.GoToSleep? then Some(xs[n].at)
      else if xs[n].input.WakeUp? then None
      else Slept(xs[..n])
  }

  /** How long the device asks to wait after this. */
  function Wait(c: Config, k: Timer, x: Input, b: nat): int {
    match x
    case Bus(p) => DramTable.Dist(c, k, p, p.rank, b)
    case WakeUp => if k.ForActivate? then c.tXP else 0
    case _ => 0
  }

  /** An activate forgets what was noted for the row before, and a refresh and waking what was noted for activates. */
  predicate Forgets(x: Stamped, k: Timer, b: nat) {
    if k.ForActivate? then x.input.WakeUp? || (x.input.Bus? && x.input.packet.kind.Refresh?) else Opens(x, b)
  }

  predicate Counts(xs: seq<Stamped>, k: Timer, i: nat, b: nat) {
    i < |xs| && forall j :: i < j < |xs| ==> !Forgets(xs[j], k, b)
  }

  ghost predicate AllPast(c: Config, xs: seq<Stamped>, k: Timer, b: nat, now: nat) {
    forall i: nat :: i < |xs| && Counts(xs, k, i, b) ==> now >= xs[i].at + Wait(c, k, xs[i].input, b)
  }

  ghost predicate MayCome(c: Config, xs: seq<Stamped>, p: Packet, now: nat) {
    var awake := Slept(xs).None?;
    match p.kind
    case Data => true
    case Refresh => awake && forall b :: 0 <= b < c.banks ==> OpenRow(xs, b).None?
    case Activate =>
      p.bank < c.banks && awake && OpenRow(xs, p.bank).None? && AllPast(c, xs, DramTable.ForActivate, p.bank, now)
    case Precharge =>
      p.bank < c.banks && OpenRow(xs, p.bank).Some? && AllPast(c, xs, DramTable.ForPrecharge, p.bank, now)
    case Read | ReadP =>
      p.bank < c.banks && OpenRow(xs, p.bank) == Some(p.row) && AllPast(c, xs, DramTable.ForRead, p.bank, now)
    case Write | WriteP =>
      p.bank < c.banks && OpenRow(xs, p.bank) == Some(p.row) && AllPast(c, xs, DramTable.ForWrite, p.bank, now)
  }

  ghost predicate Allowed(c: Config, xs: seq<Stamped>, x: Stamped) {
    match x.input
    case Bus(p) => MayCome(c, xs, p, x.at)
    case GoToSleep => Slept(xs).None? && forall b :: 0 <= b < c.banks ==> OpenRow(xs, b).None?
    case WakeUp => Slept(xs).Some? && x.at >= Slept(xs).value + c.tCKE
    case Pass => true
  }

  // ---- one entry ----

  predicate FitsMode(c: Config, v: Bank, open: Option<nat>, slept: Option<nat>) {
    && (if slept.Some? then v.mode.PowerDown? && open.None? && v.nextPowerUp == slept.value + c.tCKE
        else v.mode == if open.Some? then RowActive else Idle)
    && (open.Some? ==> v.openRow == open.value)
  }

  predicate Asked(c: Config, v: Bank, xs: seq<Stamped>, k: Timer, i: nat, b: nat) {
    Counts(xs, k, i, b) && xs[i].at + Wait(c, k, xs[i].input, b) == DramTable.TimeOf(v, k)
  }

  ghost predicate FitsTimer(c: Config, v: Bank, xs: seq<Stamped>, k: Timer, b: nat, now: nat) {
    && (forall i: nat :: Counts(xs, k, i, b) ==>
         var d := Wait(c, k, xs[i].input, b); d <= 0 || xs[i].at + d <= DramTable.TimeOf(v, k))
    && (DramTable.TimeOf(v, k) <= now || exists i: nat :: Asked(c, v, xs, k, i, b))
  }

  predicate Ordered(xs: seq<Stamped>) { forall i, j :: 0 <= i < j < |xs| ==> xs[i].at <= xs[j].at }

  predicate Before(xs: seq<Stamped>, now: nat) { forall i :: 0 <= i < |xs| ==> xs[i].at <= now }

  lemma TimerExactly(c: Config, v: Bank, xs: seq<Stamped>, k: Timer, b: nat, now: nat, x: nat)
    requires FitsTimer(c, v, xs, k, b, now) && Before(xs, x) && now <= x
    ensures x >= DramTable.TimeOf(v, k) <==> AllPast(c, xs, k, b, x)
  {
    hide Wait, DramTable.TimeOf;
  }

  /** The entry after an input that was obeyed. */
  function Moved(c: Config, v: Bank, b: nat, x: Stamped): Bank
    requires c.Sensible()
  {
    match x.input
    case Bus(p) => Deliver(c, v, b, p, x.at)
    case GoToSleep => EnterPowerDown(c, v, x.at)
    case WakeUp => LeavePowerDown(c, v, x.at)
    case Pass => v
  }

  predicate Obeyed(c: Config, v: Bank, b: nat, x: Stamped) {
    match x.input
    case Bus(p) =>
      && (p.bank == b && p.kind.Activate? ==> x.at >= v.nextActivate)
      && (p.bank == b && p.kind.Precharge? ==> x.at >= v.nextPrecharge)
    case _ => true
  }

  predicate MovesRight(c: Config, v: Bank, k: Timer, b: nat, x: Stamped)
    requires c.Sensible()
  {
    var t, t1 := DramTable.TimeOf(v, k), DramTable.TimeOf(Moved(c, v, b, x), k);
    var d := Wait(c, k, x.input, b);
    && (Forgets(x, k, b) ==> t1 == x.at + d)
    && (!Forgets(x, k, b) && d > 0 ==> t1 == Max(t, x.at + d) || (t <= x.at && t1 == x.at + d))
    && (!Forgets(x, k, b) && d <= 0 ==> t1 == t || (t <= x.at && t1 == x.at))
  }

  lemma ColumnTimersMove(c: Config, v: Bank, b: nat, x: Stamped)
    requires c.Sensible()
    ensures MovesRight(c, v, DramTable.ForRead, b, x) && MovesRight(c, v, DramTable.ForWrite, b, x)
  {
  }

  lemma ActivateTimerMoves(c: Config, v: Bank, b: nat, x: Stamped)
    requires c.Sensible() && Obeyed(c, v, b, x)
    ensures MovesRight(c, v, DramTable.ForActivate, b, x)
  {
  }

  lemma PrechargeTimerMoves(c: Config, v: Bank, b: nat, x: Stamped)
    requires c.Sensible()
    ensures MovesRight(c, v, DramTable.ForPrecharge, b, x)
  {
  }

  /** What an input does to one timer of one entry. */
  lemma TimerMoves(c: Config, v: Bank, k: Timer, b: nat, x: Stamped)
    requires c.Sensible() && Obeyed(c, v, b, x)
    ensures MovesRight(c, v, k, b, x)
  {
    hide MovesRight, Obeyed;
    match k
    case ForRead => ColumnTimersMove(c, v, b, x);
    case ForWrite => ColumnTimersMove(c, v, b, x);
    case ForActivate => ActivateTimerMoves(c, v, b, x);
    case ForPrecharge => PrechargeTimerMoves(c, v, b, x);
  }

  lemma CountsPush(xs: seq<Stamped>, x: Stamped, k: Timer, i: nat, b: nat)
    ensures Counts(xs + [x], k, i, b) <==> i == |xs| || (Counts(xs, k, i, b) && !Forgets(x, k, b))
  {
    var all := xs + [x];
    assert all[|xs|] == x;
    hide Forgets;
    if Counts(all, k, i, b) && i < |xs| {
      forall j | i < j < |xs| ensures !Forgets(xs[j], k, b) {
        assert all[j] == xs[j];
      }
    }
  }

  lemma TimerPush(c: Config, v: Bank, xs: seq<Stamped>, k: Timer, b: nat, x: Stamped, now: nat)
    requires c.Sensible() && Obeyed(c, v, b, x) && FitsTimer(c, v, xs, k, b, now) && now <= x.at
    ensures FitsTimer(c, Moved(c, v, b, x), xs + [x], k, b, x.at)
  {
    var all := xs + [x];
    var v1 := Moved(c, v, b, x);
    TimerMoves(c, v, k, b, x);
    hide Moved, Wait, Forgets, DramTable.TimeOf, Counts, Obeyed;
    forall i: nat | Counts(all, k, i, b)
      ensures i < |all| && var d := Wait(c, k, all[i].input, b); d <= 0 || all[i].at + d <= DramTable.TimeOf(v1, k)
    {
      CountsPush(xs, x, k, i, b);
      CountsInside(xs, k, i, b);
    }
    forall i: nat ensures Counts(all, k, i, b) ==> i < |all| {
      CountsInside(all, k, i, b);
    }
    CountsPush(xs, x, k, |xs|, b);
    if DramTable.TimeOf(v1, k) == x.at + Wait(c, k, x.input, b) {
      assert Asked(c, v1, all, k, |xs|, b);
    } else if i: nat :| Asked(c, v, xs, k, i, b) {
      CountsInside(xs, k, i, b);
      CountsPush(xs, x, k, i, b);
      assert DramTable.TimeOf(v1, k) == DramTable.TimeOf(v, k) ==> Asked(c, v1, all, k, i, b);
    }
  }

  lemma CountsInside(xs: seq<Stamped>, k: Timer, i: nat, b: nat)
    ensures Counts(xs, k, i, b) ==> i < |xs|
  {
  }

  /** The entry is open, shut or asleep as the history says. */
  lemma ModePush(c: Config, v: Bank, xs: seq<Stamped>, b: nat, x: Stamped)
    requires c.Sensible() && FitsMode(c, v, OpenRow(xs, b), Slept(xs))
    requires x.input.Bus? && !x.input.packet.kind.Data? ==> Slept(xs).None?
    requires x.input.GoToSleep? ==> OpenRow(xs, b).None?
    requires x.input.WakeUp? ==> Slept(xs).Some?
    ensures FitsMode(c, Moved(c, v, b, x), OpenRow(xs + [x], b), Slept(xs + [x]))
  {
    var all := xs + [x];
    assert all[..|xs|] == xs && all[|xs|] == x;
  }

  // ---- the rank ----

  ghost predicate FitsEntry(c: Config, v: Bank, xs: seq<Stamped>, b: nat, now: nat) {
    FitsMode(c, v, OpenRow(xs, b), Slept(xs)) && forall k: Timer :: FitsTimer(c, v, xs, k, b, now)
  }

  ghost predicate Fits(c: Config, s: RankState, xs: seq<Stamped>, now: nat) {
    && |s.banks| == c.banks && s.isPowerDown == Slept(xs).Some?
    && forall b :: 0 <= b < c.banks ==> FitsEntry(c, s.banks[b], xs, b, now)
  }

  /** One input is obeyed exactly if it is allowed. */
  lemma ObeysOne(c: Config, s: RankState, xs: seq<Stamped>, x: Stamped, now: nat)
    requires c.Sensible() && Fits(c, s, xs, now) && Before(xs, x.at) && now <= x.at
    ensures Obey(c, s, x).Ok? <==> Allowed(c, xs, x)
  {
    hide FitsTimer, AllPast, OpenRow, Slept, Before;
    forall b | 0 <= b < c.banks ensures FitsMode(c, s.banks[b], OpenRow(xs, b), Slept(xs)) {
      assert FitsEntry(c, s.banks[b], xs, b, now);
    }
    assert |s.banks| == c.banks && FitsMode(c, s.banks[0], OpenRow(xs, 0), Slept(xs));
    match x.input
    case Bus(p) =>
      hide Fits, DeliverAll;
      if p.bank < c.banks && !p.kind.Data? && !p.kind.Refresh? {
        EntryAgrees(c, s, xs, p, x.at, now);
      }
    case GoToSleep =>
      if Slept(xs).Some? {
        assert !s.banks[0].mode.Idle?;
      }
    case WakeUp =>
      assert Slept(xs).Some? ==> s.banks[0].nextPowerUp == Slept(xs).value + c.tCKE;
    case Pass =>
  }

  function TimerFor(kind: Kind): Timer {
    if kind.IsRead() then DramTable.ForRead else if kind.IsWrite() then DramTable.ForWrite
    else if kind.Precharge? then DramTable.ForPrecharge else DramTable.ForActivate
  }

  lemma EntryAgrees(c: Config, s: RankState, xs: seq<Stamped>, p: Packet, at: nat, now: nat)
    requires c.Sensible() && Fits(c, s, xs, now) && Before(xs, at) && now <= at
    requires p.bank < c.banks
    ensures at >= DramTable.TimeOf(s.banks[p.bank], TimerFor(p.kind)) <==> AllPast(c, xs, TimerFor(p.kind), p.bank, at)
    ensures FitsMode(c, s.banks[p.bank], OpenRow(xs, p.bank), Slept(xs)) && |s.banks| == c.banks
  {
    var k := TimerFor(p.kind);
    assert FitsEntry(c, s.banks[p.bank], xs, p.bank, now);
    hide FitsMode, TimerFor;
    assert FitsTimer(c, s.banks[p.bank], xs, k, p.bank, now);
    TimerExactly(c, s.banks[p.bank], xs, k, p.bank, now, at);
  }

  lemma ObeyedFits(c: Config, s: RankState, xs: seq<Stamped>, x: Stamped, now: nat)
    requires c.Sensible() && Fits(c, s, xs, now) && Before(xs, x.at) && now <= x.at
    requires Obey(c, s, x).Ok? && Allowed(c, xs, x)
    ensures Fits(c, Obey(c, s, x).value, xs + [x], x.at)
  {
    var s1 := Obey(c, s, x).value;
    var all := xs + [x];
    assert all[..|xs|] == xs && all[|xs|] == x;
    forall b | 0 <= b < c.banks ensures FitsEntry(c, s1.banks[b], all, b, x.at) {
      var v := s.banks[b];
      assert FitsEntry(c, v, xs, b, now);
      assert s1.banks[b] == Moved(c, v, b, x);
      assert Obeyed(c, v, b, x);
      AwakeForCommands(c, s, xs, x, b, now);
      hide *;
      EntryPush(c, v, xs, b, x, now);
    }
  }

  lemma EntryPush(c: Config, v: Bank, xs: seq<Stamped>, b: nat, x: Stamped, now: nat)
    requires c.Sensible() && FitsEntry(c, v, xs, b, now) && Obeyed(c, v, b, x) && now <= x.at
    requires x.input.Bus? && !x.input.packet.kind.Data? ==> Slept(xs).None?
    requires x.input.GoToSleep? ==> OpenRow(xs, b).None?
    requires x.input.WakeUp? ==> Slept(xs).Some?
    ensures FitsEntry(c, Moved(c, v, b, x), xs + [x], b, x.at)
  {
    ModePush(c, v, xs, b, x);
    var v1, all, at := Moved(c, v, b, x), xs + [x], x.at;
    hide Moved, FitsTimer, Obeyed;
    forall k: Timer ensures FitsTimer(c, v1, all, k, b, at) {
      TimerPush(c, v, xs, k, b, x, now);
    }
  }

  lemma AwakeForCommands(c: Config, s: RankState, xs: seq<Stamped>, x: Stamped, b: nat, now: nat)
    requires c.Sensible() && Fits(c, s, xs, now) && Allowed(c, xs, x) && b < c.banks
    ensures x.input.Bus? && !x.input.packet.kind.Data? ==> Slept(xs).None?
    ensures x.input.GoToSleep? ==> OpenRow(xs, b).None?
    ensures x.input.WakeUp? ==> Slept(xs).Some?
  {
    hide AllPast, OpenRow, Slept, FitsTimer;
    if x.input.Bus? && x.input.packet.bank < c.banks {
      assert FitsEntry(c, s.banks[x.input.packet.bank], xs, x.input.packet.bank, now);
    }
  }

  lemma FreshFits(c: Config)
    ensures Fits(c, FreshRank(c), [], 0)
  {
  }

  /** What was allowed up to the first j inputs. */
  ghost predicate AllAllowed(c: Config, xs: seq<Stamped>) {
    forall j :: 0 <= j < |xs| ==> Allowed(c, xs[..j], xs[j])
  }

  lemma AllowedPush(c: Config, xs: seq<Stamped>)
    requires xs != []
    ensures var n := |xs| - 1; AllAllowed(c, xs) <==> AllAllowed(c, xs[..n]) && Allowed(c, xs[..n], xs[n])
  {
    hide Allowed;
    var n := |xs| - 1;
    assert forall j :: 0 <= j < n ==> xs[..n][..j] == xs[..j];
    if AllAllowed(c, xs) {
      forall j | 0 <= j < n ensures Allowed(c, xs[..n][..j], xs[..n][j]) {
        assert Allowed(c, xs[..j], xs[j]);
      }
    }
    if AllAllowed(c, xs[..n]) && Allowed(c, xs[..n], xs[n]) {
      forall j | 0 <= j < |xs| ensures Allowed(c, xs[..j], xs[j]) {
        if j < n {
          assert Allowed(c, xs[..n][..j], xs[..n][j]);
        }
      }
    }
  }

  /** When the last input came. */
  function LastTime(xs: seq<Stamped>): nat { if xs == [] then 0 else xs[|xs| - 1].at }

  lemma {:induction false} ObeysAndFits(c: Config, xs: seq<Stamped>)
    requires c.Sensible() && Ordered(xs)
    ensures ObeyAll(c, xs).Ok? <==> AllAllowed(c, xs)
    ensures ObeyAll(c, xs).Ok? ==> Fits(c, ObeyAll(c, xs).value, xs, LastTime(xs))
    decreases |xs|
  {
    hide Obey, Fits, Allowed;
    if xs == [] {
      FreshFits(c);
    } else {
      var n := |xs| - 1;
      ObeysAndFits(c, xs[..n]);
      AllowedPush(c, xs);
      hide AllAllowed;
      if ObeyAll(c, xs[..n]).Ok? {
        var s := ObeyAll(c, xs[..n]).value;
        ObeysOne(c, s, xs[..n], xs[n], LastTime(xs[..n]));
        if Obey(c, s, xs[n]).Ok? {
          ObeyedFits(c, s, xs[..n], xs[n], LastTime(xs[..n]));
          assert xs[..n] + [xs[n]] == xs;
        }
      }
    }
  }

  /** Whatever comes, a rank obeys all of it if and only if each command is allowed by those before it. */
  lemma ObeysExactly(c: Config, xs: seq<Stamped>)
    requires c.Sensible() && Ordered(xs)
    ensures ObeyAll(c, xs).Ok? <==> AllAllowed(c, xs)
  {
    ObeysAndFits(c, xs);
  }
}
