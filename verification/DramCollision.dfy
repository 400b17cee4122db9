/**
 The condition under which write data never collides is exact.  Where writes do not fit, two writes to
 different ranks meet on the data bus if the second row is opened in the cycle after the first write.
*/
module DramCollision {
  import opened Wrappers
  import opened DramTypes
  import opened DramBank
  import opened DramQueue
  import opened DramRank
  import opened DramSystem
  import opened DramWrites
  import opened DramTheorems
  import opened DramSimulation
  import opened DramOneBank
  import opened DramCalm

  // ---- the timetable ----

  /** A write to row 0 of bank 0 of rank r. */
  function WriteTo(r: nat): Transaction { Transaction(false, 0, r, 0, 0, 0) }

  function Opening(r: nat): Packet { ActivateFor(WriteTo(r)) }

  function Column(c: Config, r: nat): Packet { ColumnFor(c, WriteTo(r)) }

  /** From the request until the row can be opened: a rank may have to wake up first. */
  function WakeTime(c: Config): nat { if c.lowPower then Max(c.tXP, 1) else 1 }

  /** The two writes are requested when the ranks may wake up, the second one so much later that its row is opened
      in the cycle after the first write. */
  function RequestTime(c: Config, r: nat): int { Max(c.tCKE, 1) + if r == 0 then 0 else OpeningTime(c) + 1 }

  function ActivateTime(c: Config, r: nat): int { RequestTime(c, r) + WakeTime(c) }

  function WriteTime(c: Config, r: nat): int { ActivateTime(c, r) + OpeningTime(c) }

  /** The cycle in which the data of the second write is due, while that of the first one is on the bus. */
  function CollisionTime(c: Config): int { WriteTime(c, 1) + c.WL() }

  datatype Phase = Dormant | Ready | Opened | Written

  /** Where rank r is before the step of cycle now. */
  function PhaseAt(c: Config, r: nat, now: int): Phase {
    if now <= RequestTime(c, r) then Dormant
    else if now <= ActivateTime(c, r) then Ready
    else if now <= WriteTime(c, r) then Opened
    else Written
  }

  function PhaseLine(c: Config, r: nat, ph: Phase): seq<Packet> {
    match ph
    case Ready => [Opening(r), Column(c, r)]
    case Opened => [Column(c, r)]
    case _ => []
  }

  function LinesAt(c: Config, now: int): (lines: seq<seq<Packet>>)
    ensures |lines| == c.ranks
  {
    seq(c.ranks, r requires r >= 0 => if r <= 1 then PhaseLine(c, r, PhaseAt(c, r, now)) else [])
  }

  /** The command of cycle now. */
  function PoppedAt(c: Config, now: int): Option<Packet> {
    if now == ActivateTime(c, 0) then Some(Opening(0))
    else if now == WriteTime(c, 0) then Some(Column(c, 0))
    else if now == ActivateTime(c, 1) then Some(Opening(1))
    else if now == WriteTime(c, 1) then Some(Column(c, 1))
    else None
  }

  predicate Quiet(m: Bank) { m.mode.Idle? && m.countdown == 0 }

  /** The entries of rank r before the step of cycle now. */
  predicate InPhase(c: Config, ms: seq<Bank>, r: nat, now: int)
    requires |ms| > 0
  {
    match PhaseAt(c, r, now)
    case Dormant =>
      forall j :: 0 <= j < |ms| ==>
        ms[j] == if c.lowPower then FreshBank.(mode := PowerDown, nextPowerUp := c.tCKE) else FreshBank
    case Ready =>
      forall j :: 0 <= j < |ms| ==>
        && Quiet(ms[j]) && ms[j].nextWrite == ms[j].nextPrecharge == 0 && ms[j].nextActivate <= ActivateTime(c, r)
        && (now < ActivateTime(c, r) ==> ms[j].nextActivate == ActivateTime(c, r))
    case Opened =>
      && ms[0].mode.RowActive? && ms[0].countdown == 0 && ms[0].openRow == 0
      && ms[0].nextWrite == ActivateTime(c, r) + (c.tRCD - c.AL) && forall j :: 1 <= j < |ms| ==> Quiet(ms[j])
    case Written =>
      && ms[0].mode.RowActive? && (forall j :: 1 <= j < |ms| ==> Quiet(ms[j]))
      && if c.openPage then
           ms[0].countdown == 0 && ms[0].nextPrecharge >= WriteTime(c, r) + c.WriteToPre()
         else ms[0].lastCommand.AutoPrecharges() && ms[0].countdown == WriteTime(c, r) + c.WriteToPre() - now + 1
  }

  // ---- one rank in one step ----

  lemma PoppedInTime(c: Config, now: int, r: nat)
    requires c.Sensible() && r <= 1
    ensures PoppedAt(c, now).Some? && PoppedAt(c, now).value.rank == r <==>
      now == ActivateTime(c, r) || now == WriteTime(c, r)
    ensures PoppedAt(c, now).Some? ==> PoppedAt(c, now).value.rank <= 1 && PoppedAt(c, now).value.bank == 0
  {
  }

  /** What the step of cycle now makes of the entries of rank r. */
  function RowStep(c: Config, ms: seq<Bank>, r: nat, now: nat): (ms1: seq<Bank>)
    requires c.Sensible() && |ms| > 0
    ensures |ms1| == |ms|
  {
    Powered(c, Moved(c, ms, r, PoppedAt(c, now), now), PhaseLine(c, r, PhaseAt(c, r, now + 1)) == [], now)
  }

  /** Ranks with nothing open do not notice the commands of other ranks. */
  lemma IdleUnmoved(c: Config, ms: seq<Bank>, r: nat, popped: Option<Packet>, now: nat)
    requires c.Sensible() && (forall j :: 0 <= j < |ms| ==> Resting(ms[j])) && (popped.Some? ==> popped.value.rank != r)
    ensures Moved(c, ms, r, popped, now) == ms
  {
  }

  /** What the rank's power state makes of banks that are asleep, or have never slept. */
  lemma DormantStep(c: Config, ms: seq<Bank>, r: nat, now: nat)
    requires c.Sensible() && |ms| > 0 && r <= 1 && InPhase(c, ms, r, now) && now <= RequestTime(c, r)
    ensures InPhase(c, RowStep(c, ms, r, now), r, now + 1)
  {
    PoppedInTime(c, now, r);
    IdleUnmoved(c, ms, r, PoppedAt(c, now), now);
    hide Moved, PoppedAt;
  }

  lemma ReadyStep(c: Config, ms: seq<Bank>, r: nat, now: nat)
    requires c.Sensible() && |ms| > 0 && r <= 1 && InPhase(c, ms, r, now)
    requires RequestTime(c, r) < now <= ActivateTime(c, r)
    ensures InPhase(c, RowStep(c, ms, r, now), r, now + 1)
  {
    if now < ActivateTime(c, r) {
      PoppedInTime(c, now, r);
      IdleUnmoved(c, ms, r, PoppedAt(c, now), now);
      hide Moved, PoppedAt;
    } else {
      RowOpens(c, ms, r, now);
    }
  }

  lemma RowOpens(c: Config, ms: seq<Bank>, r: nat, now: nat)
    requires c.Sensible() && |ms| > 0 && r <= 1 && InPhase(c, ms, r, now) && now == ActivateTime(c, r)
    ensures InPhase(c, RowStep(c, ms, r, now), r, now + 1)
  {
  }

  lemma OpenedStep(c: Config, ms: seq<Bank>, r: nat, now: nat)
    requires c.Sensible() && |ms| > 0 && r <= 1 && InPhase(c, ms, r, now)
    requires ActivateTime(c, r) < now <= WriteTime(c, r)
    ensures InPhase(c, RowStep(c, ms, r, now), r, now + 1)
  {
  }

  lemma WrittenStep(c: Config, ms: seq<Bank>, r: nat, now: nat)
    requires c.Sensible() && |ms| > 0 && r <= 1 && InPhase(c, ms, r, now)
    requires WriteTime(c, r) < now < WriteTime(c, r) + c.WriteToPre()
    ensures InPhase(c, RowStep(c, ms, r, now), r, now + 1)
  {
  }

  lemma PhaseStep(c: Config, ms: seq<Bank>, r: nat, now: nat)
    requires c.Sensible() && |ms| > 0 && r <= 1 && InPhase(c, ms, r, now) && now < WriteTime(c, r) + c.WriteToPre()
    ensures InPhase(c, RowStep(c, ms, r, now), r, now + 1)
  {
    hide InPhase, RowStep, RequestTime, ActivateTime, WriteTime;
    if now <= RequestTime(c, r) {
      DormantStep(c, ms, r, now);
    } else if now <= ActivateTime(c, r) {
      ReadyStep(c, ms, r, now);
    } else if now <= WriteTime(c, r) {
      OpenedStep(c, ms, r, now);
    } else {
      WrittenStep(c, ms, r, now);
    }
  }

  // ---- the write data of the two writes ----

  /** The data of the second write, issued k cycles ago; a negative k stands for not yet. */
  function Second(c: Config, k: int): seq<Return>
    requires c.Sensible() && k < c.WL()
  {
    if k < 0 then [] else [Return(Column(c, 1).(kind := Data), c.WL() - k)]
  }

  /** The first write was issued j cycles ago, the second one k cycles ago. */
  predicate Sending(c: Config, s: Sys, j: int, k: int)
    requires c.Sensible()
  {
    && k < c.WL() && (j < 0 ==> k < 0)
    && if j < 0 then s.writes == [] && s.dataBus.None?
       else if j < c.WL() then
         s.dataBus.None? && s.writes == [Return(Column(c, 0).(kind := Data), c.WL() - j)] + Second(c, k)
       else s.dataBus.Some? && s.dataLeft >= 1 && s.dataLeft + (j - c.WL()) == c.Burst() && s.writes == Second(c, k)
  }

  /** One cycle on the data bus without a write. */
  lemma SendingMoves(c: Config, s: Sys, e: Sys, j: int, k: int)
    requires c.Sensible() && Sending(c, s, j, k) && BusMoved(c, s, e) && e.writes == MovedWrites(s)
    requires j + 1 - c.WL() < c.Burst() && k + 1 < c.WL()
    ensures Sending(c, e, if j < 0 then j else j + 1, if k < 0 then k else k + 1)
  {
    if 0 <= j {
      assert |CountReturns(s.writes)| == |s.writes|;
    }
  }

  /** The same in a cycle in which one of the writes is issued. */
  lemma SendingStarts(c: Config, s: Sys, e: Sys, j: int, r: nat)
    requires c.Sensible() && Sending(c, s, j, -1) && BusMoved(c, s, e) &&
      e.writes == MovedWrites(s) + Pushed(c, Some(Column(c, r)))
    requires j + 1 - c.WL() < c.Burst() && ((r == 0 && j < 0) || (r == 1 && j >= 0))
    ensures if r == 0 then Sending(c, e, 0, -1) else Sending(c, e, j + 1, 0)
  {
    if 0 <= j {
      assert |CountReturns(s.writes)| == |s.writes|;
    }
  }

  /** The second write's data is due while the first one's is on the bus. */
  lemma SecondIsDue(c: Config, s: Sys, e: Sys, j: int)
    requires c.Sensible() && Sending(c, s, j, c.WL() - 1) && j >= c.WL() && j + 1 - c.WL() < c.Burst()
    ensures !BusMoved(c, s, e)
  {
  }

  /** How long ago the write to rank r was issued, seen from before the step of cycle now. */
  function Since(c: Config, r: nat, now: int): int { if now <= WriteTime(c, r) then -1 else now - 1 - WriteTime(c, r) }

  lemma SendingStep(c: Config, s: Sys, e: Sys, now: int)
    requires c.Sensible() && !WritesFit(c) && now < CollisionTime(c)
    requires Since(c, 1, now) < c.WL() && Sending(c, s, Since(c, 0, now), Since(c, 1, now))
    requires BusMoved(c, s, e) && e.writes == MovedWrites(s) + Pushed(c, PoppedAt(c, now))
    ensures Since(c, 1, now + 1) < c.WL() && Sending(c, e, Since(c, 0, now + 1), Since(c, 1, now + 1))
  {
    hide Sending, MovedWrites, BusMoved;
    var j, k := Since(c, 0, now), Since(c, 1, now);
    if now == WriteTime(c, 0) {
      SendingStarts(c, s, e, j, 0);
    } else if now == WriteTime(c, 1) {
      SendingStarts(c, s, e, j, 1);
    } else {
      assert Pushed(c, PoppedAt(c, now)) == [];
      assert MovedWrites(s) + [] == MovedWrites(s);
      SendingMoves(c, s, e, j, k);
    }
  }

  // ---- one step ----

  /** The state before the step of cycle now, a request of that cycle aside. */
  ghost predicate OnTime(c: Config, s: Sys, m: nat) {
    && c.ranks >= 2 && Calm(c, s, m, 0, LinesAt(c, s.now)) && s.now >= 1 && OthersRest(c, s.table, 2)
    && Since(c, 1, s.now) < c.WL() && Sending(c, s, Since(c, 0, s.now), Since(c, 1, s.now))
    && forall r :: 0 <= r <= 1 ==>
         InPhase(c, s.table[r], r, s.now) && (s.now <= ActivateTime(c, r) ==> s.queue.faw[r] == [])
  }

  function Requests(c: Config, now: int): seq<Transaction> {
    if now == RequestTime(c, 0) then [WriteTo(0)] else if now == RequestTime(c, 1) then [WriteTo(1)] else []
  }

  lemma ReadyGoes(c: Config, s: Sys, m: nat, r: nat)
    requires OnTime(c, s, m) && r <= 1 && RequestTime(c, r) < s.now <= ActivateTime(c, r)
    ensures var line := [Opening(r), Column(c, r)];
      if s.now == ActivateTime(c, r) then CanGo(c, s, line, 0) else NoneCanGo(c, s, line)
  {
    assert InPhase(c, s.table[r], r, s.now);
    AgedLines(c, s.queue);
    hide QueueShape, Good, OthersRest, RefreshesLate, Only, Sending, Since, LinesAt, Plain;
  }

  lemma OpenedGoes(c: Config, s: Sys, m: nat, r: nat)
    requires OnTime(c, s, m) && r <= 1 && ActivateTime(c, r) < s.now <= WriteTime(c, r)
    ensures var line := [Column(c, r)];
      if s.now == WriteTime(c, r) then CanGo(c, s, line, 0) else NoneCanGo(c, s, line)
  {
    assert InPhase(c, s.table[r], r, s.now);
    AgedLines(c, s.queue);
    hide QueueShape, Good, OthersRest, RefreshesLate, Only, Sending, Since, LinesAt;
  }

  /** Rank r's first packet can go in its cycle and not before. */
  lemma GoesInTime(c: Config, s: Sys, m: nat, r: nat)
    requires OnTime(c, s, m) && r <= 1
    ensures var line := LinesAt(c, s.now)[r];
      && (s.now == ActivateTime(c, r) || s.now == WriteTime(c, r) ==>
           |line| > 0 && line[0] == PoppedAt(c, s.now).value && CanGo(c, s, line, 0))
      && (s.now != ActivateTime(c, r) && s.now != WriteTime(c, r) ==> NoneCanGo(c, s, line))
  {
    hide Shape, Calm, OthersRest, Sending, InPhase, CanGo;
    OnTimeShape(c, s, m);
    if RequestTime(c, r) < s.now <= ActivateTime(c, r) {
      ReadyGoes(c, s, m, r);
    } else if ActivateTime(c, r) < s.now <= WriteTime(c, r) {
      OpenedGoes(c, s, m, r);
    }
  }

  /** An open row is wanted, or has been written too recently to be closed. */
  lemma RowStaysOpen(c: Config, s: Sys, m: nat, r: nat)
    requires OnTime(c, s, m) && r <= 1 && c.openPage && s.now < WriteTime(c, r) + c.WriteToPre()
    requires ActivateTime(c, r) < s.now
    ensures !Closable(c, s.queue, TickTable(c, s.table), r, 0, s.now)
  {
    assert InPhase(c, s.table[r], r, s.now);
    assert Line(c, s.queue, r, 0) == LinesAt(c, s.now)[r];
    hide QueueShape, Good, OthersRest, RefreshesLate, Only, Sending, Since;
  }

  lemma RestsInPhase(c: Config, s: Sys, m: nat, r: nat, b: nat)
    requires OnTime(c, s, m) && r <= 1 && b < c.banks && (b == 0 ==> s.now <= ActivateTime(c, r))
    ensures Shape(c, s) && Resting(s.table[r][b])
  {
    assert InPhase(c, s.table[r], r, s.now);
    hide QueueShape, Calm, OthersRest, Sending, Since;
    OnTimeShape(c, s, m);
  }

  lemma NoRowOpenIdly(c: Config, s: Sys, m: nat, r: nat)
    requires OnTime(c, s, m) && r <= 1 && c.openPage && s.now < WriteTime(c, r) + c.WriteToPre()
    ensures NoRowCloses(c, s, r)
  {
    OnTimeShape(c, s, m);
    hide OnTime, Shape, Closable, Resting, RequestTime, WriteTime, ActivateTime;
    forall b | 0 <= b < c.banks ensures !Closable(c, s.queue, TickTable(c, s.table), r, b, s.now) {
      if b == 0 && ActivateTime(c, r) < s.now {
        RowStaysOpen(c, s, m, r);
      } else {
        RestsInPhase(c, s, m, r, b);
        RestingBank(c, s, r, b);
      }
    }
  }

  /** The queues when the command of the cycle has been popped. */
  function LinesLeft(c: Config, now: int): (lines: seq<seq<Packet>>)
    requires c.ranks >= 2
    ensures |lines| == c.ranks
  {
    var lines := LinesAt(c, now);
    var popped := PoppedAt(c, now);
    if popped.None? then lines else lines[popped.value.rank := lines[popped.value.rank][1..]]
  }

  lemma PopsInTime(c: Config, s: Sys, m: nat)
    requires OnTime(c, s, m) && s.now < WriteTime(c, 0) + c.WriteToPre()
    ensures Pops(c, s, 0, PoppedAt(c, s.now), LinesLeft(c, s.now))
  {
    var lines, popped := LinesAt(c, s.now), PoppedAt(c, s.now);
    forall r | 0 <= r < c.ranks && !(popped.Some? && popped.value.rank == r) ensures NoneCanGo(c, s, lines[r]) {
      if r <= 1 {
        PoppedInTime(c, s.now, r);
        GoesInTime(c, s, m, r);
      }
    }
    if popped.Some? {
      PoppedInTime(c, s.now, popped.value.rank);
      GoesInTime(c, s, m, popped.value.rank);
      hide NoneCanGo, CanGo, Calm, Pops;
      PopsPacket(c, s, m, 0, lines, popped.value.rank);
    } else {
      if c.openPage {
        forall r | 0 <= r < c.ranks ensures NoRowCloses(c, s, r) {
          RowKeepsOpen(c, s, m, r);
        }
      }
      hide NoneCanGo, CanGo, Calm, Pops, NoRowCloses;
      PopsNothing(c, s, m, 0, lines);
    }
  }

  lemma RowKeepsOpen(c: Config, s: Sys, m: nat, r: nat)
    requires OnTime(c, s, m) && r < c.ranks && c.openPage && s.now < WriteTime(c, 0) + c.WriteToPre()
    ensures NoRowCloses(c, s, r)
  {
    hide Calm, Sending, OthersRest, InPhase, NoRowCloses;
    if r <= 1 {
      NoRowOpenIdly(c, s, m, r);
    } else {
      OnTimeShape(c, s, m);
      RestingNotClosable(c, s, r, 2);
    }
  }

  lemma OnTimeShape(c: Config, s: Sys, m: nat)
    requires OnTime(c, s, m)
    ensures c.Sensible() && Shape(c, s)
  {
  }

  /** The commands that are popped and the requests that come make the queues of the next cycle. */
  lemma LinesMove(c: Config, s: Sys)
    requires c.Sensible() && c.ranks >= 2 && s.transactions == Requests(c, s.now)
    requires forall i :: 0 <= i < |s.transactions| ==> Placed(c, s.transactions[i])
    ensures CanSchedule(c, s, 0, LinesLeft(c, s.now))
    ensures NextLines(c, s, LinesLeft(c, s.now)) == LinesAt(c, s.now + 1)
  {
    var lines := NextLines(c, s, LinesLeft(c, s.now));
    forall r | 0 <= r < c.ranks ensures lines[r] == LinesAt(c, s.now + 1)[r] {
      if r <= 1 {
        PoppedInTime(c, s.now, r);
      }
    }
  }

  lemma RowsStep(c: Config, s: Sys, e: Sys, m: nat)
    requires OnTime(c, s, m) && c.Sensible() && s.now < WriteTime(c, 0) + c.WriteToPre()
    requires m >= 1 && StepsTo(c, s, e, m - 1, 0, PoppedAt(c, s.now), LinesAt(c, s.now + 1))
    ensures OthersRest(c, e.table, 2)
    ensures forall r :: 0 <= r <= 1 ==>
      InPhase(c, e.table[r], r, s.now + 1) && (s.now + 1 <= ActivateTime(c, r) ==> e.queue.faw[r] == [])
  {
    hide Calm, Sending, OthersRest, InPhase, BusMoved, MovedWrites;
    PoppedInTime(c, s.now, 0);
    OthersStay(c, s, e, PoppedAt(c, s.now), LinesAt(c, s.now + 1), 2);
    forall r | 0 <= r <= 1
      ensures InPhase(c, e.table[r], r, s.now + 1) && (s.now + 1 <= ActivateTime(c, r) ==> e.queue.faw[r] == [])
    {
      assert InPhase(c, s.table[r], r, s.now);
      PoppedInTime(c, s.now, r);
      assert e.table[r] == RowStep(c, s.table[r], r, s.now);
      hide Powered, Moved, RowStep;
      PhaseStep(c, s.table[r], r, s.now);
    }
  }

  lemma TimedStep(c: Config, s: Sys, m: nat)
    requires OnTime(c, s, m) && m >= 1 && s.transactions == Requests(c, s.now)
    requires s.now < WriteTime(c, 0) + c.WriteToPre() && Step(c, s).Ok?
    ensures StepsTo(c, s, Step(c, s).value, m - 1, 0, PoppedAt(c, s.now), LinesAt(c, s.now + 1))
  {
    hide Calm, Sending, OthersRest, InPhase, Step, Pops, CanSchedule, StepsTo, LinesAt, LinesLeft, PoppedAt, Requests,
      QueueShape, NextLines;
    OnTimeCalm(c, s, m);
    LinesMove(c, s);
    PopsInTime(c, s, m);
    CalmStep(c, s, m, 0, LinesAt(c, s.now), PoppedAt(c, s.now), LinesLeft(c, s.now));
  }

  lemma OnTimeCalm(c: Config, s: Sys, m: nat)
    requires OnTime(c, s, m)
    ensures Calm(c, s, m, 0, LinesAt(c, s.now)) && c.ranks >= 2 && c.Sensible() && Shape(c, s)
    ensures forall i :: 0 <= i < |s.transactions| ==> Placed(c, s.transactions[i])
  {
  }

  lemma OnTimeStep(c: Config, s: Sys, m: nat)
    requires OnTime(c, s, m) && m >= 1 && !WritesFit(c) && s.transactions == Requests(c, s.now)
    requires s.now < CollisionTime(c) && Step(c, s).Ok?
    ensures var e := Step(c, s).value; OnTime(c, e, m - 1) && e.now == s.now + 1 && e.transactions == []
  {
    hide Calm, Sending, OthersRest, InPhase, BusMoved, MovedWrites, Step, RowsAfter, LinesAt, PoppedAt, Requests;
    OnTimeShape(c, s, m);
    TimedStep(c, s, m);
    RowsStep(c, s, Step(c, s).value, m);
    SendingStep(c, s, Step(c, s).value, s.now);
  }

  /** The step in which the second write's data is due fails. */
  lemma CollisionStep(c: Config, s: Sys, m: nat)
    requires OnTime(c, s, m) && m >= 1 && !WritesFit(c) && s.transactions == [] && s.now == CollisionTime(c)
    ensures Step(c, s).Exit?
  {
    hide Calm, Sending, OthersRest, InPhase, BusMoved, MovedWrites, Step, RowsAfter, LinesAt, PoppedAt;
    OnTimeShape(c, s, m);
    if Step(c, s).Ok? {
      TimedStep(c, s, m);
      SecondIsDue(c, s, Step(c, s).value, Since(c, 0, s.now));
    }
  }

  // ---- the run ----

  /** The operations of n cycles from cycle now on. */
  function OpsFrom(c: Config, now: int, n: nat): seq<Op>
    decreases n
  {
    if n == 0 then []
    else
      var t := Requests(c, now);
      (if t == [] then [Cycle] else [Direct(t[0]), Cycle]) + OpsFrom(c, now + 1, n - 1)
  }

  lemma OnTimeOffered(c: Config, s: Sys, m: nat, t: Transaction)
    requires OnTime(c, s, m) && s.transactions == [] && c.transQueueDepth >= 1 && Placed(c, t)
    ensures var s1 := Offer(c, s, t); OnTime(c, s1, m) && s1.transactions == [t] && s1.now == s.now
  {
    CalmOffered(c, s, m, 0, LinesAt(c, s.now), t);
    hide QueueShape, Calm, Offer, InPhase, OthersRest, Run;
  }

  lemma OpsValid(c: Config, now: int, n: nat)
    requires c.Sensible() && c.ranks >= 2
    ensures ValidOps(c, OpsFrom(c, now, n))
    decreases n
  {
  }

  /** One cycle with its request. */
  lemma TimedCycle(c: Config, s: Sys, m: nat, n: nat)
    requires OnTime(c, s, m) && s.transactions == [] && c.transQueueDepth >= 1 && n > 0
    ensures ValidOps(c, OpsFrom(c, s.now, n)) && ValidOps(c, OpsFrom(c, s.now + 1, n - 1))
    ensures var t := Requests(c, s.now); var s1 := if t == [] then s else Offer(c, s, t[0]);
      && OnTime(c, s1, m) && s1.transactions == t && s1.now == s.now
      && Run(c, s, OpsFrom(c, s.now, n)) ==
           if Step(c, s1).Exit? then Exit(Step(c, s1).fault)
           else Run(c, Step(c, s1).value, OpsFrom(c, s.now + 1, n - 1))
  {
    hide OnTime, Shape, Step, Offer, RequestTime;
    OnTimeShape(c, s, m);
    OnTimeRanks(c, s, m);
    OpsValid(c, s.now, n);
    OpsValid(c, s.now + 1, n - 1);
    var t := Requests(c, s.now);
    var ops, rest := OpsFrom(c, s.now, n), OpsFrom(c, s.now + 1, n - 1);
    if t == [] {
      assert ops[1..] == rest;
    } else {
      OnTimeOffered(c, s, m, t[0]);
      assert ops[1..] == [Cycle] + rest && ([Cycle] + rest)[1..] == rest;
    }
  }

  lemma OnTimeRanks(c: Config, s: Sys, m: nat)
    requires OnTime(c, s, m)
    ensures c.ranks >= 2 && Placed(c, WriteTo(0)) && Placed(c, WriteTo(1))
  {
  }

  /** From any cycle on the timetable ends in the collision. */
  lemma {:induction false} TimetableCollides(c: Config, s: Sys, m: nat)
    requires OnTime(c, s, m) && !WritesFit(c) && s.transactions == [] && c.transQueueDepth >= 1
    requires s.now <= CollisionTime(c) && m > CollisionTime(c) - s.now
    ensures var ops := OpsFrom(c, s.now, CollisionTime(c) + 1 - s.now); ValidOps(c, ops) && Run(c, s, ops).Exit?
    decreases CollisionTime(c) - s.now
  {
    hide OnTime, Shape, Step, Offer, Run, OpsFrom;
    var n := CollisionTime(c) + 1 - s.now;
    TimedCycle(c, s, m, n);
    OnTimeShape(c, s, m);
    OnTimeRanks(c, s, m);
    var t := Requests(c, s.now);
    var s1 := if t == [] then s else Offer(c, s, t[0]);
    OnTimeShape(c, s1, m);
    if s.now == CollisionTime(c) {
      NoLateRequest(c);
      CollisionStep(c, s1, m);
    } else if Step(c, s1).Ok? {
      OnTimeStep(c, s1, m);
      TimetableCollides(c, Step(c, s1).value, m - 1);
    }
  }

  lemma NoLateRequest(c: Config)
    requires c.Sensible()
    ensures Requests(c, CollisionTime(c)) == []
  {
  }

  // ---- the main results ----

  /** The number of cycles that the two writes take. */
  function Enough(c: Config): int { CollisionTime(c) + c.tXP + 2 }

  /** After the first cycle every rank sleeps if it may. */
  lemma FirstStep(c: Config, s: Sys, m: nat)
    requires c.Sensible() && c.cmdQueueDepth >= 2 && c.ranks >= 2 && Initial(c, s) && Step(c, s).Ok?
    requires RefreshesLate(c, s, m + c.tXP + 1) && m >= 1
    ensures var e := Step(c, s).value; OnTime(c, e, m - 1) && e.now == 1 && e.transactions == []
  {
    hide Shape, Calm, Step, Initial, OthersRest, StepsTo, OnTime, Pops;
    InitialShape(c, s);
    InitialTable(c, s);
    InitialCalm(c, s, m, 0);
    NothingAtFirst(c, s, m);
    CalmStep(c, s, m, 0, NoLines(c), None, NoLines(c));
    FirstIsOnTime(c, s, Step(c, s).value, m - 1);
    OneLater(c, s, Step(c, s).value, m - 1);
  }

  lemma OneLater(c: Config, s: Sys, e: Sys, m: nat)
    requires s.now == 0 && StepsTo(c, s, e, m, 0, None, NoLines(c))
    ensures e.now == 1 && e.transactions == []
  {
  }

  lemma NothingAtFirst(c: Config, s: Sys, m: nat)
    requires Calm(c, s, m, 0, NoLines(c)) && OthersRest(c, s.table, 0)
    ensures Pops(c, s, 0, None, NoLines(c))
  {
    hide QueueShape, Good, Plain, Only, OthersRest, NoRowCloses, Pops, CanGo;
    forall r | 0 <= r < c.ranks ensures NoneCanGo(c, s, NoLines(c)[r]) && NoRowCloses(c, s, r) {
      RestingNotClosable(c, s, r, 0);
    }
    PopsNothing(c, s, m, 0, NoLines(c));
  }

  lemma FirstIsOnTime(c: Config, s: Sys, e: Sys, m: nat)
    requires c.Sensible() && c.ranks >= 2 && StepsTo(c, s, e, m, 0, None, NoLines(c)) && OthersRest(c, s.table, 0)
    requires s.now == 0 && s.writes == [] && s.dataBus.None? && |s.queue.faw| == c.ranks
    requires forall r, j :: 0 <= r < c.ranks && 0 <= j < c.banks ==> s.table[r][j] == FreshBank
    requires forall r :: 0 <= r < c.ranks ==> s.queue.faw[r] == []
    ensures OnTime(c, e, m)
  {
    hide QueueShape, Calm, OthersRest, Powered, Moved, InPhase;
    assert LinesAt(c, 1) == NoLines(c);
    OthersStay(c, s, e, None, NoLines(c), 0);
    FewerRest(c, e.table);
    forall r | 0 <= r <= 1 ensures InPhase(c, e.table[r], r, 1) && e.queue.faw[r] == [] {
      FreshFallsAsleep(c, s.table[r], r);
    }
  }

  lemma FewerRest(c: Config, t: Table)
    requires TableShape(c, t) && OthersRest(c, t, 0)
    ensures OthersRest(c, t, 2)
  {
  }

  lemma FreshFallsAsleep(c: Config, ms: seq<Bank>, r: nat)
    requires c.Sensible() && |ms| > 0 && r <= 1 && forall j :: 0 <= j < |ms| ==> ms[j] == FreshBank
    ensures InPhase(c, Powered(c, Moved(c, ms, r, None, 0), true, 0), r, 1)
  {
    IdleUnmoved(c, ms, r, None, 0);
    hide Moved;
  }

  lemma InitialTable(c: Config, s: Sys)
    requires Initial(c, s)
    ensures s.now == 0 && s.transactions == [] && s.writes == [] && s.dataBus.None? && |s.queue.faw| == c.ranks
    ensures forall r, j :: 0 <= r < c.ranks && 0 <= j < c.banks ==> s.table[r][j] == FreshBank
  {
  }

  /**
   Where writes do not fit, write data collides in some run, from every initial state that has time for two
   writes.
  */
  lemma CollisionReachable(c: Config, s: Sys)
    requires c.Sensible() && c.transQueueDepth >= 1 && c.cmdQueueDepth >= 2 && !WritesFit(c)
    requires Initial(c, s) && RefreshesLate(c, s, Enough(c))
    ensures exists ops :: ValidOps(c, ops) && Run(c, s, ops) == Exit(DataBusCollision)
  {
    hide Run, Initial, OnTime, CollisionTime, Step, OpsFrom;
    InitialShape(c, s);
    var m: nat := CyclesNeeded(c);
    var rest := OpsFrom(c, 1, m - 1);
    OpsValid(c, 1, m - 1);
    var ops := Cycles(1) + rest;
    RunParts(c, s, Cycles(1), rest);
    OneCycle(c, s);
    if Step(c, s).Ok? {
      FirstStep(c, s, m);
      TimetableCollides(c, Step(c, s).value, m - 1);
    }
    NoExitReachable(c, s, ops);
  }

  function CyclesNeeded(c: Config): (m: nat)
    requires c.Sensible()
    ensures m == CollisionTime(c) + 1 > 1
  {
    CollisionTime(c) + 1
  }

  /** The condition is exact: no request sequence makes write data collide if and only if writes fit. */
  lemma WritesFitExactly(c: Config, s: Sys)
    requires c.Sensible() && c.transQueueDepth >= 1 && c.cmdQueueDepth >= 2
    requires Initial(c, s) && RefreshesLate(c, s, Enough(c))
    ensures WritesFit(c) <==> forall ops :: ValidOps(c, ops) ==> Run(c, s, ops).Ok?
  {
    hide Run, Initial, Shape;
    InitialShape(c, s);
    if WritesFit(c) {
      forall ops | ValidOps(c, ops) ensures Run(c, s, ops).Ok? {
        NoExitReachable(c, s, ops);
      }
    } else {
      CollisionReachable(c, s);
    }
  }
}
