/** One rank: its own table of bank states, and the pipeline that returns read data. */
module DramRank {
  import opened Wrappers
  import opened DramTypes
  import opened DramBank

  /** A read waiting out its latency; the rank keeps the packet and the counter in two parallel vectors. */
  datatype Return = Return(packet: Packet, left: nat)

  datatype RankState = RankState(
    banks: seq<Bank>, isPowerDown: bool, refreshWaiting: bool,
    out: Option<Packet>, outLeft: nat, inFlight: seq<Return>)

  function FreshRank(c: Config): RankState {
    RankState(seq(c.banks, i => FreshBank), false, false, None, 0, [])
  }

  function DeliverAll(c: Config, vs: seq<Bank>, p: Packet, now: nat): (r: seq<Bank>)
    requires c.Sensible()
    ensures |r| == |vs| && forall j :: 0 <= j < |vs| ==> r[j] == Deliver(c, vs[j], j, p, now)
  {
    seq(|vs|, j requires 0 <= j < |vs| => Deliver(c, vs[j], j, p, now))
  }

  /** A command or write data arrives. */
  function Receive(c: Config, s: RankState, p: Packet, now: nat): Result<RankState>
    requires c.Sensible()
  {
    if !Legal(s.banks, p, now) then Exit(IllegalCommand)
    else
      Ok(s.(banks := DeliverAll(c, s.banks, p, now),
            refreshWaiting := if p.kind.Refresh? then false else s.refreshWaiting,
            inFlight := if p.kind.IsRead() then s.inFlight + [Return(p.(kind := Data), c.RL())] else s.inFlight))
  }

  function CountReturns(rs: seq<Return>): (r: seq<Return>)
    ensures |r| == |rs| && forall i :: 0 <= i < |rs| ==> r[i] == rs[i].(left := Dec32(rs[i].left))
  {
    seq(|rs|, i requires 0 <= i < |rs| => rs[i].(left := Dec32(rs[i].left)))
  }

  /** The output slot after one cycle on the data bus, and the packet that has left it, if any. */
  function DrainSlot(s: RankState): (RankState, Option<Packet>) {
    if s.out.Some? then
      if Dec32(s.outLeft) == 0 then (s.(out := None, outLeft := 0), s.out)
      else (s.(outLeft := Dec32(s.outLeft)), None)
    else (s, None)
  }

  /** One cycle of a rank, and the read data it hands to the controller. */
  function Advance(c: Config, s: RankState): (RankState, Option<Packet>) {
    var (s1, sent) := DrainSlot(s);
    var rs := CountReturns(s1.inFlight);
    if |rs| > 0 && rs[0].left == 0 then
      (s1.(out := Some(rs[0].packet), outLeft := c.Burst(), inFlight := rs[1..]), sent)
    else (s1.(inFlight := rs), sent)
  }

  function SleepBanks(c: Config, vs: seq<Bank>, now: nat): (r: seq<Bank>)
    ensures |r| == |vs| && forall j :: 0 <= j < |vs| ==> r[j] == EnterPowerDown(c, vs[j], now)
  {
    seq(|vs|, j requires 0 <= j < |vs| => EnterPowerDown(c, vs[j], now))
  }

  function WakeBanks(c: Config, vs: seq<Bank>, now: nat): (r: seq<Bank>)
    ensures |r| == |vs| && forall j :: 0 <= j < |vs| ==> r[j] == LeavePowerDown(c, vs[j], now)
  {
    seq(|vs|, j requires 0 <= j < |vs| => LeavePowerDown(c, vs[j], now))
  }

  function Sleep(c: Config, s: RankState, now: nat): Result<RankState> {
    if exists j :: 0 <= j < |s.banks| && !s.banks[j].mode.Idle? then Exit(IllegalPowerDown)
    else Ok(s.(banks := SleepBanks(c, s.banks, now), isPowerDown := true))
  }

  function Wake(c: Config, s: RankState, now: nat): Result<RankState> {
    if !s.isPowerDown || (exists j :: 0 <= j < |s.banks| && s.banks[j].nextPowerUp > now) then Exit(IllegalPowerUp)
    else Ok(s.(banks := WakeBanks(c, s.banks, now), isPowerDown := false))
  }

  class Rank {
    const c: Config
    var banks: seq<Bank>
    var isPowerDown: bool
    var refreshWaiting: bool
    var outgoingDataPacket: Option<Packet>
    var dataCyclesLeft: nat
    var readReturn: seq<Return>
    var currentClockCycle: nat

    function State(): RankState reads this {
      RankState(banks, isPowerDown, refreshWaiting, outgoingDataPacket, dataCyclesLeft, readReturn)
    }

    constructor (c: Config)
      ensures this.c == c && State() == FreshRank(c) && currentClockCycle == 0
    {
      this.c := c;
      banks := seq(c.banks, i => FreshBank);
      isPowerDown, refreshWaiting := false, false;
      outgoingDataPacket, dataCyclesLeft := None, 0;
      readReturn, currentClockCycle := [], 0;
    }

    /** Pushes the column times of every bank back. */
    method DelayColumns(nextRead: nat, nextWrite: nat)
      modifies this`banks
      ensures |banks| == old(|banks|)
      ensures forall j :: 0 <= j < |banks| ==>
        banks[j] == old(banks)[j].(nextRead := Max(old(banks)[j].nextRead, nextRead),
                                   nextWrite := Max(old(banks)[j].nextWrite, nextWrite))
    {
      for i := 0 to |banks|
        invariant |banks| == old(|banks|)
        invariant forall j :: 0 <= j < i ==>
          banks[j] == old(banks)[j].(nextRead := Max(old(banks)[j].nextRead, nextRead),
                                     nextWrite := Max(old(banks)[j].nextWrite, nextWrite))
        invariant forall j :: i <= j < |banks| ==> banks[j] == old(banks)[j]
      {
        banks := banks[i := banks[i].(nextRead := Max(banks[i].nextRead, nextRead),
                                      nextWrite := Max(banks[i].nextWrite, nextWrite))];
      }
    }

    /** Pushes the activate times of the other banks back. */
    method DelayActivates(bank: nat, nextActivate: nat)
      modifies this`banks
      ensures |banks| == old(|banks|)
      ensures forall j :: 0 <= j < |banks| ==>
        banks[j] == if j == bank then old(banks)[j]
                    else old(banks)[j].(nextActivate := Max(old(banks)[j].nextActivate, nextActivate))
    {
      for i := 0 to |banks|
        invariant |banks| == old(|banks|)
        invariant forall j :: 0 <= j < i ==>
          banks[j] == if j == bank then old(banks)[j]
                      else old(banks)[j].(nextActivate := Max(old(banks)[j].nextActivate, nextActivate))
        invariant forall j :: i <= j < |banks| ==> banks[j] == old(banks)[j]
      {
        if i != bank {
          banks := banks[i := banks[i].(nextActivate := Max(banks[i].nextActivate, nextActivate))];
        }
      }
    }

    method ReceiveRead(p: Packet) returns (r: Result<()>)
      requires c.Sensible() && p.kind.IsRead()
      modifies this
      ensures match Receive(c, old(State()), p, old(currentClockCycle))
              case Ok(s) => r.Ok? && State() == s
              case Exit(f) => r == Exit(f)
      ensures currentClockCycle == old(currentClockCycle)
    {
      var b := p.bank;
      if b >= |banks| || !banks[b].mode.RowActive? || currentClockCycle < banks[b].nextRead
         || p.row != banks[b].openRow {
        return Exit(IllegalCommand);
      }
      ghost var before := State();
      if p.kind.ReadP? {
        banks := banks[b := banks[b].(mode := Idle,
          nextActivate := Max(banks[b].nextActivate, currentClockCycle + c.ReadAutoPre()))];
      } else {
        banks := banks[b := banks[b].(nextPrecharge := Max(banks[b].nextPrecharge, currentClockCycle + c.ReadToPre()))];
      }
      DelayColumns(currentClockCycle + c.ColumnGap(), currentClockCycle + c.ReadToWrite());
      assert banks == DeliverAll(c, before.banks, p, currentClockCycle);
      readReturn := readReturn + [Return(p.(kind := Data), c.RL())];
      return Ok(());
    }

    method ReceiveWrite(p: Packet) returns (r: Result<()>)
      requires c.Sensible() && p.kind.IsWrite()
      modifies this
      ensures match Receive(c, old(State()), p, old(currentClockCycle))
              case Ok(s) => r.Ok? && State() == s
              case Exit(f) => r == Exit(f)
      ensures currentClockCycle == old(currentClockCycle)
    {
      var b := p.bank;
      if b >= |banks| || !banks[b].mode.RowActive? || currentClockCycle < banks[b].nextWrite
         || p.row != banks[b].openRow {
        return Exit(IllegalCommand);
      }
      ghost var before := State();
      if p.kind.WriteP? {
        banks := banks[b := banks[b].(mode := Idle,
          nextActivate := Max(banks[b].nextActivate, currentClockCycle + c.WriteAutoPre()))];
      } else {
        banks := banks[b := banks[b].(nextPrecharge :=
            Max(banks[b].nextPrecharge, currentClockCycle + c.WriteToPre()))];
      }
      DelayColumns(currentClockCycle + c.WriteToReadSame(), currentClockCycle + c.ColumnGap());
      assert banks == DeliverAll(c, before.banks, p, currentClockCycle);
      return Ok(());
    }

    method ReceiveRowCommand(p: Packet) returns (r: Result<()>)
      requires c.Sensible() && (p.kind.Activate? || p.kind.Precharge?)
      modifies this
      ensures match Receive(c, old(State()), p, old(currentClockCycle))
              case Ok(s) => r.Ok? && State() == s
              case Exit(f) => r == Exit(f)
      ensures currentClockCycle == old(currentClockCycle)
    {
      var b, now := p.bank, currentClockCycle;
      ghost var before := State();
      if p.kind.Activate? {
        if b >= |banks| || !banks[b].mode.Idle? || now < banks[b].nextActivate {
          return Exit(IllegalCommand);
        }
        banks := banks[b := banks[b].(mode := RowActive, nextActivate := now + c.tRC, openRow := p.row,
          nextWrite := now + (c.tRCD - c.AL), nextRead := now + (c.tRCD - c.AL), nextPrecharge := now + c.tRAS)];
        DelayActivates(b, now + c.tRRD);
      } else {
        if b >= |banks| || !banks[b].mode.RowActive? || now < banks[b].nextPrecharge {
          return Exit(IllegalCommand);
        }
        banks := banks[b := banks[b].(mode := Idle, nextActivate := Max(banks[b].nextActivate, now + c.tRP))];
      }
      assert banks == DeliverAll(c, before.banks, p, now);
      return Ok(());
    }

    method ReceiveRefresh(p: Packet) returns (r: Result<()>)
      requires c.Sensible() && p.kind.Refresh?
      modifies this
      ensures match Receive(c, old(State()), p, old(currentClockCycle))
              case Ok(s) => r.Ok? && State() == s
              case Exit(f) => r == Exit(f)
      ensures currentClockCycle == old(currentClockCycle)
    {
      ghost var before := State();
      refreshWaiting := false;
      for i := 0 to |banks|
        invariant |banks| == |before.banks| && State() == before.(banks := banks, refreshWaiting := false)
        invariant forall j :: 0 <= j < i ==> before.banks[j].mode.Idle?
        invariant forall j :: 0 <= j < i ==> banks[j] == Deliver(c, before.banks[j], j, p, currentClockCycle)
        invariant forall j :: i <= j < |banks| ==> banks[j] == before.banks[j]
        invariant currentClockCycle == old(currentClockCycle)
      {
        if !banks[i].mode.Idle? {
          return Exit(IllegalCommand);
        }
        banks := banks[i := banks[i].(nextActivate := currentClockCycle + c.tRFC)];
      }
      assert banks == DeliverAll(c, before.banks, p, currentClockCycle);
      return Ok(());
    }

    method ReceiveFromBus(p: Packet) returns (r: Result<()>)
      requires c.Sensible()
      modifies this
      ensures match Receive(c, old(State()), p, old(currentClockCycle))
              case Ok(s) => r.Ok? && State() == s
              case Exit(f) => r == Exit(f)
      ensures currentClockCycle == old(currentClockCycle)
    {
      if p.kind.IsRead() {
        r := ReceiveRead(p);
      } else if p.kind.IsWrite() {
        r := ReceiveWrite(p);
      } else if p.kind.Activate? || p.kind.Precharge? {
        r := ReceiveRowCommand(p);
      } else if p.kind.Refresh? {
        r := ReceiveRefresh(p);
      } else {
        assert banks == DeliverAll(c, banks, p, currentClockCycle);
        return Ok(());
      }
    }

    method Update() returns (sent: Option<Packet>)
      modifies this
      ensures (State(), sent) == Advance(c, old(State()))
      ensures currentClockCycle == old(currentClockCycle)
    {
      sent := None;
      if outgoingDataPacket.Some? {
        dataCyclesLeft := Dec32(dataCyclesLeft);
        if dataCyclesLeft == 0 {
          sent := outgoingDataPacket;
          outgoingDataPacket := None;
        }
      }
      ghost var waiting := readReturn;
      for i := 0 to |readReturn|
        invariant |readReturn| == |waiting|
        invariant forall j :: 0 <= j < i ==> readReturn[j] == waiting[j].(left := Dec32(waiting[j].left))
        invariant forall j :: i <= j < |waiting| ==> readReturn[j] == waiting[j]
        invariant State().(inFlight := waiting) == DrainSlot(old(State())).0
        invariant currentClockCycle == old(currentClockCycle)
      {
        readReturn := readReturn[i := readReturn[i].(left := Dec32(readReturn[i].left))];
      }
      assert readReturn == CountReturns(waiting);
      if |readReturn| > 0 && readReturn[0].left == 0 {
        outgoingDataPacket := Some(readReturn[0].packet);
        dataCyclesLeft := c.Burst();
        readReturn := readReturn[1..];
      }
    }

    method PowerDown() returns (r: Result<()>)
      modifies this
      ensures match Sleep(c, old(State()), old(currentClockCycle))
              case Ok(s) => r.Ok? && State() == s
              case Exit(f) => r == Exit(f)
      ensures currentClockCycle == old(currentClockCycle)
    {
      ghost var before := State();
      for i := 0 to |banks|
        invariant |banks| == |before.banks| && State() == before.(banks := banks)
        invariant forall j :: 0 <= j < i ==> before.banks[j].mode.Idle?
        invariant forall j :: 0 <= j < i ==> banks[j] == EnterPowerDown(c, before.banks[j], currentClockCycle)
        invariant forall j :: i <= j < |banks| ==> banks[j] == before.banks[j]
        invariant currentClockCycle == old(currentClockCycle)
      {
        if !banks[i].mode.Idle? {
          assert !before.banks[i].mode.Idle?;
          return Exit(IllegalPowerDown);
        }
        banks := banks[i := banks[i].(nextPowerUp := currentClockCycle + c.tCKE, mode := Mode.PowerDown)];
      }
      assert banks == SleepBanks(c, before.banks, currentClockCycle);
      isPowerDown := true;
      return Ok(());
    }

    method PowerUp() returns (r: Result<()>)
      modifies this
      ensures match Wake(c, old(State()), old(currentClockCycle))
              case Ok(s) => r.Ok? && State() == s
              case Exit(f) => r == Exit(f)
      ensures currentClockCycle == old(currentClockCycle)
    {
      if !isPowerDown {
        return Exit(IllegalPowerUp);
      }
      ghost var before := State();
      isPowerDown := false;
      for i := 0 to |banks|
        invariant |banks| == |before.banks| && State() == before.(banks := banks, isPowerDown := false)
        invariant forall j :: 0 <= j < i ==> before.banks[j].nextPowerUp <= currentClockCycle
        invariant forall j :: 0 <= j < i ==> banks[j] == LeavePowerDown(c, before.banks[j], currentClockCycle)
        invariant forall j :: i <= j < |banks| ==> banks[j] == before.banks[j]
        invariant currentClockCycle == old(currentClockCycle)
      {
        if banks[i].nextPowerUp > currentClockCycle {
          assert before.banks[i].nextPowerUp > currentClockCycle;
          return Exit(IllegalPowerUp);
        }
        banks := banks[i := banks[i].(nextActivate := currentClockCycle + c.tXP, mode := Mode.Idle)];
      }
      assert banks == WakeBanks(c, before.banks, currentClockCycle);
      return Ok(());
    }

    method Step()
      modifies this`currentClockCycle
      ensures currentClockCycle == old(currentClockCycle) + 1
    {
      currentClockCycle := currentClockCycle + 1;
    }
  }
}
