/**
 The two tables of bank states, one kept by the memory controller and one by each rank, and the
 relation that ties them.  Every table update acts on each bank separately.
*/
module DramBank {
  import opened DramTypes

  // ---- controller side ----

  /** One cycle of a bank's countdown. */
  function Tick(c: Config, m: Bank): (r: Bank) {
    if m.countdown == 0 then m
    else if m.countdown > 1 then m.(countdown := m.countdown - 1)
    else match m.lastCommand
      case ReadP | WriteP => m.(mode := Precharging, lastCommand := Precharge, countdown := c.tRP)
      case Refresh | Precharge => m.(mode := Idle, countdown := 0)
      case _ => m.(countdown := 0)
  }

  /** The controller's entry for bank j of rank i after command p is popped at cycle now. */
  function Issue(c: Config, m: Bank, i: nat, j: nat, p: Packet, now: nat): Bank
    requires c.Sensible()
  {
    var target := i == p.rank && j == p.bank;
    if p.kind.IsRead() then
      var m1 := if target then IssueReadHere(c, m, p, now) else m;
      var m2 :=
        if i == p.rank then
          m1.(nextRead := Max(now + c.ColumnGap(), m1.nextRead), nextWrite := Max(now + c.ReadToWrite(), m1.nextWrite))
        else if m1.mode.RowActive? then
          m1.(nextRead := Max(now + c.Burst() + c.tRTRS, m1.nextRead),
              nextWrite := Max(now + c.ReadToWrite(), m1.nextWrite))
        else m1;
      if target && p.kind.ReadP? then m2.(nextRead := m2.nextActivate, nextWrite := m2.nextActivate) else m2
    else if p.kind.IsWrite() then
      var m1 := if target then IssueWriteHere(c, m, p, now) else m;
      var m2 :=
        if i == p.rank then
          m1.(nextWrite := Max(now + c.ColumnGap(), m1.nextWrite),
              nextRead := Max(now + c.WriteToReadSame(), m1.nextRead))
        else if m1.mode.RowActive? then
          m1.(nextWrite := Max(now + c.Burst() + c.tRTRS, m1.nextWrite),
              nextRead := Max(now + c.WriteToReadOther(), m1.nextRead))
        else m1;
      if target && p.kind.WriteP? then m2.(nextRead := m2.nextActivate, nextWrite := m2.nextActivate) else m2
    else if p.kind.Activate? then
      if target then
        m.(mode := RowActive, lastCommand := Activate, openRow := p.row,
           nextActivate := Max(now + c.tRC, m.nextActivate),
           nextPrecharge := Max(now + c.tRAS, m.nextPrecharge),
           nextRead := Max(now + (c.tRCD - c.AL), m.nextRead),
           nextWrite := Max(now + (c.tRCD - c.AL), m.nextWrite))
      else if i == p.rank then m.(nextActivate := Max(now + c.tRRD, m.nextActivate))
      else m
    else if p.kind.Precharge? && target then
      m.(mode := Precharging, lastCommand := Precharge, countdown := c.tRP,
         nextActivate := Max(now + c.tRP, m.nextActivate))
    else if p.kind.Refresh? && i == p.rank then
      m.(nextActivate := now + c.tRFC, mode := Refreshing, lastCommand := Refresh, countdown := c.tRFC)
    else m
  }

  /** What a read does to the entry of the bank it goes to, before the column times are pushed back. */
  function IssueReadHere(c: Config, m: Bank, p: Packet, now: nat): Bank
    requires c.Sensible()
  {
    if p.kind.ReadP? then
      m.(nextActivate := Max(now + c.ReadAutoPre(), m.nextActivate), lastCommand := ReadP, countdown := c.ReadToPre())
    else
      m.(nextPrecharge := Max(now + c.ReadToPre(), m.nextPrecharge), lastCommand := Read)
  }

  /** The same for a write. */
  function IssueWriteHere(c: Config, m: Bank, p: Packet, now: nat): Bank
    requires c.Sensible()
  {
    if p.kind.WriteP? then
      m.(nextActivate := Max(now + c.WriteAutoPre(), m.nextActivate), lastCommand := WriteP,
          countdown := c.WriteToPre())
    else
      m.(nextPrecharge := Max(now + c.WriteToPre(), m.nextPrecharge), lastCommand := Write)
  }

  function EnterPowerDown(c: Config, m: Bank, now: nat): Bank {
    m.(mode := PowerDown, nextPowerUp := now + c.tCKE)
  }

  function LeavePowerDown(c: Config, m: Bank, now: nat): Bank {
    m.(mode := Idle, nextActivate := now + c.tXP)
  }

  // ---- rank side ----

  /** The checks a rank makes before it obeys command p. */
  predicate Legal(vs: seq<Bank>, p: Packet, now: nat) {
    match p.kind
    case Read | ReadP =>
      p.bank < |vs| && vs[p.bank].mode.RowActive? && now >= vs[p.bank].nextRead && p.row == vs[p.bank].openRow
    case Write | WriteP =>
      p.bank < |vs| && vs[p.bank].mode.RowActive? && now >= vs[p.bank].nextWrite && p.row == vs[p.bank].openRow
    case Activate => p.bank < |vs| && vs[p.bank].mode.Idle? && now >= vs[p.bank].nextActivate
    case Precharge => p.bank < |vs| && vs[p.bank].mode.RowActive? && now >= vs[p.bank].nextPrecharge
    case Refresh => forall j :: 0 <= j < |vs| ==> vs[j].mode.Idle?
    case Data => true
  }

  /** The rank's entry for its bank j after it obeys command p at cycle now. */
  function Deliver(c: Config, v: Bank, j: nat, p: Packet, now: nat): Bank
    requires c.Sensible()
  {
    if p.kind.IsRead() then
      var v1 :=
        if j != p.bank then v
        else if p.kind.ReadP? then v.(mode := Idle, nextActivate := Max(v.nextActivate, now + c.ReadAutoPre()))
        else v.(nextPrecharge := Max(v.nextPrecharge, now + c.ReadToPre()));
      v1.(nextRead := Max(v1.nextRead, now + c.ColumnGap()), nextWrite := Max(v1.nextWrite, now + c.ReadToWrite()))
    else if p.kind.IsWrite() then
      var v1 :=
        if j != p.bank then v
        else if p.kind.WriteP? then v.(mode := Idle, nextActivate := Max(v.nextActivate, now + c.WriteAutoPre()))
        else v.(nextPrecharge := Max(v.nextPrecharge, now + c.WriteToPre()));
      v1.(nextRead := Max(v1.nextRead, now + c.WriteToReadSame()), nextWrite := Max(v1.nextWrite, now + c.ColumnGap()))
    else if p.kind.Activate? then
      if j == p.bank then
        v.(mode := RowActive, nextActivate := now + c.tRC, openRow := p.row,
           nextWrite := now + (c.tRCD - c.AL), nextRead := now + (c.tRCD - c.AL), nextPrecharge := now + c.tRAS)
      else v.(nextActivate := Max(v.nextActivate, now + c.tRRD))
    else if p.kind.Precharge? && j == p.bank then
      v.(mode := Idle, nextActivate := Max(v.nextActivate, now + c.tRP))
    else if p.kind.Refresh? then v.(nextActivate := now + c.tRFC)
    else v
  }

  // ---- the relation ----

  /** A row that is still marked open although its automatic precharge is under way. */
  predicate Closing(m: Bank) { m.mode.RowActive? && m.countdown > 0 }

  /**
   The controller's entry m promises enough about the rank's entry v, where v already includes the
   command on the bus and t is the last cycle at which the controller counted down.  A command sent
   at t arrives at t + 1, hence the slack of one.
  */
  predicate BankRel(c: Config, m: Bank, v: Bank, t: int) {
    && v.nextActivate <= m.nextActivate + 1
    && match m.mode
       case Idle => v.mode.Idle? && m.countdown == 0
       case RowActive =>
         if m.countdown == 0 then
           && v.mode.RowActive? && v.openRow == m.openRow
           && v.nextRead <= m.nextRead + 1 && v.nextWrite <= m.nextWrite + 1
           && v.nextPrecharge <= m.nextPrecharge + 1
         else
           && v.mode.Idle? && !c.openPage && m.lastCommand.AutoPrecharges()
           && m.nextRead >= t + m.countdown && m.nextWrite >= t + m.countdown
       case Precharging => v.mode.Idle? && m.countdown > 0 && m.lastCommand.Precharge?
       case Refreshing => v.mode.Idle? && m.countdown > 0 && m.lastCommand.Refresh? && m.nextActivate >= t + m.countdown
       case PowerDown => v.mode.PowerDown? && m.countdown == 0 && v.nextPowerUp == m.nextPowerUp
  }

  /** What the controller knows of entry m when p goes to that bank. */
  predicate PermittedAt(c: Config, m: Bank, p: Packet, now: nat) {
    if p.kind.IsRead() then
      p.kind == c.ColumnKind(true) && m.mode.RowActive? && now >= m.nextRead && p.row == m.openRow
    else if p.kind.IsWrite() then
      p.kind == c.ColumnKind(false) && m.mode.RowActive? && now >= m.nextWrite && p.row == m.openRow
    else if p.kind.Activate? then
      (m.mode.Idle? || m.mode.Refreshing?) && now >= m.nextActivate
    else
      p.kind.Precharge? && c.openPage && m.mode.RowActive? && now >= m.nextPrecharge
  }

  /** What the controller knows of a bank of the rank that a refresh goes to. */
  predicate RefreshableAt(m: Bank, now: nat) {
    !m.mode.RowActive? && !m.mode.PowerDown? && m.nextActivate <= now
  }

  /** The state in which the command queue lets p go to a rank whose controller entries are ms. */
  predicate Permitted(c: Config, ms: seq<Bank>, p: Packet, now: nat) {
    if p.kind.Refresh? then forall j :: 0 <= j < |ms| ==> RefreshableAt(ms[j], now)
    else p.bank < |ms| && PermittedAt(c, ms[p.bank], p, now)
  }

  /** Counting down keeps the relation and moves it one cycle on. */
  lemma TickKeepsRel(c: Config, m: Bank, v: Bank, t: int)
    requires c.Sensible() && BankRel(c, m, v, t)
    ensures BankRel(c, Tick(c, m), v, t + 1)
  {
  }

  /** A command that the controller permits at t is legal for the rank when it arrives at t + 1. */
  lemma PermittedIsLegal(c: Config, ms: seq<Bank>, vs: seq<Bank>, p: Packet, t: nat)
    requires c.Sensible() && |ms| == |vs|
    requires forall j :: 0 <= j < |ms| ==> BankRel(c, ms[j], vs[j], t)
    requires Permitted(c, ms, p, t)
    ensures Legal(vs, p, t + 1)
  {
    if p.kind.Refresh? {
      forall j | 0 <= j < |vs| ensures vs[j].mode.Idle? {
        assert BankRel(c, ms[j], vs[j], t);
      }
    } else {
      assert BankRel(c, ms[p.bank], vs[p.bank], t);
    }
  }

  /** Updating both tables for a permitted column command keeps the bank related. */
  lemma ColumnKeepsRel(c: Config, m: Bank, v: Bank, j: nat, p: Packet, t: nat)
    requires c.Sensible() && BankRel(c, m, v, t) && p.kind.IsColumn()
    requires j == p.bank ==> PermittedAt(c, m, p, t)
    ensures BankRel(c, Issue(c, m, p.rank, j, p, t), Deliver(c, v, j, p, t + 1), t)
  {
    if p.kind.IsRead() {
      assert j != p.bank ==> Deliver(c, v, j, p, t + 1).mode == v.mode;
    } else {
      assert j != p.bank ==> Deliver(c, v, j, p, t + 1).mode == v.mode;
    }
  }

  /** The same for the commands that open and close rows and for a refresh. */
  lemma RowCommandKeepsRel(c: Config, m: Bank, v: Bank, j: nat, p: Packet, t: nat)
    requires c.Sensible() && BankRel(c, m, v, t) && !p.kind.IsColumn()
    requires j == p.bank && !p.kind.Refresh? ==> PermittedAt(c, m, p, t)
    requires p.kind.Refresh? ==> RefreshableAt(m, t)
    ensures BankRel(c, Issue(c, m, p.rank, j, p, t), Deliver(c, v, j, p, t + 1), t)
  {
  }

  /** Updating both tables for a permitted command keeps every bank of the addressed rank related. */
  lemma IssueKeepsRel(c: Config, ms: seq<Bank>, vs: seq<Bank>, j: nat, p: Packet, t: nat)
    requires c.Sensible() && |ms| == |vs| && j < |ms|
    requires BankRel(c, ms[j], vs[j], t) && Permitted(c, ms, p, t)
    ensures BankRel(c, Issue(c, ms[j], p.rank, j, p, t), Deliver(c, vs[j], j, p, t + 1), t)
  {
    if p.kind.IsColumn() {
      ColumnKeepsRel(c, ms[j], vs[j], j, p, t);
    } else {
      RowCommandKeepsRel(c, ms[j], vs[j], j, p, t);
    }
  }

  /** Banks of the other ranks only see their column times pushed back. */
  lemma IssueKeepsOtherRank(c: Config, m: Bank, v: Bank, i: nat, j: nat, p: Packet, t: nat)
    requires c.Sensible() && BankRel(c, m, v, t) && i != p.rank
    ensures BankRel(c, Issue(c, m, i, j, p, t), v, t)
  {
  }
}
