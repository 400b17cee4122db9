/**
 The whole memory system as a state machine.  One step is one call of update: the ranks, then the
 phases of the memory controller in their order, then the clocks.
*/
module DramSystem {
  import opened Wrappers
  import opened DramTypes
  import opened DramBank
  import opened DramQueue
  import opened DramRank

  /** A packet together with a cycle. */
  datatype Event = Event(packet: Packet, at: nat)

  /** What has been seen from outside so far. */
  datatype History = History(
    accepted: seq<Transaction>,   // transactions the controller has taken
    issued: seq<Event>,           // commands put on the command bus
    writeData: seq<Event>,        // write data put on the data bus
    answered: seq<nat>)           // addresses of the reads answered

  datatype Sys = Sys(
    now: nat, table: Table, queue: QueueState, ranks: seq<RankState>,
    cmdBus: Option<Packet>, cmdLeft: nat, dataBus: Option<Packet>, dataLeft: nat,
    writes: seq<Return>, refreshCountdown: seq<nat>, refreshRank: nat,
    transactions: seq<Transaction>, pendingReads: seq<Transaction>, returned: seq<nat>,
    powerDown: seq<bool>, waiting: seq<Transaction>, history: History)

  predicate Placed(c: Config, t: Transaction) { t.rank < c.ranks && t.bank < c.banks }

  /** All vectors have the lengths that the loops over ranks and banks count on. */
  predicate Shape(c: Config, s: Sys) {
    && TableShape(c, s.table) && QueueShape(c, s.queue)
    && |s.ranks| == |s.refreshCountdown| == |s.powerDown| == c.ranks
    && (forall r :: 0 <= r < c.ranks ==> |s.ranks[r].banks| == c.banks)
    && s.refreshRank < c.ranks
    && (forall i :: 0 <= i < |s.transactions| ==> Placed(c, s.transactions[i]))
    && (forall i :: 0 <= i < |s.waiting| ==> Placed(c, s.waiting[i]))
    && (s.cmdBus.Some? ==> s.cmdBus.value.rank < c.ranks)
    && (s.dataBus.Some? ==> s.dataBus.value.rank < c.ranks && s.dataBus.value.kind.Data?)
    && (forall i :: 0 <= i < |s.writes| ==> s.writes[i].packet.rank < c.ranks && s.writes[i].packet.kind.Data?)
  }

  // ---- the phases of one step ----

  /** Rank i moves on by one cycle; read data it has sent joins the controller's return queue. */
  function AdvanceRank(c: Config, s: Sys, i: nat): (r: Result<Sys>)
    requires i < |s.ranks|
    requires Shape(c, s)
    ensures r.Ok? ==> Shape(c, r.value)
  {
    var (rank, sent) := Advance(c, s.ranks[i]);
    var s1 := s.(ranks := s.ranks[i := rank]);
    match sent
    case None => Ok(s1)
    case Some(p) => if p.kind.Data? then Ok(s1.(returned := s1.returned + [p.addr])) else Exit(NotData)
  }

  function AdvanceRanks(c: Config, s: Sys, i: nat): (r: Result<Sys>)
    requires i <= |s.ranks|
    decreases |s.ranks| - i
    requires Shape(c, s)
    ensures r.Ok? ==> Shape(c, r.value)
  {
    if i == |s.ranks| then Ok(s)
    else
      match AdvanceRank(c, s, i)
      case Exit(f) => Exit(f)
      case Ok(s1) => AdvanceRanks(c, s1, i + 1)
  }

  predicate WillAccept(c: Config, s: Sys) { |s.transactions| < c.transQueueDepth }

  /** The controller takes a transaction if its queue has a place left. */
  function Offer(c: Config, s: Sys, t: Transaction): (r: Sys)
    requires Shape(c, s) && Placed(c, t)
    ensures Shape(c, r)
  {
    if WillAccept(c, s) then
      s.(transactions := s.transactions + [t], history := s.history.(accepted := s.history.accepted + [t]))
    else s
  }

  /** A request from outside: it waits at the memory system if the controller cannot take it. */
  function Submit(c: Config, s: Sys, t: Transaction): (r: Sys)
    requires Shape(c, s) && Placed(c, t)
    ensures Shape(c, r)
  {
    if WillAccept(c, s) then Offer(c, s, t) else s.(waiting := s.waiting + [t])
  }

  function AdmitWaiting(c: Config, s: Sys): (r: Sys)
    requires Shape(c, s)
    ensures Shape(c, r)
  {
    if |s.waiting| > 0 && WillAccept(c, s) then Offer(c, s, s.waiting[0]).(waiting := s.waiting[1..]) else s
  }

  function TickTable(c: Config, t: Table): (r: Table)
    requires TableShape(c, t)
    ensures TableShape(c, r)
    ensures forall i, j :: 0 <= i < c.ranks && 0 <= j < c.banks ==> r[i][j] == Tick(c, t[i][j])
  {
    seq(c.ranks, i requires 0 <= i < c.ranks => seq(c.banks, j requires 0 <= j < c.banks => Tick(c, t[i][j])))
  }

  function CountDown(c: Config, s: Sys): (r: Sys)
    requires Shape(c, s)
    ensures Shape(c, r)
  {
    s.(table := TickTable(c, s.table))
  }

  /** The command on the bus reaches its rank. */
  function DeliverCommand(c: Config, s: Sys): (r: Result<Sys>)
    requires c.Sensible() && Shape(c, s)
    ensures r.Ok? ==> Shape(c, r.value)
  {
    if s.cmdBus.None? then Ok(s)
    else if Dec32(s.cmdLeft) != 0 then Ok(s.(cmdLeft := Dec32(s.cmdLeft)))
    else
      var p := s.cmdBus.value;
      match Receive(c, s.ranks[p.rank], p, s.now)
      case Exit(f) => Exit(f)
      case Ok(rank) => Ok(s.(ranks := s.ranks[p.rank := rank], cmdBus := None, cmdLeft := 0))
  }

  /** The write data on the bus reaches its rank. */
  function DeliverData(c: Config, s: Sys): (r: Result<Sys>)
    requires c.Sensible() && Shape(c, s)
    ensures r.Ok? ==> Shape(c, r.value)
  {
    if s.dataBus.None? then Ok(s)
    else if Dec32(s.dataLeft) != 0 then Ok(s.(dataLeft := Dec32(s.dataLeft)))
    else
      var p := s.dataBus.value;
      match Receive(c, s.ranks[p.rank], p, s.now)
      case Exit(f) => Exit(f)
      case Ok(rank) => Ok(s.(ranks := s.ranks[p.rank := rank], dataBus := None, dataLeft := 0))
  }

  /** Write data whose latency is over goes on the bus. */
  function SendData(c: Config, s: Sys): (r: Result<Sys>)
    requires Shape(c, s)
    ensures r.Ok? ==> Shape(c, r.value)
  {
    var ws := CountReturns(s.writes);
    if |ws| > 0 && ws[0].left == 0 then
      if s.dataBus.Some? then Exit(DataBusCollision)
      else
        Ok(s.(dataBus := Some(ws[0].packet), dataLeft := c.Burst(), writes := ws[1..],
              history := s.history.(writeData := s.history.writeData + [Event(ws[0].packet, s.now)])))
    else Ok(s.(writes := ws))
  }

  /** Asks for the refresh that is due, or wakes a sleeping rank in time for its refresh. */
  function RefreshTimer(c: Config, s: Sys): (r: Sys)
    requires c.Sensible() && Shape(c, s)
    ensures Shape(c, r)
  {
    var r := s.refreshRank;
    if s.refreshCountdown[r] == 0 then
      s.(queue := s.queue.(refreshWaiting := true, refreshRank := r),
         ranks := s.ranks[r := s.ranks[r].(refreshWaiting := true)],
         refreshCountdown := s.refreshCountdown[r := c.refreshCycles],
         refreshRank := if r + 1 == c.ranks then 0 else r + 1)
    else if s.powerDown[r] && s.refreshCountdown[r] <= c.tXP then
      s.(ranks := s.ranks[r := s.ranks[r].(refreshWaiting := true)])
    else s
  }

  function IssueTable(c: Config, t: Table, p: Packet, now: nat): (r: Table)
    requires c.Sensible() && TableShape(c, t)
    ensures TableShape(c, r)
    ensures forall i, j :: 0 <= i < c.ranks && 0 <= j < c.banks ==> r[i][j] == Issue(c, t[i][j], i, j, p, now)
  {
    seq(c.ranks, i requires 0 <= i < c.ranks =>
      seq(c.banks, j requires 0 <= j < c.banks => Issue(c, t[i][j], i, j, p, now)))
  }

  /** Pops the next command, if there is one, and puts it on the command bus. */
  function IssueNext(c: Config, s: Sys): (r: Result<Sys>)
    requires c.Sensible() && Shape(c, s)
    ensures r.Ok? ==> Shape(c, r.value)
  {
    var (queue, popped) := Pop(c, s.queue, s.table, s.now);
    var s1 := s.(queue := queue);
    if popped.None? then Ok(s1)
    else
      var p := popped.value;
      if s.cmdBus.Some? then Exit(CommandBusCollision)
      else
        Ok(s1.(
          writes := if p.kind.IsWrite() then s.writes + [Return(p.(kind := Data), c.WL())] else s.writes,
          table := IssueTable(c, s.table, p, s.now),
          cmdBus := Some(p), cmdLeft := c.tCMD,
          history := s.history.(issued := s.history.issued + [Event(p, s.now)])))
  }

  function ActivateFor(t: Transaction): Packet {
    Packet(Activate, t.addr, t.column, t.row, t.rank, t.bank)
  }

  function ColumnFor(c: Config, t: Transaction): Packet {
    Packet(c.ColumnKind(t.isRead), t.addr, t.column, t.row, t.rank, t.bank)
  }

  /** The first transaction from i on whose command queue has room for two packets. */
  function FirstSchedulable(c: Config, s: Sys, i: nat): (n: nat)
    requires c.Sensible() && Shape(c, s) && i <= |s.transactions|
    ensures i <= n <= |s.transactions|
    ensures n < |s.transactions| ==> HasRoom(c, s.queue, 2, s.transactions[n].rank, s.transactions[n].bank)
    ensures forall k :: i <= k < n ==> !HasRoom(c, s.queue, 2, s.transactions[k].rank, s.transactions[k].bank)
    decreases |s.transactions| - i
  {
    if i == |s.transactions| || HasRoom(c, s.queue, 2, s.transactions[i].rank, s.transactions[i].bank) then i
    else FirstSchedulable(c, s, i + 1)
  }

  lemma SetLineShape(c: Config, q: QueueState, p: Packet)
    requires c.Sensible() && QueueShape(c, q) && Belongs(c, p, p.rank, Slot(c, p.bank))
    ensures QueueShape(c, SetLine(c, q, p.rank, p.bank, Line(c, q, p.rank, p.bank) + [p]))
  {
    SetLineKeepsShape(c, q, p.rank, p.bank, Line(c, q, p.rank, p.bank) + [p]);
  }

  /** Turns at most one transaction into an activate and a column command. */
  function Schedule(c: Config, s: Sys): (r: Result<Sys>)
    requires c.Sensible() && Shape(c, s)
    ensures r.Ok? ==> Shape(c, r.value)
  {
    var i := FirstSchedulable(c, s, 0);
    if i == |s.transactions| then Ok(s)
    else
      var t := s.transactions[i];
      match Enqueue(c, s.queue, ActivateFor(t))
      case Exit(f) => Exit(f)
      case Ok(q1) =>
        SetLineShape(c, s.queue, ActivateFor(t));
        match Enqueue(c, q1, ColumnFor(c, t))
        case Exit(f) => Exit(f)
        case Ok(q2) =>
          SetLineShape(c, q1, ColumnFor(c, t));
          Ok(s.(queue := q2, transactions := s.transactions[..i] + s.transactions[i + 1..],
                pendingReads := if t.isRead then s.pendingReads + [t] else s.pendingReads))
  }

  function SetRow(c: Config, t: Table, i: nat, row: seq<Bank>): Table
    requires TableShape(c, t) && i < c.ranks && |row| == c.banks
  {
    t[i := row]
  }

  /** Lets rank i sleep when it has nothing to do, and wakes it when it has. */
  function PowerRank(c: Config, s: Sys, i: nat): (r: Result<Sys>)
    requires c.Sensible() && Shape(c, s) && i < c.ranks
    ensures r.Ok? ==> Shape(c, r.value)
  {
    if Empty(c, s.queue, i) && !s.ranks[i].refreshWaiting then
      if forall j :: 0 <= j < c.banks ==> s.table[i][j].mode.Idle? then
        match Sleep(c, s.ranks[i], s.now)
        case Exit(f) => Exit(f)
        case Ok(rank) =>
          Ok(s.(powerDown := s.powerDown[i := true], ranks := s.ranks[i := rank],
                table := SetRow(c, s.table, i, SleepBanks(c, s.table[i], s.now))))
      else Ok(s)
    else if s.now >= s.table[i][0].nextPowerUp && s.powerDown[i] then
      match Wake(c, s.ranks[i], s.now)
      case Exit(f) => Exit(f)
      case Ok(rank) =>
        Ok(s.(powerDown := s.powerDown[i := false], ranks := s.ranks[i := rank],
              table := SetRow(c, s.table, i, WakeBanks(c, s.table[i], s.now))))
    else Ok(s)
  }

  function PowerRanks(c: Config, s: Sys, i: nat): (r: Result<Sys>)
    requires c.Sensible() && Shape(c, s) && i <= c.ranks
    decreases c.ranks - i
    ensures r.Ok? ==> Shape(c, r.value)
  {
    if i == c.ranks || !c.lowPower then Ok(s)
    else
      match PowerRank(c, s, i)
      case Exit(f) => Exit(f)
      case Ok(s1) => PowerRanks(c, s1, i + 1)
  }

  /** The first pending read of address a from i on. */
  function FindPending(pending: seq<Transaction>, a: nat, i: nat): (n: nat)
    requires i <= |pending|
    ensures i <= n <= |pending|
    ensures n < |pending| ==> pending[n].addr == a
    ensures forall k :: i <= k < n ==> pending[k].addr != a
    decreases |pending| - i
  {
    if i == |pending| || pending[i].addr == a then i else FindPending(pending, a, i + 1)
  }

  /** Answers one read whose data has come back. */
  function ReturnRead(c: Config, s: Sys): (r: Result<Sys>)
    requires Shape(c, s)
    ensures r.Ok? ==> Shape(c, r.value)
  {
    if |s.returned| == 0 then Ok(s)
    else
      var n := FindPending(s.pendingReads, s.returned[0], 0);
      if n == |s.pendingReads| then Exit(NoMatchingRead)
      else
        Ok(s.(pendingReads := s.pendingReads[..n] + s.pendingReads[n + 1..], returned := s.returned[1..],
              history := s.history.(answered := s.history.answered + [s.pendingReads[n].addr])))
  }

  function CountRefresh(cs: seq<nat>): seq<nat> {
    seq(|cs|, i requires 0 <= i < |cs| => Dec32(cs[i]))
  }

  function EndCycle(c: Config, s: Sys): (r: Sys)
    requires Shape(c, s)
    ensures Shape(c, r)
  {
    s.(refreshCountdown := CountRefresh(s.refreshCountdown), now := s.now + 1)
  }

  // ---- one step ----

  /** Read data arrives, a waiting request may enter, and the banks count down. */
  function Arrive(c: Config, s: Sys): (r: Result<Sys>)
    requires c.Sensible() && Shape(c, s)
    ensures r.Ok? ==> Shape(c, r.value)
  {
    match AdvanceRanks(c, s, 0)
    case Exit(f) => Exit(f)
    case Ok(s1) => Ok(CountDown(c, AdmitWaiting(c, s1)))
  }

  /** The two buses move on. */
  function MoveBuses(c: Config, s: Sys): (r: Result<Sys>)
    requires c.Sensible() && Shape(c, s)
    ensures r.Ok? ==> Shape(c, r.value)
  {
    match DeliverCommand(c, s)
    case Exit(f) => Exit(f)
    case Ok(s1) =>
      match DeliverData(c, s1)
      case Exit(f) => Exit(f)
      case Ok(s2) => SendData(c, s2)
  }

  /** The refresh timer, the next command, and the next transaction. */
  function Command(c: Config, s: Sys): (r: Result<Sys>)
    requires c.Sensible() && Shape(c, s)
    ensures r.Ok? ==> Shape(c, r.value)
  {
    match IssueNext(c, RefreshTimer(c, s))
    case Exit(f) => Exit(f)
    case Ok(s1) => Schedule(c, s1)
  }

  /** Power states, one read answered, and the counters of the next cycle. */
  function Close(c: Config, s: Sys): (r: Result<Sys>)
    requires c.Sensible() && Shape(c, s)
    ensures r.Ok? ==> Shape(c, r.value)
  {
    match PowerRanks(c, s, 0)
    case Exit(f) => Exit(f)
    case Ok(s1) =>
      match ReturnRead(c, s1)
      case Exit(f) => Exit(f)
      case Ok(s2) => Ok(EndCycle(c, s2))
  }

  function Step(c: Config, s: Sys): (r: Result<Sys>)
    requires c.Sensible() && Shape(c, s)
    ensures r.Ok? ==> Shape(c, r.value)
  {
    match Arrive(c, s)
    case Exit(f) => Exit(f)
    case Ok(s1) =>
      match MoveBuses(c, s1)
      case Exit(f) => Exit(f)
      case Ok(s2) =>
        match Command(c, s2)
        case Exit(f) => Exit(f)
        case Ok(s3) => Close(c, s3)
  }

  /** What the outside does: it submits requests, offers them to the controller directly, or lets a cycle pass. */
  datatype Op = Request(t: Transaction) | Direct(t: Transaction) | Cycle

  predicate ValidOp(c: Config, op: Op) { op.Cycle? || Placed(c, op.t) }

  function Do(c: Config, s: Sys, op: Op): (r: Result<Sys>)
    requires c.Sensible() && Shape(c, s) && ValidOp(c, op)
    ensures r.Ok? ==> Shape(c, r.value)
  {
    match op
    case Request(t) => Ok(Submit(c, s, t))
    case Direct(t) => Ok(Offer(c, s, t))
    case Cycle => Step(c, s)
  }

  function Run(c: Config, s: Sys, ops: seq<Op>): (r: Result<Sys>)
    requires c.Sensible() && Shape(c, s) && forall i :: 0 <= i < |ops| ==> ValidOp(c, ops[i])
    ensures r.Ok? ==> Shape(c, r.value)
    decreases |ops|
  {
    if ops == [] then Ok(s)
    else
      match Do(c, s, ops[0])
      case Exit(f) => Exit(f)
      case Ok(s1) => Run(c, s1, ops[1..])
  }

  /** The system as it is built. */
  ghost predicate Initial(c: Config, s: Sys) {
    && Shape(c, s) && InitialQueue(c, s.queue)
    && s.now == 0
    && (forall i, j :: 0 <= i < c.ranks && 0 <= j < c.banks ==> s.table[i][j] == FreshBank)
    && (forall i :: 0 <= i < c.ranks ==> s.ranks[i] == FreshRank(c) && !s.powerDown[i])
    && s.cmdBus.None? && s.dataBus.None? && s.writes == [] && s.refreshRank == 0
    && s.transactions == [] && s.pendingReads == [] && s.returned == [] && s.waiting == []
    && s.history == History([], [], [], [])
  }
}
