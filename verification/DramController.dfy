/**
 The memory controller and the memory system as the simulator runs them: objects that update their
 vectors in place, phase by phase, and refine the state machine of one step.  A rank hands its read
 data back as a result instead of calling the controller.
*/
module DramController {
  import opened Wrappers
  import opened DramTypes
  import opened DramBank
  import opened DramQueue
  import opened DramRank
  import opened DramSystem
  import opened DramCommandQueue

  class MemoryController {
    const c: Config
    const ranks: seq<Rank>
    const commandQueue: CommandQueue
    var bankStates: Table
    var outgoingCmdPacket: Option<Packet>
    var cmdCyclesLeft: nat
    var outgoingDataPacket: Option<Packet>
    var dataCyclesLeft: nat
    var writeData: seq<Return>
    var refreshCountdown: seq<nat>
    var refreshRank: nat
    var transactionQueue: seq<Transaction>
    var pendingReadTransactions: seq<Transaction>
    var returnTransaction: seq<nat>
    var powerDown: seq<bool>
    var currentClockCycle: nat
    var history: History

    /** The objects of the system belong together, and their clocks agree. */
    ghost predicate Wired() reads this, commandQueue, ranks {
      Linked(currentClockCycle)
    }

    /** The same while the queue's clock shows another cycle than the others. */
    ghost predicate Linked(queueClock: nat) reads this, commandQueue, ranks {
      && c.Sensible() && |ranks| == c.ranks && commandQueue.c == c && commandQueue.currentClockCycle == queueClock
      && (forall i, j :: 0 <= i < j < |ranks| ==> ranks[i] != ranks[j])
      && (forall i :: 0 <= i < |ranks| ==> ranks[i].c == c && ranks[i].currentClockCycle == currentClockCycle)
    }

    function RankStates(): (r: seq<RankState>)
      reads ranks
      ensures |r| == |ranks| && forall i :: 0 <= i < |ranks| ==> r[i] == ranks[i].State()
    {
      seq(|ranks|, i requires 0 <= i < |ranks| reads ranks => ranks[i].State())
    }

    /** The state of the whole system, given the requests that wait at the memory system. */
    function State(waiting: seq<Transaction>): Sys reads this, commandQueue, ranks {
      Sys(currentClockCycle, bankStates, commandQueue.State(), RankStates(),
          outgoingCmdPacket, cmdCyclesLeft, outgoingDataPacket, dataCyclesLeft,
          writeData, refreshCountdown, refreshRank, transactionQueue, pendingReadTransactions, returnTransaction,
          powerDown, waiting, history)
    }

    ghost predicate Valid(waiting: seq<Transaction>) reads this, commandQueue, ranks {
      Wired() && Shape(c, State(waiting))
    }

    /** The controller of ranks that are all new; the refresh counters start at staggered values. */
    constructor (c: Config, ranks: seq<Rank>, firstRefresh: seq<nat>)
      requires c.Sensible() && |ranks| == |firstRefresh| == c.ranks
      requires forall i, j :: 0 <= i < j < |ranks| ==> ranks[i] != ranks[j]
      requires forall i :: 0 <= i < |ranks| ==>
        ranks[i].c == c && ranks[i].currentClockCycle == 0 && ranks[i].State() == FreshRank(c)
      ensures this.c == c && this.ranks == ranks && fresh(commandQueue) && Valid([]) && Initial(c, State([]))
      ensures refreshCountdown == firstRefresh
    {
      this.c, this.ranks := c, ranks;
      commandQueue := new CommandQueue(c);
      bankStates := seq(c.ranks, i => seq(c.banks, j => FreshBank));
      outgoingCmdPacket, cmdCyclesLeft, outgoingDataPacket, dataCyclesLeft := None, 0, None, 0;
      writeData, refreshCountdown, refreshRank := [], firstRefresh, 0;
      transactionQueue, pendingReadTransactions, returnTransaction := [], [], [];
      powerDown, currentClockCycle, history := seq(c.ranks, i => false), 0, History([], [], [], []);
    }

    method AddTransaction(t: Transaction, ghost waiting: seq<Transaction>) returns (accepted: bool)
      requires Valid(waiting) && Placed(c, t)
      modifies this`transactionQueue, this`history
      ensures Valid(waiting) && State(waiting) == Offer(c, old(State(waiting)), t) &&
        accepted == WillAccept(c, old(State(waiting)))
    {
      if |transactionQueue| < c.transQueueDepth {
        transactionQueue := transactionQueue + [t];
        history := history.(accepted := history.accepted + [t]);
        return true;
      }
      return false;
    }

    /** Read data that a rank has sent. */
    method ReceiveFromBus(p: Packet) returns (r: Result<()>)
      modifies this`returnTransaction
      ensures r == (if p.kind.Data? then Ok(()) else Exit(NotData))
      ensures returnTransaction == if p.kind.Data? then old(returnTransaction) + [p.addr] else old(returnTransaction)
    {
      if !p.kind.Data? {
        return Exit(NotData);
      }
      returnTransaction := returnTransaction + [p.addr];
      return Ok(());
    }

    /** One cycle of bank j of rank i. */
    method CountDownBank(i: nat, j: nat)
      requires TableShape(c, bankStates) && i < c.ranks && j < c.banks
      modifies this`bankStates
      ensures bankStates == Put(old(bankStates), i, j, Tick(c, old(bankStates)[i][j]))
    {
      var m := bankStates[i][j];
      if m.countdown > 0 {
        m := m.(countdown := m.countdown - 1);
        if m.countdown == 0 {
          match m.lastCommand {
            case WriteP => m := m.(mode := Precharging, lastCommand := Precharge, countdown := c.tRP);
            case ReadP => m := m.(mode := Precharging, lastCommand := Precharge, countdown := c.tRP);
            case Refresh => m := m.(mode := Idle);
            case Precharge => m := m.(mode := Idle);
            case _ =>
          }
        }
      }
      bankStates := Put(bankStates, i, j, m);
    }

    /** The countdowns of all banks. */
    method CountDownBanks(ghost waiting: seq<Transaction>)
      requires Valid(waiting)
      modifies this`bankStates
      ensures Valid(waiting) && State(waiting) == CountDown(c, old(State(waiting)))
    {
      hide Tick, QueueShape;
      ghost var before := bankStates;
      for i := 0 to c.ranks
        invariant TableShape(c, bankStates)
        invariant forall r, j :: 0 <= r < i && 0 <= j < c.banks ==> bankStates[r][j] == Tick(c, before[r][j])
        invariant forall r, j :: i <= r < c.ranks && 0 <= j < c.banks ==> bankStates[r][j] == before[r][j]
      {
        for j := 0 to c.banks
          invariant TableShape(c, bankStates)
          invariant forall r, k :: 0 <= r < i && 0 <= k < c.banks ==> bankStates[r][k] == Tick(c, before[r][k])
          invariant forall k :: 0 <= k < j ==> bankStates[i][k] == Tick(c, before[i][k])
          invariant forall k :: j <= k < c.banks ==> bankStates[i][k] == before[i][k]
          invariant forall r, k :: i < r < c.ranks && 0 <= k < c.banks ==> bankStates[r][k] == before[r][k]
        {
          CountDownBank(i, j);
        }
      }
      SameTable(c, bankStates, TickTable(c, before));
    }

    /** A packet reaches its rank. */
    method Deliver(p: Packet, ghost waiting: seq<Transaction>) returns (r: Result<()>)
      requires Wired() && p.rank < c.ranks
      modifies ranks
      ensures match Receive(c, old(ranks[p.rank].State()), p, currentClockCycle)
              case Exit(f) => r == Exit(f)
              case Ok(rank) =>
                r.Ok? && Wired() && State(waiting) == old(State(waiting)).(ranks := old(RankStates())[p.rank := rank])
    {
      hide Receive, Config.Sensible;
      ghost var before := RankStates();
      r := ranks[p.rank].ReceiveFromBus(p);
      if r.Exit? {
        return;
      }
      assert RankStates() == before[p.rank := ranks[p.rank].State()];
    }

    /** The command on the bus reaches its rank once its time is over. */
    method MoveCommandBus(ghost waiting: seq<Transaction>) returns (r: Result<()>)
      requires Valid(waiting)
      modifies this, ranks
      ensures match DeliverCommand(c, old(State(waiting)))
              case Ok(s) => r.Ok? && Valid(waiting) && State(waiting) == s
              case Exit(f) => r == Exit(f)
    {
      hide Shape, DeliverCommand, Receive, Config.Sensible;
      DeliverCases(c, State(waiting));
      if outgoingCmdPacket.Some? {
        cmdCyclesLeft := Dec32(cmdCyclesLeft);
        if cmdCyclesLeft == 0 {
          var p := outgoingCmdPacket.value;
          outgoingCmdPacket := None;
          r := Deliver(p, waiting);
          return;
        }
      }
      return Ok(());
    }

    /** The write data on the bus reaches its rank once its time is over. */
    method MoveDataBus(ghost waiting: seq<Transaction>) returns (r: Result<()>)
      requires Valid(waiting)
      modifies this, ranks
      ensures match DeliverData(c, old(State(waiting)))
              case Ok(s) => r.Ok? && Valid(waiting) && State(waiting) == s
              case Exit(f) => r == Exit(f)
    {
      hide Shape, DeliverData, Receive, Config.Sensible;
      DeliverCases(c, State(waiting));
      if outgoingDataPacket.Some? {
        dataCyclesLeft := Dec32(dataCyclesLeft);
        if dataCyclesLeft == 0 {
          var p := outgoingDataPacket.value;
          outgoingDataPacket := None;
          r := Deliver(p, waiting);
          return;
        }
      }
      return Ok(());
    }

    /** Write data whose latency is over goes on the bus. */
    method SendWriteData(ghost waiting: seq<Transaction>) returns (r: Result<()>)
      requires Valid(waiting)
      modifies this
      ensures match SendData(c, old(State(waiting)))
              case Ok(s) => r.Ok? && Valid(waiting) && State(waiting) == s
              case Exit(f) => r == Exit(f)
    {
      hide Shape, SendData, CountReturns;
      ghost var s := State(waiting);
      SendCases(c, s);
      CountWriteData();
      if |writeData| > 0 && writeData[0].left == 0 {
        if outgoingDataPacket.Some? {
          return Exit(DataBusCollision);
        }
        outgoingDataPacket := Some(writeData[0].packet);
        dataCyclesLeft := c.Burst();
        history := history.(writeData := history.writeData + [Event(writeData[0].packet, currentClockCycle)]);
        writeData := writeData[1..];
      }
      assert SendData(c, s) == Ok(State(waiting));
      return Ok(());
    }

    method CountWriteData()
      modifies this`writeData
      ensures writeData == CountReturns(old(writeData))
    {
      ghost var before := writeData;
      for i := 0 to |writeData|
        invariant |writeData| == |before|
        invariant forall j :: 0 <= j < i ==> writeData[j] == before[j].(left := Dec32(before[j].left))
        invariant forall j :: i <= j < |before| ==> writeData[j] == before[j]
      {
        writeData := writeData[i := writeData[i].(left := Dec32(writeData[i].left))];
      }
      assert writeData == CountReturns(before);
    }

    /** Tells rank r that a refresh is waiting. */
    method MarkRefreshWaiting(r: nat)
      requires Wired() && r < c.ranks
      modifies ranks[r]
      ensures Wired() && RankStates() == old(RankStates())[r := old(RankStates())[r].(refreshWaiting := true)]
    {
      ranks[r].refreshWaiting := true;
    }

    /** Asks the command queue for a refresh of rank r. */
    method AskForRefresh(r: nat, ghost waiting: seq<Transaction>)
      requires Wired() && r < c.ranks
      modifies commandQueue, ranks
      ensures Wired()
      ensures State(waiting) == old(State(waiting)).(
        queue := old(commandQueue.State()).(refreshWaiting := true, refreshRank := r),
        ranks := old(RankStates())[r := old(RankStates())[r].(refreshWaiting := true)])
    {
      hide Config.Sensible;
      commandQueue.NeedRefresh(r);
      MarkRefreshWaiting(r);
    }

    /** Asks for the refresh that is due, and moves on to the next rank. */
    method RequestRefresh(ghost waiting: seq<Transaction>)
      requires Valid(waiting) && refreshCountdown[refreshRank] == 0
      modifies this, commandQueue, ranks
      ensures Valid(waiting) && State(waiting) == RefreshTimer(c, old(State(waiting)))
    {
      hide Shape, RefreshTimer, Config.Sensible;
      RefreshCases(c, State(waiting));
      var r := refreshRank;
      AskForRefresh(r, waiting);
      NextRefresh(r, waiting);
    }

    /** The counter of rank r starts again, and the next rank is watched. */
    method NextRefresh(r: nat, ghost waiting: seq<Transaction>)
      requires Wired() && r == refreshRank < |refreshCountdown|
      modifies this`refreshCountdown, this`refreshRank
      ensures Wired()
      ensures State(waiting) == old(State(waiting)).(refreshCountdown := old(refreshCountdown)[r := c.refreshCycles],
                                                     refreshRank := if r + 1 == c.ranks then 0 else r + 1)
    {
      hide Config.Sensible;
      refreshCountdown := refreshCountdown[r := c.refreshCycles];
      refreshRank := if refreshRank + 1 == c.ranks then 0 else refreshRank + 1;
    }

    /** The refresh that is due is asked for, and a sleeping rank is woken in time. */
    method CheckRefresh(ghost waiting: seq<Transaction>)
      requires Valid(waiting)
      modifies this, commandQueue, ranks
      ensures Valid(waiting) && State(waiting) == RefreshTimer(c, old(State(waiting)))
    {
      hide Shape, RefreshTimer;
      RefreshCases(c, State(waiting));
      if refreshCountdown[refreshRank] == 0 {
        RequestRefresh(waiting);
      } else if powerDown[refreshRank] && refreshCountdown[refreshRank] <= c.tXP {
        MarkRefreshWaiting(refreshRank);
        assert State(waiting) == RefreshTimer(c, old(State(waiting)));
      }
    }

    /** Pushes the column times of the addressed rank back, and those of open rows in the other ranks. */
    method DelayColumns(rank: nat, read: nat, write: nat, otherRead: nat, otherWrite: nat)
      requires TableShape(c, bankStates)
      modifies this`bankStates
      ensures TableShape(c, bankStates)
      ensures forall r, j :: 0 <= r < c.ranks && 0 <= j < c.banks ==>
        bankStates[r][j] == Delayed(old(bankStates[r][j]), r == rank, read, write, otherRead, otherWrite)
    {
      ghost var before := bankStates;
      for i := 0 to c.ranks
        invariant TableShape(c, bankStates)
        invariant forall r, j :: 0 <= r < i && 0 <= j < c.banks ==>
          bankStates[r][j] == Delayed(before[r][j], r == rank, read, write, otherRead, otherWrite)
        invariant forall r, j :: i <= r < c.ranks && 0 <= j < c.banks ==> bankStates[r][j] == before[r][j]
      {
        for j := 0 to c.banks
          invariant TableShape(c, bankStates)
          invariant forall r, k :: 0 <= r < i && 0 <= k < c.banks ==>
            bankStates[r][k] == Delayed(before[r][k], r == rank, read, write, otherRead, otherWrite)
          invariant forall k :: 0 <= k < j ==>
            bankStates[i][k] == Delayed(before[i][k], i == rank, read, write, otherRead, otherWrite)
          invariant forall k :: j <= k < c.banks ==> bankStates[i][k] == before[i][k]
          invariant forall r, k :: i < r < c.ranks && 0 <= k < c.banks ==> bankStates[r][k] == before[r][k]
        {
          var m := bankStates[i][j];
          if i != rank {
            if m.mode.RowActive? {
              bankStates := Put(bankStates, i, j,
                  m.(nextRead := Max(otherRead, m.nextRead), nextWrite := Max(otherWrite, m.nextWrite)));
            }
          } else {
            bankStates := Put(bankStates, i, j,
                m.(nextRead := Max(read, m.nextRead), nextWrite := Max(write, m.nextWrite)));
          }
        }
      }
    }

    method ChangeBank(r: nat, b: nat, m: Bank)
      requires TableShape(c, bankStates) && r < c.ranks && b < c.banks
      modifies this`bankStates
      ensures TableShape(c, bankStates)
      ensures forall i, j :: 0 <= i < c.ranks && 0 <= j < c.banks ==>
        bankStates[i][j] == if i == r && j == b then m else old(bankStates[i][j])
    {
      bankStates := Put(bankStates, r, b, m);
    }

    /** What a popped read does to the bank states. */
    method IssueRead(p: Packet)
      requires c.Sensible() && TableShape(c, bankStates) && p.rank < c.ranks && p.bank < c.banks && p.kind.IsRead()
      modifies this`bankStates
      ensures bankStates == IssueTable(c, old(bankStates), p, currentClockCycle)
    {
      ghost var before := bankStates;
      var r, b, now := p.rank, p.bank, currentClockCycle;
      ChangeBank(r, b, IssueReadHere(c, bankStates[r][b], p, now));
      DelayColumns(r, now + c.ColumnGap(), now + c.ReadToWrite(), now + c.Burst() + c.tRTRS, now + c.ReadToWrite());
      if p.kind.ReadP? {
        var m := bankStates[r][b];
        ChangeBank(r, b, m.(nextRead := m.nextActivate, nextWrite := m.nextActivate));
      }
      SameTable(c, bankStates, IssueTable(c, before, p, now));
    }

    /** The same for a write. */
    method IssueWrite(p: Packet)
      requires c.Sensible() && TableShape(c, bankStates) && p.rank < c.ranks && p.bank < c.banks && p.kind.IsWrite()
      modifies this`bankStates
      ensures bankStates == IssueTable(c, old(bankStates), p, currentClockCycle)
    {
      ghost var before := bankStates;
      var r, b, now := p.rank, p.bank, currentClockCycle;
      ChangeBank(r, b, IssueWriteHere(c, bankStates[r][b], p, now));
      DelayColumns(r, now + c.WriteToReadSame(), now + c.ColumnGap(), now + c.WriteToReadOther(),
          now + c.Burst() + c.tRTRS);
      if p.kind.WriteP? {
        var m := bankStates[r][b];
        ChangeBank(r, b, m.(nextRead := m.nextActivate, nextWrite := m.nextActivate));
      }
      SameTable(c, bankStates, IssueTable(c, before, p, now));
    }

    /** What a popped activate does to the bank states. */
    method IssueActivate(p: Packet)
      requires c.Sensible() && TableShape(c, bankStates) && p.rank < c.ranks && p.bank < c.banks && p.kind.Activate?
      modifies this`bankStates
      ensures bankStates == IssueTable(c, old(bankStates), p, currentClockCycle)
    {
      ghost var before := bankStates;
      var r, b, now := p.rank, p.bank, currentClockCycle;
      var m := bankStates[r][b];
      ChangeBank(r, b, m.(mode := RowActive, lastCommand := Activate, openRow := p.row,
        nextActivate := Max(now + c.tRC, m.nextActivate), nextPrecharge := Max(now + c.tRAS, m.nextPrecharge),
        nextRead := Max(now + (c.tRCD - c.AL), m.nextRead), nextWrite := Max(now + (c.tRCD - c.AL), m.nextWrite)));
      for i := 0 to c.banks
        invariant TableShape(c, bankStates)
        invariant forall k, j :: 0 <= k < c.ranks && 0 <= j < c.banks && (k != r || j < i || j == b) ==>
          bankStates[k][j] == Issue(c, before[k][j], k, j, p, now)
        invariant forall j :: i <= j < c.banks && j != b ==> bankStates[r][j] == before[r][j]
      {
        if i != b {
          ChangeBank(r, i, bankStates[r][i].(nextActivate := Max(now + c.tRRD, bankStates[r][i].nextActivate)));
        }
      }
      SameTable(c, bankStates, IssueTable(c, before, p, now));
    }

    /** What a popped precharge does to the bank states. */
    method IssuePrecharge(p: Packet)
      requires c.Sensible() && TableShape(c, bankStates) && p.rank < c.ranks && p.bank < c.banks && p.kind.Precharge?
      modifies this`bankStates
      ensures bankStates == IssueTable(c, old(bankStates), p, currentClockCycle)
    {
      ghost var before := bankStates;
      var m := bankStates[p.rank][p.bank];
      ChangeBank(p.rank, p.bank, m.(mode := Precharging, lastCommand := Precharge, countdown := c.tRP,
        nextActivate := Max(currentClockCycle + c.tRP, m.nextActivate)));
      SameTable(c, bankStates, IssueTable(c, before, p, currentClockCycle));
    }

    /** What a popped refresh does to the bank states. */
    method IssueRefresh(p: Packet)
      requires c.Sensible() && TableShape(c, bankStates) && p.rank < c.ranks && p.kind.Refresh?
      modifies this`bankStates
      ensures bankStates == IssueTable(c, old(bankStates), p, currentClockCycle)
    {
      ghost var before := bankStates;
      var r, now := p.rank, currentClockCycle;
      for i := 0 to c.banks
        invariant TableShape(c, bankStates)
        invariant forall k, j :: 0 <= k < c.ranks && 0 <= j < c.banks && (k != r || j < i) ==>
          bankStates[k][j] == Issue(c, before[k][j], k, j, p, now)
        invariant forall j :: i <= j < c.banks ==> bankStates[r][j] == before[r][j]
      {
        ChangeBank(r, i, bankStates[r][i].(nextActivate := now + c.tRFC, mode := Refreshing, lastCommand := Refresh,
            countdown := c.tRFC));
      }
      SameTable(c, bankStates, IssueTable(c, before, p, now));
    }

    /** What a popped command does to the bank states and to the write data that is to follow. */
    method ApplyCommand(p: Packet)
      requires c.Sensible() && TableShape(c, bankStates) && p.rank < c.ranks && p.bank < c.banks && !p.kind.Data?
      modifies this`bankStates, this`writeData
      ensures bankStates == IssueTable(c, old(bankStates), p, currentClockCycle)
      ensures writeData == if p.kind.IsWrite() then old(writeData) + [Return(p.(kind := Data), c.WL())]
        else old(writeData)
    {
      hide IssueTable, Issue;
      if p.kind.IsWrite() {
        writeData := writeData + [Return(p.(kind := Data), c.WL())];
      }
      match p.kind {
        case Read | ReadP => IssueRead(p);
        case Write | WriteP => IssueWrite(p);
        case Activate => IssueActivate(p);
        case Precharge => IssuePrecharge(p);
        case Refresh => IssueRefresh(p);
      }
    }

    /** Pops the next command, updates the bank states for it and puts it on the command bus. */
    method IssueCommand(ghost waiting: seq<Transaction>) returns (r: Result<()>)
      requires Valid(waiting)
      modifies this, commandQueue
      ensures match IssueNext(c, old(State(waiting)))
              case Ok(s) => r.Ok? && Valid(waiting) && State(waiting) == s
              case Exit(f) => r == Exit(f)
    {
      hide Shape, IssueNext, DramQueue.Pop, QueueShape, IssueTable, Config.Sensible, TableShape;
      ghost var s := State(waiting);
      IssueCases(c, s);
      var popped := commandQueue.Pop(bankStates);
      if popped.Some? {
        var p := popped.value;
        ApplyCommand(p);
        if outgoingCmdPacket.Some? {
          return Exit(CommandBusCollision);
        }
        outgoingCmdPacket := popped;
        cmdCyclesLeft := c.tCMD;
        history := history.(issued := history.issued + [Event(p, currentClockCycle)]);
      }
      assert IssueNext(c, s) == Ok(State(waiting));
      return Ok(());
    }

    /** Searches for the first transaction whose command queue has room for its two commands. */
    method FindSchedulable(ghost waiting: seq<Transaction>) returns (n: nat)
      requires Valid(waiting)
      ensures n == FirstSchedulable(c, State(waiting), 0)
    {
      hide Shape, FirstSchedulable, HasRoom, Config.Sensible, QueueShape, TableShape;
      ghost var s := State(waiting);
      ShapeFacts(c, s);
      n := 0;
      while n < |transactionQueue|
        invariant n <= |transactionQueue| && FirstSchedulable(c, s, 0) == FirstSchedulable(c, s, n)
      {
        FirstSchedulableNext(c, s, n);
        var t := transactionQueue[n];
        var room := commandQueue.HasRoomFor(2, t.rank, t.bank);
        if room {
          return;
        }
        n := n + 1;
      }
      FirstSchedulableNext(c, s, n);
    }

    /** Queues the two commands of transaction t. */
    method EnqueuePair(t: Transaction) returns (r: Result<()>)
      requires c.Sensible() && commandQueue.c == c && QueueShape(c, commandQueue.State()) && Placed(c, t)
      modifies commandQueue
      ensures match EnqueueBoth(c, old(commandQueue.State()), t)
              case Ok(q) => r.Ok? && commandQueue.State() == q
              case Exit(f) => r == Exit(f)
      ensures commandQueue.currentClockCycle == old(commandQueue.currentClockCycle)
    {
      hide QueueShape, DramQueue.Enqueue, Config.Sensible;
      ghost var q := commandQueue.State();
      EnqueueCases(c, q, t);
      r := commandQueue.Enqueue(ActivateFor(t));
      if r.Exit? {
        return;
      }
      r := commandQueue.Enqueue(ColumnFor(c, t));
    }

    /** Transaction i leaves its queue and becomes two commands; a read is remembered until it is answered. */
    method ScheduleAt(i: nat, ghost waiting: seq<Transaction>) returns (r: Result<()>)
      requires Valid(waiting) && i < |transactionQueue|
      modifies this, commandQueue
      ensures match EnqueueBoth(c, old(commandQueue.State()), old(transactionQueue[i]))
              case Exit(f) => r == Exit(f)
              case Ok(q) => r.Ok? && Wired() && State(waiting) == Scheduled(old(State(waiting)), q, i)
    {
      hide Shape, EnqueueBoth, Config.Sensible, QueueShape, TableShape;
      ShapeFacts(c, State(waiting));
      var t := transactionQueue[i];
      transactionQueue := transactionQueue[..i] + transactionQueue[i + 1..];
      r := EnqueuePair(t);
      if r.Exit? {
        return;
      }
      if t.isRead {
        pendingReadTransactions := pendingReadTransactions + [t];
      }
    }

    /** Turns at most one transaction into commands. */
    method ScheduleTransaction(ghost waiting: seq<Transaction>) returns (r: Result<()>)
      requires Valid(waiting)
      modifies this, commandQueue
      ensures match DramSystem.Schedule(c, old(State(waiting)))
              case Ok(s) => r.Ok? && Valid(waiting) && State(waiting) == s
              case Exit(f) => r == Exit(f)
    {
      hide Shape, DramSystem.Schedule, FirstSchedulable, EnqueueBoth, Config.Sensible;
      ghost var s := State(waiting);
      ScheduleCases(c, s);
      var i := FindSchedulable(waiting);
      if i == |transactionQueue| {
        return Ok(());
      }
      r := ScheduleAt(i, waiting);
    }

    method AllIdle(i: nat) returns (idle: bool)
      requires TableShape(c, bankStates) && i < c.ranks
      ensures idle == forall j :: 0 <= j < c.banks ==> bankStates[i][j].mode.Idle?
    {
      for j := 0 to c.banks
        invariant forall k :: 0 <= k < j ==> bankStates[i][k].mode.Idle?
      {
        if !bankStates[i][j].mode.Idle? {
          return false;
        }
      }
      return true;
    }

    method MarkAsleep(i: nat)
      requires TableShape(c, bankStates) && i < c.ranks
      modifies this`bankStates
      ensures bankStates == SetRow(c, old(bankStates), i, SleepBanks(c, old(bankStates)[i], currentClockCycle))
    {
      ghost var before := bankStates;
      for j := 0 to c.banks
        invariant TableShape(c, bankStates)
        invariant forall k :: 0 <= k < j ==> bankStates[i][k] == EnterPowerDown(c, before[i][k], currentClockCycle)
        invariant forall k :: j <= k < c.banks ==> bankStates[i][k] == before[i][k]
        invariant forall r, k :: 0 <= r < c.ranks && r != i && 0 <= k < c.banks ==> bankStates[r][k] == before[r][k]
      {
        ChangeBank(i, j, bankStates[i][j].(mode := PowerDown, nextPowerUp := currentClockCycle + c.tCKE));
      }
      SameTable(c, bankStates, SetRow(c, before, i, SleepBanks(c, before[i], currentClockCycle)));
    }

    method MarkAwake(i: nat)
      requires TableShape(c, bankStates) && i < c.ranks
      modifies this`bankStates
      ensures bankStates == SetRow(c, old(bankStates), i, WakeBanks(c, old(bankStates)[i], currentClockCycle))
    {
      ghost var before := bankStates;
      for j := 0 to c.banks
        invariant TableShape(c, bankStates)
        invariant forall k :: 0 <= k < j ==> bankStates[i][k] == LeavePowerDown(c, before[i][k], currentClockCycle)
        invariant forall k :: j <= k < c.banks ==> bankStates[i][k] == before[i][k]
        invariant forall r, k :: 0 <= r < c.ranks && r != i && 0 <= k < c.banks ==> bankStates[r][k] == before[r][k]
      {
        ChangeBank(i, j, bankStates[i][j].(mode := Idle, nextActivate := currentClockCycle + c.tXP));
      }
      SameTable(c, bankStates, SetRow(c, before, i, WakeBanks(c, before[i], currentClockCycle)));
    }

    /** Rank i and the controller's table for it go to sleep. */
    method PutToSleep(i: nat, ghost waiting: seq<Transaction>) returns (r: Result<()>)
      requires Wired() && TableShape(c, bankStates) && i < c.ranks == |powerDown|
      modifies this, ranks
      ensures match Sleep(c, old(ranks[i].State()), old(currentClockCycle))
              case Exit(f) => r == Exit(f)
              case Ok(rank) => r.Ok? && Wired() && State(waiting) == Slept(c, old(State(waiting)), i, rank)
    {
      hide TableShape, Sleep, SleepBanks, SetRow, Config.Sensible;
      ghost var before := RankStates();
      powerDown := powerDown[i := true];
      r := ranks[i].PowerDown();
      if r.Exit? {
        return;
      }
      assert RankStates() == before[i := ranks[i].State()];
      MarkAsleep(i);
    }

    /** Rank i and the controller's table for it wake up. */
    method WakeUp(i: nat, ghost waiting: seq<Transaction>) returns (r: Result<()>)
      requires Wired() && TableShape(c, bankStates) && i < c.ranks == |powerDown|
      modifies this, ranks
      ensures match Wake(c, old(ranks[i].State()), old(currentClockCycle))
              case Exit(f) => r == Exit(f)
              case Ok(rank) => r.Ok? && Wired() && State(waiting) == Woken(c, old(State(waiting)), i, rank)
    {
      hide TableShape, Wake, WakeBanks, SetRow, Config.Sensible;
      ghost var before := RankStates();
      powerDown := powerDown[i := false];
      r := ranks[i].PowerUp();
      if r.Exit? {
        return;
      }
      assert RankStates() == before[i := ranks[i].State()];
      MarkAwake(i);
    }

    /** Lets rank i sleep when it has nothing to do, and wakes it when it has. */
    method CheckPower(i: nat, ghost waiting: seq<Transaction>) returns (r: Result<()>)
      requires Valid(waiting) && i < c.ranks
      modifies this, ranks
      ensures match PowerRank(c, old(State(waiting)), i)
              case Ok(s) => r.Ok? && Valid(waiting) && State(waiting) == s
              case Exit(f) => r == Exit(f)
    {
      hide Shape, PowerRank, Sleep, Wake, SleepBanks, WakeBanks, SetRow, Config.Sensible, QueueShape, Empty;
      ghost var s := State(waiting);
      ShapeFacts(c, s);
      PowerCases(c, s, i);
      var empty := commandQueue.IsEmpty(i);
      if empty && !ranks[i].refreshWaiting {
        var idle := AllIdle(i);
        if idle {
          r := PutToSleep(i, waiting);
          return;
        }
      } else if currentClockCycle >= bankStates[i][0].nextPowerUp && powerDown[i] {
        r := WakeUp(i, waiting);
        return;
      }
      return Ok(());
    }

    /** Goes through all ranks when the low power mode is on. */
    method CheckPowers(ghost waiting: seq<Transaction>) returns (r: Result<()>)
      requires Valid(waiting)
      modifies this, ranks
      ensures match PowerRanks(c, old(State(waiting)), 0)
              case Ok(s) => r.Ok? && Valid(waiting) && State(waiting) == s
              case Exit(f) => r == Exit(f)
    {
      hide Shape, PowerRank, PowerRanks, Config.Sensible;
      ghost var s := State(waiting);
      for i := 0 to c.ranks
        invariant Valid(waiting) && PowerRanks(c, s, 0) == PowerRanks(c, State(waiting), i)
      {
        ghost var here := State(waiting);
        PowerRanksNext(c, here, i);
        if c.lowPower {
          r := CheckPower(i, waiting);
          if r.Exit? {
            return;
          }
        } else {
          PowerRanksNext(c, here, i + 1);
        }
      }
      PowerRanksNext(c, State(waiting), c.ranks);
      return Ok(());
    }

    /** Searches for the read that waits for address a. */
    method FindPendingRead(a: nat) returns (n: nat)
      ensures n == FindPending(pendingReadTransactions, a, 0)
    {
      n := 0;
      while n < |pendingReadTransactions| && pendingReadTransactions[n].addr != a
        invariant n <= |pendingReadTransactions|
        invariant FindPending(pendingReadTransactions, a, 0) == FindPending(pendingReadTransactions, a, n)
      {
        n := n + 1;
      }
    }

    /** Answers one read whose data has come back. */
    method ReturnReadData(ghost waiting: seq<Transaction>) returns (r: Result<()>)
      requires Valid(waiting)
      modifies this
      ensures match ReturnRead(c, old(State(waiting)))
              case Ok(s) => r.Ok? && Valid(waiting) && State(waiting) == s
              case Exit(f) => r == Exit(f)
    {
      hide Shape, ReturnRead, FindPending, Config.Sensible;
      ghost var s := State(waiting);
      ReturnCases(c, s);
      if |returnTransaction| > 0 {
        var n := FindPendingRead(returnTransaction[0]);
        if n == |pendingReadTransactions| {
          return Exit(NoMatchingRead);
        }
        history := history.(answered := history.answered + [pendingReadTransactions[n].addr]);
        pendingReadTransactions := pendingReadTransactions[..n] + pendingReadTransactions[n + 1..];
        returnTransaction := returnTransaction[1..];
      }
      assert ReturnRead(c, s) == Ok(State(waiting));
      return Ok(());
    }

    method CountDownRefreshes()
      modifies this`refreshCountdown
      ensures refreshCountdown == CountRefresh(old(refreshCountdown))
    {
      ghost var before := refreshCountdown;
      for i := 0 to |refreshCountdown|
        invariant |refreshCountdown| == |before|
        invariant forall j :: 0 <= j < i ==> refreshCountdown[j] == Dec32(before[j])
        invariant forall j :: i <= j < |before| ==> refreshCountdown[j] == before[j]
      {
        refreshCountdown := refreshCountdown[i := Dec32(refreshCountdown[i])];
      }
      assert refreshCountdown == CountRefresh(before);
    }

    /** The first part of update: the banks count down and the buses move on. */
    method UpdateBuses(ghost waiting: seq<Transaction>) returns (r: Result<()>)
      requires Valid(waiting)
      modifies this, ranks
      ensures match MoveBuses(c, CountDown(c, old(State(waiting))))
              case Ok(s) => r.Ok? && Valid(waiting) && State(waiting) == s
              case Exit(f) => r == Exit(f)
    {
      hide Shape, CountDown, DeliverCommand, DeliverData, SendData, Config.Sensible;
      CountDownBanks(waiting);
      r := MoveCommandBus(waiting);
      if r.Exit? {
        return;
      }
      r := MoveDataBus(waiting);
      if r.Exit? {
        return;
      }
      r := SendWriteData(waiting);
    }

    /** The second part: refreshes, the next command, and the next transaction. */
    method UpdateCommands(ghost waiting: seq<Transaction>) returns (r: Result<()>)
      requires Valid(waiting)
      modifies this, commandQueue, ranks
      ensures match Command(c, old(State(waiting)))
              case Ok(s) => r.Ok? && Valid(waiting) && State(waiting) == s
              case Exit(f) => r == Exit(f)
    {
      hide Shape, RefreshTimer, IssueNext, DramSystem.Schedule, Config.Sensible;
      CheckRefresh(waiting);
      r := IssueCommand(waiting);
      if r.Exit? {
        return;
      }
      r := ScheduleTransaction(waiting);
    }

    /** The last part: power states, one read answered, the refresh counters, and the queue's clock. */
    method UpdateRest(ghost waiting: seq<Transaction>) returns (r: Result<()>)
      requires Valid(waiting)
      modifies this, commandQueue, ranks
      ensures match Close(c, old(State(waiting)))
              case Ok(s) => r.Ok? && Linked(currentClockCycle + 1) && State(waiting).(now := currentClockCycle + 1) == s
              case Exit(f) => r == Exit(f)
    {
      hide Shape, PowerRanks, ReturnRead, CountRefresh, Config.Sensible;
      ghost var s := State(waiting);
      r := CheckPowers(waiting);
      if r.Exit? {
        return;
      }
      r := ReturnReadData(waiting);
      if r.Exit? {
        return;
      }
      ghost var t := State(waiting);
      CountDownRefreshes();
      commandQueue.Step();
      assert State(waiting).(now := currentClockCycle + 1) == EndCycle(c, t);
    }

    /** One update of the controller; its own clock and those of the ranks are moved on by the memory system. */
    method Update(ghost waiting: seq<Transaction>) returns (r: Result<()>)
      requires Valid(waiting)
      modifies this, commandQueue, ranks
      ensures match UpdateController(c, old(State(waiting)))
              case Ok(s) => r.Ok? && Linked(currentClockCycle + 1) && State(waiting).(now := currentClockCycle + 1) == s
              case Exit(f) => r == Exit(f)
    {
      hide Shape, CountDown, MoveBuses, Command, Close, Config.Sensible;
      r := UpdateBuses(waiting);
      if r.Exit? {
        return;
      }
      r := UpdateCommands(waiting);
      if r.Exit? {
        return;
      }
      r := UpdateRest(waiting);
    }

    method Step()
      modifies this`currentClockCycle
      ensures currentClockCycle == old(currentClockCycle) + 1
    {
      currentClockCycle := currentClockCycle + 1;
    }
  }

  /** A bank's column times pushed back by a column command to this or another rank. */
  function Delayed(m: Bank, here: bool, read: nat, write: nat, otherRead: nat, otherWrite: nat): Bank {
    if here then m.(nextRead := Max(read, m.nextRead), nextWrite := Max(write, m.nextWrite))
    else if m.mode.RowActive? then m.(nextRead := Max(otherRead, m.nextRead), nextWrite := Max(otherWrite, m.nextWrite))
    else m
  }

  /** The command queue never delivers anything but commands, and none to a bank that is not there. */
  lemma PoppedIsCommand(c: Config, q: QueueState, t: Table, now: nat)
    requires c.Sensible() && QueueShape(c, q) && TableShape(c, t) && DramQueue.Pop(c, q, t, now).1.Some?
    ensures var p := DramQueue.Pop(c, q, t, now).1.value; p.rank < c.ranks && p.bank < c.banks && !p.kind.Data?
  {
    var q0 := q.(faw := AgeAll(q.faw));
    var pick := Choose(c, q0, t, now);
    ChoiceValid(c, q0, t, now);
    hide Choose;
    match pick
    case FromQueue(r, b, i) => assert Belongs(c, Line(c, q0, r, b)[i], r, Slot(c, b));
    case LastColumn(b, i) => assert Belongs(c, Line(c, q0, q0.refreshRank, b)[i], q0.refreshRank, Slot(c, b));
    case _ =>
  }

  lemma IssueCases(c: Config, s: Sys)
    requires c.Sensible() && Shape(c, s)
    ensures QueueShape(c, s.queue) && TableShape(c, s.table)
    ensures IssueNext(c, s).Ok? ==> Shape(c, IssueNext(c, s).value)
    ensures var (queue, popped) := DramQueue.Pop(c, s.queue, s.table, s.now);
      && (popped.Some? ==> popped.value.rank < c.ranks && popped.value.bank < c.banks && !popped.value.kind.Data?)
      && (popped.None? ==> IssueNext(c, s) == Ok(s.(queue := queue)))
      && (popped.Some? ==>
           var p := popped.value;
           IssueNext(c, s) ==
             if s.cmdBus.Some? then Exit(CommandBusCollision)
             else Ok(s.(queue := queue,
                        writes := if p.kind.IsWrite() then s.writes + [Return(p.(kind := Data), c.WL())] else s.writes,
                        table := IssueTable(c, s.table, p, s.now), cmdBus := Some(p), cmdLeft := c.tCMD,
                        history := s.history.(issued := s.history.issued + [Event(p, s.now)]))))
  {
    hide DramQueue.Pop, LineShape;
    var popped := DramQueue.Pop(c, s.queue, s.table, s.now).1;
    if popped.Some? {
      PoppedIsCommand(c, s.queue, s.table, s.now);
    }
  }

  lemma DeliverCases(c: Config, s: Sys)
    requires c.Sensible() && Shape(c, s)
    ensures |s.ranks| == c.ranks && (s.cmdBus.Some? ==> s.cmdBus.value.rank < c.ranks) &&
      (s.dataBus.Some? ==> s.dataBus.value.rank < c.ranks)
    ensures DeliverCommand(c, s).Ok? ==> Shape(c, DeliverCommand(c, s).value)
    ensures DeliverData(c, s).Ok? ==> Shape(c, DeliverData(c, s).value)
    ensures DeliverCommand(c, s) ==
      if s.cmdBus.None? then Ok(s)
      else if Dec32(s.cmdLeft) != 0 then Ok(s.(cmdLeft := Dec32(s.cmdLeft)))
      else match Receive(c, s.ranks[s.cmdBus.value.rank], s.cmdBus.value, s.now)
           case Exit(f) => Exit(f)
           case Ok(rank) => Ok(s.(ranks := s.ranks[s.cmdBus.value.rank := rank], cmdBus := None, cmdLeft := 0))
    ensures DeliverData(c, s) ==
      if s.dataBus.None? then Ok(s)
      else if Dec32(s.dataLeft) != 0 then Ok(s.(dataLeft := Dec32(s.dataLeft)))
      else match Receive(c, s.ranks[s.dataBus.value.rank], s.dataBus.value, s.now)
           case Exit(f) => Exit(f)
           case Ok(rank) => Ok(s.(ranks := s.ranks[s.dataBus.value.rank := rank], dataBus := None, dataLeft := 0))
  {
  }

  lemma SendCases(c: Config, s: Sys)
    requires Shape(c, s)
    ensures SendData(c, s).Ok? ==> Shape(c, SendData(c, s).value)
    ensures var ws := CountReturns(s.writes);
      SendData(c, s) ==
        if |ws| > 0 && ws[0].left == 0 then
          if s.dataBus.Some? then Exit(DataBusCollision)
          else Ok(s.(dataBus := Some(ws[0].packet), dataLeft := c.Burst(), writes := ws[1..],
                     history := s.history.(writeData := s.history.writeData + [Event(ws[0].packet, s.now)])))
        else Ok(s.(writes := ws))
  {
  }

  /** The three things the refresh timer may do. */
  lemma RefreshCases(c: Config, s: Sys)
    requires c.Sensible() && Shape(c, s)
    ensures Shape(c, RefreshTimer(c, s))
    ensures |s.ranks| == |s.refreshCountdown| == |s.powerDown| == c.ranks && s.refreshRank < c.ranks
    ensures var r := s.refreshRank; s.refreshCountdown[r] == 0 ==>
      RefreshTimer(c, s) == s.(queue := s.queue.(refreshWaiting := true, refreshRank := r),
         ranks := s.ranks[r := s.ranks[r].(refreshWaiting := true)],
         refreshCountdown := s.refreshCountdown[r := c.refreshCycles],
         refreshRank := if r + 1 == c.ranks then 0 else r + 1)
    ensures var r := s.refreshRank; s.refreshCountdown[r] != 0 && s.powerDown[r] && s.refreshCountdown[r] <= c.tXP ==>
      RefreshTimer(c, s) == s.(ranks := s.ranks[r := s.ranks[r].(refreshWaiting := true)])
    ensures var r := s.refreshRank;
      s.refreshCountdown[r] != 0 && !(s.powerDown[r] && s.refreshCountdown[r] <= c.tXP) ==>
      RefreshTimer(c, s) == s
  {
  }

  /** The lengths and indices that the methods rely on. */
  lemma ShapeFacts(c: Config, s: Sys)
    requires Shape(c, s)
    ensures |s.ranks| == |s.refreshCountdown| == |s.powerDown| == c.ranks && s.refreshRank < c.ranks
    ensures TableShape(c, s.table) && QueueShape(c, s.queue)
    ensures forall i :: 0 <= i < |s.transactions| ==> Placed(c, s.transactions[i])
  {
  }

  /** Tables with the same entries are the same. */
  lemma SameTable(c: Config, t: Table, u: Table)
    requires TableShape(c, t) && TableShape(c, u)
    requires forall r, j :: 0 <= r < c.ranks && 0 <= j < c.banks ==> t[r][j] == u[r][j]
    ensures t == u
  {
    forall r | 0 <= r < c.ranks ensures t[r] == u[r] {
    }
  }

  /** The two commands of a transaction join their queue. */
  function EnqueueBoth(c: Config, q: QueueState, t: Transaction): Result<QueueState>
    requires c.Sensible() && QueueShape(c, q) && Placed(c, t)
  {
    match DramQueue.Enqueue(c, q, ActivateFor(t))
    case Exit(f) => Exit(f)
    case Ok(q1) =>
      SetLineShape(c, q, ActivateFor(t));
      DramQueue.Enqueue(c, q1, ColumnFor(c, t))
  }

  lemma EnqueueCases(c: Config, q: QueueState, t: Transaction)
    requires c.Sensible() && QueueShape(c, q) && Placed(c, t)
    ensures ActivateFor(t).rank < c.ranks && ActivateFor(t).bank < c.banks
    ensures ColumnFor(c, t).rank < c.ranks && ColumnFor(c, t).bank < c.banks
    ensures match DramQueue.Enqueue(c, q, ActivateFor(t))
            case Exit(f) => true
            case Ok(q1) => QueueShape(c, q1)
  {
    SetLineShape(c, q, ActivateFor(t));
  }

  /** The state after transaction i has left for the command queue, which then is q. */
  function Scheduled(s: Sys, q: QueueState, i: nat): Sys
    requires i < |s.transactions|
  {
    var t := s.transactions[i];
    s.(queue := q, transactions := s.transactions[..i] + s.transactions[i + 1..],
       pendingReads := if t.isRead then s.pendingReads + [t] else s.pendingReads)
  }

  lemma FirstSchedulableNext(c: Config, s: Sys, i: nat)
    requires c.Sensible() && Shape(c, s) && i <= |s.transactions|
    ensures i < |s.transactions| ==> Placed(c, s.transactions[i]) && QueueShape(c, s.queue)
    ensures FirstSchedulable(c, s, i) ==
      if i == |s.transactions| || HasRoom(c, s.queue, 2, s.transactions[i].rank, s.transactions[i].bank) then i
      else FirstSchedulable(c, s, i + 1)
  {
  }

  lemma ScheduleCases(c: Config, s: Sys)
    requires c.Sensible() && Shape(c, s)
    ensures DramSystem.Schedule(c, s).Ok? ==> Shape(c, DramSystem.Schedule(c, s).value)
    ensures QueueShape(c, s.queue) && FirstSchedulable(c, s, 0) <= |s.transactions|
    ensures var i := FirstSchedulable(c, s, 0); i < |s.transactions| ==> Placed(c, s.transactions[i])
    ensures var i := FirstSchedulable(c, s, 0);
      DramSystem.Schedule(c, s) ==
        if i == |s.transactions| then Ok(s)
        else match EnqueueBoth(c, s.queue, s.transactions[i])
             case Exit(f) => Exit(f)
             case Ok(q) => Ok(Scheduled(s, q, i))
  {
    hide DramQueue.Enqueue, FirstSchedulable, LineShape;
  }

  function Slept(c: Config, s: Sys, i: nat, rank: RankState): Sys
    requires TableShape(c, s.table) && i < c.ranks == |s.ranks| == |s.powerDown|
  {
    s.(powerDown := s.powerDown[i := true], ranks := s.ranks[i := rank],
       table := SetRow(c, s.table, i, SleepBanks(c, s.table[i], s.now)))
  }

  function Woken(c: Config, s: Sys, i: nat, rank: RankState): Sys
    requires TableShape(c, s.table) && i < c.ranks == |s.ranks| == |s.powerDown|
  {
    s.(powerDown := s.powerDown[i := false], ranks := s.ranks[i := rank],
       table := SetRow(c, s.table, i, WakeBanks(c, s.table[i], s.now)))
  }

  lemma PowerCases(c: Config, s: Sys, i: nat)
    requires c.Sensible() && Shape(c, s) && i < c.ranks
    ensures |s.ranks| == |s.powerDown| == c.ranks && TableShape(c, s.table) && QueueShape(c, s.queue)
    ensures |s.table[i]| > 0
    ensures PowerRank(c, s, i).Ok? ==> Shape(c, PowerRank(c, s, i).value)
    ensures PowerRank(c, s, i) ==
      if Empty(c, s.queue, i) && !s.ranks[i].refreshWaiting then
        if forall j :: 0 <= j < c.banks ==> s.table[i][j].mode.Idle? then
          match Sleep(c, s.ranks[i], s.now)
          case Exit(f) => Exit(f)
          case Ok(rank) => Ok(Slept(c, s, i, rank))
        else Ok(s)
      else if s.now >= s.table[i][0].nextPowerUp && s.powerDown[i] then
        match Wake(c, s.ranks[i], s.now)
        case Exit(f) => Exit(f)
        case Ok(rank) => Ok(Woken(c, s, i, rank))
      else Ok(s)
  {
    hide Empty, Sleep, Wake, LineShape;
  }

  lemma PowerRanksNext(c: Config, s: Sys, i: nat)
    requires c.Sensible() && Shape(c, s) && i <= c.ranks
    ensures PowerRanks(c, s, i) ==
      if i == c.ranks || !c.lowPower then Ok(s)
      else match PowerRank(c, s, i)
           case Exit(f) => Exit(f)
           case Ok(s1) => PowerRanks(c, s1, i + 1)
  {
  }

  lemma ReturnCases(c: Config, s: Sys)
    requires Shape(c, s)
    ensures ReturnRead(c, s).Ok? ==> Shape(c, ReturnRead(c, s).value)
    ensures ReturnRead(c, s) ==
      if |s.returned| == 0 then Ok(s)
      else
        var n := FindPending(s.pendingReads, s.returned[0], 0);
        if n == |s.pendingReads| then Exit(NoMatchingRead)
        else
          Ok(s.(pendingReads := s.pendingReads[..n] + s.pendingReads[n + 1..], returned := s.returned[1..],
                history := s.history.(answered := s.history.answered + [s.pendingReads[n].addr])))
  {
  }

  /** The controller's share of one step. */
  function UpdateController(c: Config, s: Sys): (r: Result<Sys>)
    requires c.Sensible() && Shape(c, s)
    ensures r.Ok? ==> Shape(c, r.value)
  {
    match MoveBuses(c, CountDown(c, s))
    case Exit(f) => Exit(f)
    case Ok(s1) =>
      match Command(c, s1)
      case Exit(f) => Exit(f)
      case Ok(s2) => Close(c, s2)
  }
}
