/** The command queue as the simulator runs it: loops over vectors that are updated in place. */
module DramCommandQueue {
  import opened Wrappers
  import opened DramTypes
  import opened DramBank
  import opened DramQueue

  lemma InitialQueueShape(c: Config, all: seq<seq<seq<Packet>>>)
    requires c.Sensible() && |all| == c.ranks
    requires forall r :: 0 <= r < c.ranks ==> |all[r]| == (r + 1) * c.QueuesPerRank()
    ensures forall r :: 0 <= r < c.ranks ==> |all[r]| >= c.QueuesPerRank()
  {
    forall r | 0 <= r < c.ranks ensures |all[r]| >= c.QueuesPerRank() {
      assert (r + 1) * c.QueuesPerRank() == r * c.QueuesPerRank() + c.QueuesPerRank();
    }
  }

  /** One move of the round robin search. */
  lemma ScanQueuesNext(c: Config, q: QueueState, t: Table, r: nat, b: nat, r0: nat, b0: nat, now: nat)
    requires c.Sensible() && QueueShape(c, q) && TableShape(c, t)
    requires r < c.ranks && b < c.banks && r0 < c.ranks && b0 < c.banks && (!c.perBank ==> b == b0)
    ensures var line := Line(c, q, r, b); var n := NextQueue(c, r, b);
      var i := FirstEligible(c, q, t, line, r, Slot(c, b), 0, now);
      ScanQueues(c, q, t, r, b, r0, b0, now) ==
        if i < |line| && !(r == q.refreshRank && q.refreshWaiting) then FromQueue(r, b, i)
        else if n == (r0, b0) then Nothing else ScanQueues(c, q, t, n.0, n.1, r0, b0, now)
    ensures var n := NextQueue(c, r, b); n != (r0, b0) ==>
      && (!c.perBank ==> n.1 == b0)
      && (QueueLaps(c, n.0, n.1, r0, b0) < QueueLaps(c, r, b, r0, b0)
          || (QueueLaps(c, n.0, n.1, r0, b0) == QueueLaps(c, r, b, r0, b0) &&
              PairRest(c, n.0, n.1) < PairRest(c, r, b)))
  {
    hide QueueShape, FirstEligible, QueueLaps, PairRest, NextQueue, Line;
    QueueWalk(c, r, b, r0, b0);
  }

  class CommandQueue {
    const c: Config
    var queues: seq<seq<seq<Packet>>>
    var rowAccessCounters: seq<seq<nat>>
    var tFAWCountdown: seq<seq<nat>>
    var nextRank: nat
    var nextBank: nat
    var nextRankPRE: nat
    var nextBankPRE: nat
    var refreshRank: int
    var refreshWaiting: bool
    var sendAct: bool
    var currentClockCycle: nat

    function State(): QueueState reads this {
      QueueState(queues, rowAccessCounters, tFAWCountdown, nextRank, nextBank, nextRankPRE, nextBankPRE,
                 refreshRank, refreshWaiting, sendAct)
    }

    /** The inner vector is not cleared between ranks, so later ranks get more queues than they use. */
    static method MakeQueues(c: Config) returns (all: seq<seq<seq<Packet>>>)
      ensures |all| == c.ranks
      ensures forall r :: 0 <= r < c.ranks ==> |all[r]| == (r + 1) * c.QueuesPerRank()
      ensures forall r, k :: 0 <= r < c.ranks && 0 <= k < |all[r]| ==> all[r][k] == []
    {
      var perBankQueue: seq<seq<Packet>> := [];
      all := [];
      for rank := 0 to c.ranks
        invariant |all| == rank && |perBankQueue| == rank * c.QueuesPerRank()
        invariant forall k :: 0 <= k < |perBankQueue| ==> perBankQueue[k] == []
        invariant forall r :: 0 <= r < rank ==> |all[r]| == (r + 1) * c.QueuesPerRank()
        invariant forall r, k :: 0 <= r < rank && 0 <= k < |all[r]| ==> all[r][k] == []
      {
        ghost var before := |perBankQueue|;
        for bank := 0 to c.QueuesPerRank()
          invariant |perBankQueue| == before + bank
          invariant forall k :: 0 <= k < |perBankQueue| ==> perBankQueue[k] == []
        {
          perBankQueue := perBankQueue + [[]];
        }
        all := all + [perBankQueue];
      }
    }

    constructor (c: Config)
      requires c.Sensible()
      ensures this.c == c && currentClockCycle == 0 && InitialQueue(c, State())
    {
      this.c := c;
      var all := MakeQueues(c);
      InitialQueueShape(c, all);
      queues := all;
      rowAccessCounters := seq(c.ranks, r => seq(c.banks, b => 0));
      tFAWCountdown := seq(c.ranks, r => []);
      nextRank, nextBank, nextRankPRE, nextBankPRE := 0, 0, 0, 0;
      refreshRank, refreshWaiting, sendAct, currentClockCycle := 0, false, true, 0;
    }

    /** Packet p joins its queue; too many packets end the simulation. */
    method Enqueue(p: Packet) returns (r: Result<()>)
      requires c.Sensible() && QueueShape(c, State()) && p.rank < c.ranks && p.bank < c.banks
      modifies this
      ensures match DramQueue.Enqueue(c, old(State()), p)
              case Ok(s) => r.Ok? && State() == s
              case Exit(f) => r == Exit(f)
      ensures currentClockCycle == old(currentClockCycle)
    {
      var k := Slot(c, p.bank);
      queues := Put(queues, p.rank, k, queues[p.rank][k] + [p]);
      if |queues[p.rank][k]| > c.cmdQueueDepth {
        return Exit(QueueOverflow);
      }
      return Ok(());
    }

    method NeedRefresh(rank: nat)
      modifies this
      ensures State() == old(State()).(refreshWaiting := true, refreshRank := rank)
      ensures currentClockCycle == old(currentClockCycle)
    {
      refreshWaiting := true;
      refreshRank := rank;
    }

    method HasRoomFor(n: nat, rank: nat, bank: nat) returns (room: bool)
      requires c.Sensible() && QueueShape(c, State()) && rank < c.ranks && bank < c.banks
      ensures room == HasRoom(c, State(), n, rank, bank)
    {
      return (c.cmdQueueDepth - |queues[rank][Slot(c, bank)]|) % 0x1_0000_0000_0000_0000 >= n;
    }

    method IsEmpty(rank: nat) returns (empty: bool)
      requires c.Sensible() && QueueShape(c, State()) && rank < c.ranks
      ensures empty == Empty(c, State(), rank)
    {
      for i := 0 to c.QueuesPerRank()
        invariant forall k :: 0 <= k < i ==> queues[rank][k] == []
      {
        if queues[rank][i] != [] {
          return false;
        }
      }
      return true;
    }

    /** The sliding activate windows of all ranks move on by one cycle. */
    method AgeWindows()
      requires |tFAWCountdown| == c.ranks
      modifies this`tFAWCountdown
      ensures tFAWCountdown == AgeAll(old(tFAWCountdown))
    {
      ghost var before := tFAWCountdown;
      for i := 0 to c.ranks
        invariant |tFAWCountdown| == c.ranks
        invariant forall k :: 0 <= k < i ==> tFAWCountdown[k] == Age(before[k])
        invariant forall k :: i <= k < c.ranks ==> tFAWCountdown[k] == before[k]
      {
        var w := tFAWCountdown[i];
        for j := 0 to |w|
          invariant |w| == |before[i]|
          invariant forall k :: 0 <= k < j ==> w[k] == Dec32(before[i][k])
          invariant forall k :: j <= k < |w| ==> w[k] == before[i][k]
        {
          w := w[j := Dec32(w[j])];
        }
        assert w == seq(|before[i]|, k requires 0 <= k < |before[i]| => Dec32(before[i][k]));
        if |w| > 0 && w[0] == 0 {
          w := w[1..];
        }
        tFAWCountdown := tFAWCountdown[i := w];
      }
    }

    /** Searches the queue of a bank for the first packet to the bank's open row. */
    method FindToRow(line: seq<Packet>, b: nat, row: nat) returns (n: nat)
      ensures n == FirstToRow(line, b, row, 0)
    {
      n := 0;
      while n < |line| && !(line[n].bank == b && line[n].row == row)
        invariant n <= |line| && FirstToRow(line, b, row, 0) == FirstToRow(line, b, row, n)
      {
        n := n + 1;
      }
    }

    /** Whether an earlier access to the same row holds packet i back. */
    method FindDependency(line: seq<Packet>, i: nat) returns (found: bool)
      requires i < |line|
      ensures found == Depends(line, i)
    {
      found := false;
      for j := 0 to i
        invariant !found && forall k :: 0 <= k < j ==>
          !(!line[k].kind.Activate? && line[k].bank == line[i].bank && line[k].row == line[i].row)
      {
        if !line[j].kind.Activate? && line[j].bank == line[i].bank && line[j].row == line[i].row {
          return true;
        }
      }
    }

    /** Searches one queue for a packet that may go. */
    method FindEligible(t: Table, r: nat, b: nat) returns (n: nat)
      requires c.Sensible() && QueueShape(c, State()) && TableShape(c, t) && r < c.ranks && b < c.banks
      ensures n == FirstEligible(c, State(), t, Line(c, State(), r, b), r, Slot(c, b), 0, currentClockCycle)
    {
      var line := Line(c, State(), r, b);
      n := 0;
      while n < |line|
        invariant n <= |line|
        invariant FirstEligible(c, State(), t, line, r, Slot(c, b), 0, currentClockCycle)
               == FirstEligible(c, State(), t, line, r, Slot(c, b), n, currentClockCycle)
        invariant n > 0 ==> Belongs(c, line[n - 1], r, Slot(c, b))
        decreases |line| - n
      {
        assert Belongs(c, line[n], r, Slot(c, b));
        if Issuable(c, State(), t, line[n], currentClockCycle) {
          var held := false;
          if c.openPage {
            held := FindDependency(line, n);
          } else if c.perBank {
            held := n > 0;
          } else {
            held := n > 0 && line[n - 1].kind.Activate? && line[n - 1].addr == line[n].addr;
          }
          if !held {
            return n;
          }
        }
        n := n + 1;
      }
    }

    /** Goes round the queues from the one whose turn it is until one has a packet that may go. */
    method SearchQueues(t: Table) returns (pick: Pick)
      requires c.Sensible() && QueueShape(c, State()) && TableShape(c, t)
      ensures pick == ScanQueues(c, State(), t, nextRank, nextBank, nextRank, nextBank, currentClockCycle)
    {
      var r: nat, b: nat := nextRank, nextBank;
      while true
        invariant r < c.ranks && b < c.banks && (!c.perBank ==> b == nextBank)
        invariant ScanQueues(c, State(), t, nextRank, nextBank, nextRank, nextBank, currentClockCycle)
               == ScanQueues(c, State(), t, r, b, nextRank, nextBank, currentClockCycle)
        decreases QueueLaps(c, r, b, nextRank, nextBank), PairRest(c, r, b)
      {
        var line := Line(c, State(), r, b);
        ScanQueuesNext(c, State(), t, r, b, nextRank, nextBank, currentClockCycle);
        if line != [] && !(r == refreshRank && refreshWaiting) {
          var i := FindEligible(t, r, b);
          if i < |line| {
            return FromQueue(r, b, i);
          }
        }
        var n := NextQueue(c, r, b);
        if n == (nextRank, nextBank) {
          return Nothing;
        }
        r, b := n.0, n.1;
      }
    }

    /** Goes round the banks until one has a row that can be closed. */
    method SearchRows(t: Table) returns (pick: Pick)
      requires c.Sensible() && QueueShape(c, State()) && TableShape(c, t)
      ensures pick == ScanRows(c, State(), t, nextRankPRE, nextBankPRE, nextRankPRE, nextBankPRE, currentClockCycle)
    {
      var r: nat, b: nat := nextRankPRE, nextBankPRE;
      while true
        invariant r < c.ranks && b < c.banks
        invariant ScanRows(c, State(), t, nextRankPRE, nextBankPRE, nextRankPRE, nextBankPRE, currentClockCycle)
               == ScanRows(c, State(), t, r, b, nextRankPRE, nextBankPRE, currentClockCycle)
        decreases PairLaps(c, r, b, nextRankPRE, nextBankPRE), PairRest(c, r, b)
      {
        if t[r][b].mode.RowActive? {
          var line := Line(c, State(), r, b);
          var i := FindToRow(line, b, t[r][b].openRow);
          if i == |line| || rowAccessCounters[r][b] == c.totalRowAccesses {
            if currentClockCycle >= t[r][b].nextPrecharge {
              return CloseRow(r, b);
            }
          }
        }
        var n := NextRankAndBank(c, r, b);
        if n == (nextRankPRE, nextBankPRE) {
          return Nothing;
        }
        r, b := n.0, n.1;
      }
    }

    /** Looks at the banks of the rank that waits for a refresh. */
    method SearchForRefresh(t: Table) returns (pick: Pick)
      requires c.Sensible() && QueueShape(c, State()) && TableShape(c, t) && refreshWaiting
      ensures pick == ScanForRefresh(c, State(), t, 0, currentClockCycle)
    {
      for b := 0 to c.banks
        invariant ScanForRefresh(c, State(), t, 0, currentClockCycle) ==
          ScanForRefresh(c, State(), t, b, currentClockCycle)
      {
        var m := t[refreshRank][b];
        if m.mode.RowActive? {
          var line := Line(c, State(), refreshRank, b);
          var j := FindToRow(line, b, m.openRow);
          if j < |line| && !line[j].kind.Activate? {
            assert Belongs(c, line[j], refreshRank, Slot(c, b));
            if Issuable(c, State(), t, line[j], currentClockCycle) {
              return LastColumn(b, j);
            }
            return Nothing;
          }
          if c.openPage && currentClockCycle >= m.nextPrecharge {
            return CloseForRefresh(b);
          }
          return Nothing;
        } else if m.nextActivate > currentClockCycle {
          return Nothing;
        }
      }
      if t[refreshRank][0].mode.PowerDown? {
        return Nothing;
      }
      return SendRefresh;
    }

    /** Removes packet i from its queue, together with the activate it makes needless. */
    method TakePacket(r: nat, b: nat, i: nat) returns (p: Packet)
      requires c.Sensible() && QueueShape(c, State()) && Valid(c, State(), FromQueue(r, b, i))
      modifies this
      ensures State() == Remove(c, old(State()), FromQueue(r, b, i)) && p == Chosen(c, old(State()), FromQueue(r, b, i))
      ensures currentClockCycle == old(currentClockCycle)
    {
      nextRank, nextBank := r, b;
      var k := Slot(c, b);
      var line := queues[r][k];
      p := line[i];
      assert Belongs(c, p, r, k);
      if c.openPage && i > 0 && line[i - 1].kind.Activate? {
        rowAccessCounters := Put(rowAccessCounters, p.rank, p.bank, rowAccessCounters[p.rank][p.bank] + 1);
        queues := Put(queues, r, k, line[..i - 1] + line[i + 1..]);
      } else {
        queues := Put(queues, r, k, line[..i] + line[i + 1..]);
      }
    }

    /** Removes the chosen command from where it waits. */
    method TakeOut(pick: Pick) returns (p: Packet)
      requires c.Sensible() && QueueShape(c, State()) && Valid(c, State(), pick)
      modifies this
      ensures State() == Remove(c, old(State()), pick) && p == Chosen(c, old(State()), pick)
      ensures currentClockCycle == old(currentClockCycle)
    {
      match pick
      case FromQueue(r, b, i) =>
        p := TakePacket(r, b, i);
      case LastColumn(b, i) =>
        var k := Slot(c, b);
        var line := queues[refreshRank][k];
        p := line[i];
        queues := Put(queues, refreshRank, k, line[..i] + line[i + 1..]);
      case CloseForRefresh(b) =>
        rowAccessCounters := Put(rowAccessCounters, refreshRank, b, 0);
        p := Packet(Precharge, 0, 0, 0, refreshRank, b);
      case CloseRow(r, b) =>
        nextRankPRE, nextBankPRE := r, b;
        rowAccessCounters := Put(rowAccessCounters, r, b, 0);
        p := Packet(Precharge, 0, 0, 0, r, b);
      case SendRefresh =>
        p := Packet(Refresh, 0, 0, 0, refreshRank, 0);
        refreshRank := -1;
        refreshWaiting := false;
    }

    /** Decides what goes next. */
    method Select(t: Table) returns (pick: Pick)
      requires c.Sensible() && QueueShape(c, State()) && TableShape(c, t)
      ensures pick == Choose(c, State(), t, currentClockCycle)
    {
      pick := Nothing;
      if refreshWaiting {
        pick := SearchForRefresh(t);
      }
      if pick.Nothing? {
        pick := SearchQueues(t);
        if pick.Nothing? && c.openPage {
          pick := SearchRows(t);
        }
      }
    }

    /** The bookkeeping after a command has been taken out. */
    method Conclude(p: Packet)
      requires nextRank < c.ranks && nextBank < c.banks && p.rank < |tFAWCountdown|
      modifies this
      ensures State() == Finish(c, old(State()), p)
      ensures currentClockCycle == old(currentClockCycle)
    {
      if c.AL > 0 && sendAct {
        sendAct := false;
      } else {
        sendAct := true;
        var n := NextRankAndBank(c, nextRank, nextBank);
        nextRank, nextBank := n.0, n.1;
      }
      if p.kind.Activate? {
        tFAWCountdown := tFAWCountdown[p.rank := tFAWCountdown[p.rank] + [c.tFAW]];
      }
    }

    /** Takes the next command out of the queue, if there is one that can go now. */
    method Pop(t: Table) returns (popped: Option<Packet>)
      requires c.Sensible() && QueueShape(c, State()) && TableShape(c, t)
      modifies this
      ensures (State(), popped) == DramQueue.Pop(c, old(State()), t, currentClockCycle)
      ensures currentClockCycle == old(currentClockCycle)
    {
      AgeWindows();
      ghost var q1 := State();
      assert QueueShape(c, q1);
      var pick := Select(t);
      if pick.Nothing? {
        return None;
      }
      ChoiceValid(c, q1, t, currentClockCycle);
      RemoveKeepsShape(c, q1, pick);
      var p := TakeOut(pick);
      Conclude(p);
      return Some(p);
    }

    method Step()
      modifies this`currentClockCycle
      ensures currentClockCycle == old(currentClockCycle) + 1
    {
      currentClockCycle := currentClockCycle + 1;
    }
  }
}
