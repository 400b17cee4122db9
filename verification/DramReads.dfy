/**
 Reads are conserved: every read the controller waits for is in exactly one place on its way, so data
 that comes back always finds the read that asked for it, and no read is answered twice.
*/
module DramReads {
  import opened Wrappers
  import opened DramTypes
  import opened DramBank
  import opened DramQueue
  import opened DramRank
  import opened DramSystem
  import opened DramSafety
  import opened Sums

  // ---- where reads of address a are ----

  function PacketWeight(a: nat): Packet -> nat {
    (p: Packet) => if p.kind.IsRead() && p.addr == a then 1 else 0
  }

  function LineWeight(a: nat): seq<Packet> -> nat { (line: seq<Packet>) => Sum(line, PacketWeight(a)) }

  function LinesWeight(a: nat): seq<seq<Packet>> -> nat { (lines: seq<seq<Packet>>) => Sum(lines, LineWeight(a)) }

  function Queued(queues: seq<seq<seq<Packet>>>, a: nat): nat { Sum(queues, LinesWeight(a)) }

  function ReturnWeight(a: nat): Return -> nat { (r: Return) => if r.packet.addr == a then 1 else 0 }

  function InRank(rs: RankState, a: nat): nat {
    Sum(rs.inFlight, ReturnWeight(a)) + if rs.out.Some? && rs.out.value.addr == a then 1 else 0
  }

  function RankWeight(a: nat): RankState -> nat { (rs: RankState) => InRank(rs, a) }

  function OnBus(s: Sys, a: nat): nat {
    if s.cmdBus.Some? then PacketWeight(a)(s.cmdBus.value) else 0
  }

  function AddrWeight(a: nat): nat -> nat { (x: nat) => if x == a then 1 else 0 }

  function ReadWeight(a: nat): Transaction -> nat {
    (t: Transaction) => if t.isRead && t.addr == a then 1 else 0
  }

  function OnTheWay(s: Sys, a: nat): nat {
    Queued(s.queue.queues, a) + OnBus(s, a) + Sum(s.ranks, RankWeight(a)) + Sum(s.returned, AddrWeight(a))
  }

  /** Every pending read is on its way once, and every accepted read is waiting, pending or answered once. */
  ghost predicate Conserved(s: Sys) {
    && (forall i :: 0 <= i < |s.pendingReads| ==> s.pendingReads[i].isRead)
    && (forall a :: Sum(s.pendingReads, ReadWeight(a)) == OnTheWay(s, a))
    && (forall a {:trigger ReadWeight(a)} :: Sum(s.history.accepted, ReadWeight(a))
         == Sum(s.transactions, ReadWeight(a)) + Sum(s.pendingReads, ReadWeight(a)) +
             Sum(s.history.answered, AddrWeight(a)))
  }

  // ---- the pipeline of a rank ----

  /** Cycles until the output slot is free after all reads under way. */
  function Busy(c: Config, rs: RankState): int {
    if |rs.inFlight| > 0 then rs.inFlight[|rs.inFlight| - 1].left + c.Burst()
    else if rs.out.Some? then rs.outLeft
    else 0
  }

  ghost predicate Spread(c: Config, q: seq<Return>) {
    forall i :: 0 < i < |q| ==> q[i - 1].left + c.Burst() <= q[i].left
  }

  /** The reads under way reach the output slot one after the other, each after its predecessor has left. */
  ghost predicate Pipe(c: Config, rs: RankState) {
    && (forall i :: 0 <= i < |rs.inFlight| ==> rs.inFlight[i].left >= 1 && rs.inFlight[i].packet.kind.Data?)
    && Spread(c, rs.inFlight)
    && (rs.out.Some? ==> 1 <= rs.outLeft <= c.Burst() && rs.out.value.kind.Data?)
    && (rs.out.Some? && |rs.inFlight| > 0 ==> rs.outLeft <= rs.inFlight[0].left)
    && Busy(c, rs) <= c.RL() + c.Burst()
  }

  /** The pipeline with all counters down by one. */
  ghost predicate Counted(c: Config, rs: RankState, d: RankState, sent: Option<Packet>, counted: seq<Return>) {
    && |counted| == |rs.inFlight| && d.inFlight == rs.inFlight
    && (forall i :: 0 <= i < |counted| ==>
         counted[i].packet == rs.inFlight[i].packet && counted[i].left + 1 == rs.inFlight[i].left)
    && (if rs.out.Some? && rs.outLeft > 1 then d.out == rs.out && d.outLeft == rs.outLeft - 1 && sent.None?
        else d.out.None? && sent == rs.out)
  }

  lemma CountKeepsSpacing(c: Config, rs: RankState)
    requires c.Sensible() && Pipe(c, rs)
    ensures var (d, sent) := DrainSlot(rs); Counted(c, rs, d, sent, CountReturns(d.inFlight))
  {
    var (d, sent) := DrainSlot(rs);
    forall i | 0 <= i < |rs.inFlight| ensures CountReturns(d.inFlight)[i].left + 1 == rs.inFlight[i].left {
      assert rs.inFlight[i].left >= 1;
    }
  }

  lemma CountedSpread(c: Config, rs: RankState, d: RankState, sent: Option<Packet>, counted: seq<Return>)
    requires c.Sensible() && Pipe(c, rs) && Counted(c, rs, d, sent, counted)
    ensures Spread(c, counted)
    ensures forall i :: 0 <= i < |counted| ==> counted[i].packet.kind.Data? && (i > 0 ==> counted[i].left >= 1)
  {
    forall i | 0 < i < |counted| ensures counted[i - 1].left + c.Burst() <= counted[i].left {
      assert rs.inFlight[i - 1].left + c.Burst() <= rs.inFlight[i].left;
    }
    forall i | 0 <= i < |counted| ensures counted[i].packet.kind.Data? && (i > 0 ==> counted[i].left >= 1) {
      assert rs.inFlight[i].packet.kind.Data?;
      assert i > 0 ==> rs.inFlight[i - 1].left >= 1 && rs.inFlight[i - 1].left + c.Burst() <= rs.inFlight[i].left;
    }
  }

  lemma WaitingKeepsPipe(c: Config, rs: RankState, d: RankState, sent: Option<Packet>, counted: seq<Return>)
    requires c.Sensible() && Pipe(c, rs) && Counted(c, rs, d, sent, counted)
    requires |counted| > 0 ==> counted[0].left > 0
    ensures Pipe(c, d.(inFlight := counted)) && Busy(c, d.(inFlight := counted)) <= Max(Busy(c, rs) - 1, 0)
  {
    CountedSpread(c, rs, d, sent, counted);
  }

  /** A read never enters an output slot that is still in use. */
  lemma AdvanceKeepsPipe(c: Config, rs: RankState)
    requires c.Sensible() && Pipe(c, rs)
    ensures var (rs1, sent) := Advance(c, rs);
      && Pipe(c, rs1) && Busy(c, rs1) <= Max(Busy(c, rs) - 1, 0)
      && (sent.Some? ==> sent.value.kind.Data?)
      && (|rs.inFlight| > 0 && rs.inFlight[0].left == 1 ==> DrainSlot(rs).0.out.None?)
  {
    CountKeepsSpacing(c, rs);
    var (d, sent) := DrainSlot(rs);
    var counted := CountReturns(d.inFlight);
    CountedSpread(c, rs, d, sent, counted);
    if |counted| > 0 && counted[0].left == 0 {
      DueKeepsPipe(c, d, counted);
    } else {
      WaitingKeepsPipe(c, rs, d, sent, counted);
    }
    hide Spread, CountReturns, DrainSlot;
  }

  /** The head of the pipeline moves into the slot. */
  lemma DueKeepsPipe(c: Config, d: RankState, counted: seq<Return>)
    requires c.Sensible() && |counted| > 0 && counted[0].left == 0 && Spread(c, counted)
    requires forall i :: 0 <= i < |counted| ==> counted[i].packet.kind.Data?
    requires counted[|counted| - 1].left <= c.RL()
    ensures Pipe(c, d.(out := Some(counted[0].packet), outLeft := c.Burst(), inFlight := counted[1..]))
  {
    var rest := counted[1..];
    forall i | 0 < i < |rest| ensures rest[i - 1].left + c.Burst() <= rest[i].left {
      assert counted[i + 1 - 1].left + c.Burst() <= counted[i + 1].left;
    }
    forall i | 0 <= i < |rest| ensures rest[i].left >= c.Burst() {
      assert counted[i + 1 - 1].left + c.Burst() <= counted[i + 1].left;
    }
  }

  /** No read is lost on the way through a rank. */
  lemma AdvanceConserves(c: Config, rs: RankState, a: nat)
    requires c.Sensible() && Pipe(c, rs)
    ensures var (rs1, sent) := Advance(c, rs);
      InRank(rs, a) == InRank(rs1, a) + if sent.Some? && sent.value.addr == a then 1 else 0
  {
    CountKeepsSpacing(c, rs);
    var (d, sent) := DrainSlot(rs);
    var counted := CountReturns(d.inFlight);
    CountedConserves(c, rs, d, sent, counted, a);
    hide Pipe, CountReturns, DrainSlot, Sum;
  }

  lemma CountedConserves(c: Config, rs: RankState, d: RankState, sent: Option<Packet>, counted: seq<Return>, a: nat)
    requires c.Sensible() && Pipe(c, rs) && Counted(c, rs, d, sent, counted)
    ensures InRank(rs, a) == InRank(d.(inFlight := counted), a) + if sent.Some? && sent.value.addr == a then 1 else 0
    ensures |counted| > 0 && counted[0].left == 0 ==> d.out.None?
    ensures |counted| > 0 ==>
      Sum(counted, ReturnWeight(a)) == ReturnWeight(a)(counted[0]) + Sum(counted[1..], ReturnWeight(a))
  {
    SumSame(rs.inFlight, counted, ReturnWeight(a), ReturnWeight(a));
  }

  // ---- the controller spaces reads so that the pipeline stays free ----

  /** Bank m will let no read go before cycle limit; t is the last countdown. */
  predicate ReadGap(m: Bank, t: int, limit: int) {
    m.nextRead >= limit || (Closing(m) && t + m.countdown >= limit) || limit <= t
  }

  predicate BusReads(s: Sys, r: nat) { s.cmdBus.Some? && s.cmdBus.value.rank == r && s.cmdBus.value.kind.IsRead() }

  /** The first cycle in which rank r may be sent another read; e is one until the ranks have moved on. */
  function Earliest(c: Config, s: Sys, r: nat, t: int, e: int): int
    requires Shape(c, s) && r < c.ranks
  {
    if BusReads(s, r) then t - 1 + e + c.Burst() else t + Busy(c, s.ranks[r]) - c.RL() - 1
  }

  ghost predicate RankSpaced(c: Config, s: Sys, r: nat, t: int, e: int)
    requires Shape(c, s) && r < c.ranks
  {
    && Pipe(c, s.ranks[r])
    && (BusReads(s, r) ==> Busy(c, s.ranks[r]) <= c.RL() + e)
    && forall j :: 0 <= j < c.banks ==> ReadGap(s.table[r][j], t, Earliest(c, s, r, t, e))
  }

  ghost predicate Spaced(c: Config, s: Sys, t: int, e: int)
    requires Shape(c, s)
  {
    forall r :: 0 <= r < c.ranks ==> RankSpaced(c, s, r, t, e)
  }

  lemma TickKeepsGap(c: Config, m: Bank, t: int, limit: int)
    requires ReadGap(m, t, limit)
    ensures ReadGap(Tick(c, m), t + 1, limit)
  {
  }

  /** A permitted command leaves the gap to the previous read open, and a read opens the next one. */
  lemma IssueKeepsGap(c: Config, m: Bank, i: nat, j: nat, p: Packet, t: nat, limit: int)
    requires c.Sensible() && ReadGap(m, t, limit) && limit <= t + c.Burst()
    requires i == p.rank && j == p.bank && !p.kind.Refresh? ==> PermittedAt(c, m, p, t) && !Closing(m)
    requires i == p.rank && p.kind.Refresh? ==> RefreshableAt(m, t)
    ensures ReadGap(Issue(c, m, i, j, p, t), t, limit)
    ensures i == p.rank && p.kind.IsRead() ==> ReadGap(Issue(c, m, i, j, p, t), t, t + c.Burst())
  {
  }

  // ---- phases ----

  /** The invariant of this module between two calls of update. */
  ghost predicate ReadsOk(c: Config, s: Sys)
    requires Shape(c, s)
  {
    Conserved(s) && Spaced(c, s, s.now - 1, 1)
  }

  predicate SamePipe(rs: RankState, rs1: RankState) {
    rs1.inFlight == rs.inFlight && rs1.out == rs.out && rs1.outLeft == rs.outLeft
  }

  /** Nothing that concerns reads has changed. */
  predicate SameReads(s: Sys, s1: Sys) {
    && s1.now == s.now && s1.table == s.table && s1.queue.queues == s.queue.queues && s1.cmdBus == s.cmdBus
    && |s1.ranks| == |s.ranks|
    && (forall r :: 0 <= r < |s.ranks| ==> SamePipe(s.ranks[r], s1.ranks[r]))
    && s1.returned == s.returned && s1.pendingReads == s.pendingReads && s1.transactions == s.transactions
    && s1.history.accepted == s.history.accepted && s1.history.answered == s.history.answered
  }

  lemma SameReadsKeep(c: Config, s: Sys, s1: Sys, t: int, e: int)
    requires Shape(c, s) && Shape(c, s1) && SameReads(s, s1)
    ensures Conserved(s) ==> Conserved(s1)
    ensures Spaced(c, s, t, e) ==> Spaced(c, s1, t, e)
  {
    forall a ensures OnTheWay(s1, a) == OnTheWay(s, a) {
      SumSame(s.ranks, s1.ranks, RankWeight(a), RankWeight(a));
    }
    if Spaced(c, s, t, e) {
      forall r | 0 <= r < c.ranks ensures RankSpaced(c, s1, r, t, e) {
        assert RankSpaced(c, s, r, t, e);
      }
    }
  }

  lemma OfferConserves(c: Config, s: Sys, t: Transaction)
    requires Shape(c, s) && Placed(c, t) && Conserved(s)
    ensures Conserved(Offer(c, s, t))
  {
    if WillAccept(c, s) {
      forall a ensures Sum(s.transactions + [t], ReadWeight(a)) == Sum(s.transactions, ReadWeight(a)) + ReadWeight(a)(t)
        ensures Sum(s.history.accepted + [t], ReadWeight(a)) ==
          Sum(s.history.accepted, ReadWeight(a)) + ReadWeight(a)(t)
      {
        SumPush(s.transactions, t, ReadWeight(a));
        SumPush(s.history.accepted, t, ReadWeight(a));
      }
      var s1 := Offer(c, s, t);
      forall a ensures OnTheWay(s1, a) == OnTheWay(s, a) {
      }
    }
  }

  lemma OfferSpaced(c: Config, s: Sys, t: Transaction, t0: int, e: int)
    requires Shape(c, s) && Placed(c, t) && Spaced(c, s, t0, e)
    ensures Spaced(c, Offer(c, s, t), t0, e)
  {
    forall r | 0 <= r < c.ranks ensures RankSpaced(c, Offer(c, s, t), r, t0, e) {
      assert RankSpaced(c, s, r, t0, e);
    }
  }

  /** A rank moves on: its read may change over to the controller's return queue. */
  lemma AdvanceRankReads(c: Config, s: Sys, i: nat, t: int)
    requires c.Sensible() && Shape(c, s) && i < c.ranks && Conserved(s) && Pipe(c, s.ranks[i])
    ensures AdvanceRank(c, s, i).Ok? && Conserved(AdvanceRank(c, s, i).value)
  {
    AdvanceKeepsPipe(c, s.ranks[i]);
    var (rank, sent) := Advance(c, s.ranks[i]);
    var s1 := AdvanceRank(c, s, i).value;
    forall a ensures OnTheWay(s1, a) == OnTheWay(s, a) {
      AdvanceConserves(c, s.ranks[i], a);
      SumUpdate(s.ranks, i, rank, RankWeight(a));
      if sent.Some? {
        SumPush(s.returned, sent.value.addr, AddrWeight(a));
      }
      hide Sum, Pipe, Advance;
    }
  }

  lemma AdvanceRanksReads(c: Config, s: Sys, i: nat)
    requires c.Sensible() && Shape(c, s) && i <= c.ranks && Conserved(s)
    requires forall r :: i <= r < c.ranks ==> Pipe(c, s.ranks[r])
    ensures AdvanceRanks(c, s, i).Ok?
    ensures var s1 := AdvanceRanks(c, s, i).value;
      && Conserved(s1) && s1.now == s.now && s1.table == s.table && s1.cmdBus == s.cmdBus
      && forall r :: 0 <= r < c.ranks ==> s1.ranks[r] == if r < i then s.ranks[r] else Advance(c, s.ranks[r]).0
    decreases c.ranks - i
  {
    hide Conserved, QueueShape, Advance, Pipe;
    if i < c.ranks {
      AdvanceRankReads(c, s, i, 0);
      AdvanceRanksReads(c, AdvanceRank(c, s, i).value, i + 1);
    }
  }

  lemma ArriveReads(c: Config, s: Sys)
    requires c.Sensible() && Shape(c, s) && ReadsOk(c, s)
    ensures Arrive(c, s).Ok?
    ensures var s1 := Arrive(c, s).value; s1.now == s.now && Conserved(s1) && Spaced(c, s1, s.now, 0)
  {
    forall r | 0 <= r < c.ranks ensures Pipe(c, s.ranks[r]) {
      assert RankSpaced(c, s, r, s.now - 1, 1);
    }
    AdvanceRanksReads(c, s, 0);
    var s1 := AdvanceRanks(c, s, 0).value;
    ArriveSpaced(c, s, s1);
    var s2 := AdmitWaiting(c, s1);
    if |s1.waiting| > 0 && WillAccept(c, s1) {
      OfferConserves(c, s1, s1.waiting[0]);
      var o := Offer(c, s1, s1.waiting[0]);
      SameReadsKeep(c, o, s2, 0, 0);
      SameSpaced(c, CountDown(c, s1), CountDown(c, s2), s.now, 0);
    }
    CountDownConserves(c, s2);
  }

  lemma CountDownConserves(c: Config, s: Sys)
    requires Shape(c, s) && Conserved(s)
    ensures Conserved(CountDown(c, s)) && CountDown(c, s).now == s.now
  {
    var s1 := CountDown(c, s);
    forall a ensures OnTheWay(s1, a) == OnTheWay(s, a) {
    }
  }

  lemma SameSpaced(c: Config, s: Sys, s1: Sys, t: int, e: int)
    requires Shape(c, s) && Shape(c, s1) && s1.table == s.table && s1.ranks == s.ranks && s1.cmdBus == s.cmdBus
    requires Spaced(c, s, t, e)
    ensures Spaced(c, s1, t, e)
  {
    forall r | 0 <= r < c.ranks ensures RankSpaced(c, s1, r, t, e) {
      assert RankSpaced(c, s, r, t, e);
    }
  }

  lemma ArriveSpaced(c: Config, s: Sys, s1: Sys)
    requires c.Sensible() && Shape(c, s) && Spaced(c, s, s.now - 1, 1)
    requires Shape(c, s1) && s1.now == s.now && s1.table == s.table && s1.cmdBus == s.cmdBus
    requires forall r :: 0 <= r < c.ranks ==> s1.ranks[r] == Advance(c, s.ranks[r]).0
    ensures Spaced(c, CountDown(c, s1), s.now, 0)
  {
    var s2 := CountDown(c, s1);
    forall r | 0 <= r < c.ranks ensures RankSpaced(c, s2, r, s.now, 0) {
      assert RankSpaced(c, s, r, s.now - 1, 1);
      AdvanceKeepsPipe(c, s.ranks[r]);
      hide Pipe, Advance;
      forall j | 0 <= j < c.banks ensures ReadGap(s2.table[r][j], s.now, Earliest(c, s2, r, s.now, 0)) {
        TickKeepsGap(c, s.table[r][j], s.now - 1, Earliest(c, s, r, s.now - 1, 1));
      }
    }
  }

  // ---- the command bus ----

  lemma ReceiveConserves(c: Config, rs: RankState, p: Packet, now: nat, a: nat)
    requires c.Sensible() && Receive(c, rs, p, now).Ok?
    ensures InRank(Receive(c, rs, p, now).value, a) == InRank(rs, a) + PacketWeight(a)(p)
  {
    if p.kind.IsRead() {
      SumPush(rs.inFlight, Return(p.(kind := Data), c.RL()), ReturnWeight(a));
    }
  }

  lemma ReceiveKeepsPipe(c: Config, rs: RankState, p: Packet, now: nat)
    requires c.Sensible() && Receive(c, rs, p, now).Ok? && Pipe(c, rs)
    requires p.kind.IsRead() ==> Busy(c, rs) <= c.RL()
    ensures var rs1 := Receive(c, rs, p, now).value;
      Pipe(c, rs1) && Busy(c, rs1) == if p.kind.IsRead() then c.RL() + c.Burst() else Busy(c, rs)
  {
    var rs1 := Receive(c, rs, p, now).value;
    if p.kind.IsRead() {
      var q := rs1.inFlight;
      forall i | 0 < i < |q| ensures q[i - 1].left + c.Burst() <= q[i].left {
        if i < |q| - 1 {
          assert rs.inFlight[i - 1].left + c.Burst() <= rs.inFlight[i].left;
        }
      }
    }
  }

  /** A read moves from the command bus into its rank, behind the reads that are there. */
  lemma DeliverCommandReads(c: Config, s: Sys)
    requires c.Sensible() && Shape(c, s) && Conserved(s) && Spaced(c, s, s.now, 0)
    requires DeliverCommand(c, s).Ok? && DeliverCommand(c, s).value.cmdBus.None?
    ensures var s1 := DeliverCommand(c, s).value; s1.now == s.now && Conserved(s1) && Spaced(c, s1, s.now, 0)
  {
    var s1 := DeliverCommand(c, s).value;
    if s.cmdBus.Some? {
      var p := s.cmdBus.value;
      hide QueueShape, Sum, Receive, Pipe;
      forall a ensures OnTheWay(s1, a) == OnTheWay(s, a) {
        ReceiveConserves(c, s.ranks[p.rank], p, s.now, a);
        SumUpdate(s.ranks, p.rank, s1.ranks[p.rank], RankWeight(a));
      }
      DeliverCommandSpaced(c, s);
    }
  }

  lemma DeliverCommandSpaced(c: Config, s: Sys)
    requires c.Sensible() && Shape(c, s) && Spaced(c, s, s.now, 0) && s.cmdBus.Some?
    requires DeliverCommand(c, s).Ok? && DeliverCommand(c, s).value.cmdBus.None?
    ensures Spaced(c, DeliverCommand(c, s).value, s.now, 0)
  {
    hide QueueShape, Receive, Pipe;
    var s1 := DeliverCommand(c, s).value;
    var p := s.cmdBus.value;
    assert RankSpaced(c, s, p.rank, s.now, 0);
    forall r | 0 <= r < c.ranks ensures RankSpaced(c, s1, r, s.now, 0) {
      assert RankSpaced(c, s, r, s.now, 0);
      if r == p.rank {
        ReceiveKeepsPipe(c, s.ranks[r], p, s.now);
      }
    }
  }

  lemma DeliverDataReads(c: Config, s: Sys)
    requires c.Sensible() && Shape(c, s) && DeliverData(c, s).Ok?
    ensures SameReads(s, DeliverData(c, s).value)
  {
  }

  lemma MoveBusesReads(c: Config, s: Sys)
    requires c.Sensible() && Shape(c, s) && Conserved(s) && Spaced(c, s, s.now, 0)
    requires DeliverCommand(c, s).Ok? && DeliverCommand(c, s).value.cmdBus.None? && MoveBuses(c, s).Ok?
    ensures var s1 := MoveBuses(c, s).value; s1.now == s.now && Conserved(s1) && Spaced(c, s1, s.now, 0)
  {
    hide QueueShape, Conserved, Spaced, DeliverCommand, DeliverData;
    DeliverCommandReads(c, s);
    var s1 := DeliverCommand(c, s).value;
    DeliverDataReads(c, s1);
    var s2 := DeliverData(c, s1).value;
    SameReadsKeep(c, s1, s2, s.now, 0);
    SameReadsKeep(c, s2, SendData(c, s2).value, s.now, 0);
  }

  // ---- issuing and scheduling ----

  lemma SetLineQueued(c: Config, q: QueueState, r: nat, b: nat, line: seq<Packet>, a: nat)
    requires c.Sensible() && QueueShape(c, q) && r < c.ranks && b < c.banks
    ensures Queued(SetLine(c, q, r, b, line).queues, a) + Sum(Line(c, q, r, b), PacketWeight(a))
         == Queued(q.queues, a) + Sum(line, PacketWeight(a))
  {
    var lines := q.queues[r][Slot(c, b) := line];
    SumUpdate(q.queues[r], Slot(c, b), line, LineWeight(a));
    SumUpdate(q.queues, r, lines, LinesWeight(a));
  }

  lemma RemoveConserves(c: Config, q: QueueState, pick: Pick, a: nat)
    requires c.Sensible() && QueueShape(c, q) && Valid(c, q, pick)
    ensures Queued(q.queues, a) == Queued(Remove(c, q, pick).queues, a) + PacketWeight(a)(Chosen(c, q, pick))
  {
    match pick
    case FromQueue(r, b, i) =>
      var line := Line(c, q, r, b);
      assert Belongs(c, line[i], r, Slot(c, b));
      SumRemove(line, i, PacketWeight(a));
      if TakesActivate(c, line, i) {
        var rest := Without(line, i);
        assert line[..i - 1] + line[i + 1..] == rest[..i - 1] + rest[i..];
        SumRemove(rest, i - 1, PacketWeight(a));
        SetLineQueued(c, q, r, b, line[..i - 1] + line[i + 1..], a);
      } else {
        SetLineQueued(c, q, r, b, Without(line, i), a);
      }
    case LastColumn(b, i) =>
      SumRemove(Line(c, q, q.refreshRank, b), i, PacketWeight(a));
      SetLineQueued(c, q, q.refreshRank, b, Without(Line(c, q, q.refreshRank, b), i), a);
    case CloseForRefresh(b) =>
    case CloseRow(r, b) =>
    case SendRefresh =>
  }

  /** What pop does to the queues. */
  lemma PopQueues(c: Config, q: QueueState, t: Table, now: nat)
    requires c.Sensible() && QueueShape(c, q) && TableShape(c, t)
    ensures var q0 := q.(faw := AgeAll(q.faw)); var pick := Choose(c, q0, t, now);
      if pick.Nothing? then Pop(c, q, t, now).0.queues == q.queues && Pop(c, q, t, now).1.None?
      else
        && QueueShape(c, q0) && Valid(c, q0, pick)
        && Pop(c, q, t, now).0.queues == Remove(c, q0, pick).queues
        && Pop(c, q, t, now).1 == Some(Chosen(c, q0, pick))
  {
    var q0 := q.(faw := AgeAll(q.faw));
    hide Choose, Remove, Chosen, LineShape, Valid;
    if !Choose(c, q0, t, now).Nothing? {
      ChoiceValid(c, q0, t, now);
      RemoveKeepsShape(c, q0, Choose(c, q0, t, now));
    }
  }

  lemma PopConserves(c: Config, q: QueueState, t: Table, now: nat, a: nat)
    requires c.Sensible() && QueueShape(c, q) && TableShape(c, t)
    ensures var (q1, popped) := Pop(c, q, t, now);
      Queued(q.queues, a) == Queued(q1.queues, a) + if popped.Some? then PacketWeight(a)(popped.value) else 0
  {
    var q0 := q.(faw := AgeAll(q.faw));
    PopQueues(c, q, t, now);
    hide *;
    if !Choose(c, q0, t, now).Nothing? {
      RemoveConserves(c, q0, Choose(c, q0, t, now), a);
    }
  }

  /** A read moves from its queue to the bus, and no later read can come too close behind it. */
  lemma IssueNextReads(c: Config, s: Sys)
    requires c.Sensible() && Shape(c, s) && Conserved(s) && Spaced(c, s, s.now, 0) && s.cmdBus.None?
    requires Related(c, s, s.now, s.now) && AllSleepAgrees(c, s) && IssueNext(c, s).Ok?
    ensures var s1 := IssueNext(c, s).value; s1.now == s.now && Conserved(s1) && Spaced(c, s1, s.now, 1)
  {
    hide Pop, Related, AllSleepAgrees, RankSpaced, IssueTable, Permitted;
    var s1 := IssueNext(c, s).value;
    var popped := Pop(c, s.queue, s.table, s.now).1;
    IssueNextConserves(c, s);
    hide Conserved, OnTheWay;
    if popped.Some? {
      WholeRanksOf(c, s);
      PoppedIsPermitted(c, s.queue, s.table, s.now);
      forall r | 0 <= r < c.ranks ensures RankSpaced(c, s1, r, s.now, 1) {
        IssueSpaced(c, s, s1, popped.value, r);
      }
    } else {
      forall r | 0 <= r < c.ranks ensures RankSpaced(c, s1, r, s.now, 1) {
        assert RankSpaced(c, s, r, s.now, 0);
        SameRankSpaced(c, s, s1, r, s.now);
      }
    }
  }

  lemma SameRankSpaced(c: Config, s: Sys, s1: Sys, r: nat, t: int)
    requires Shape(c, s) && Shape(c, s1) && r < c.ranks && RankSpaced(c, s, r, t, 0)
    requires s1.table == s.table && s1.ranks == s.ranks && s1.cmdBus == s.cmdBus && s.cmdBus.None?
    ensures RankSpaced(c, s1, r, t, 1)
  {
  }

  lemma IssueNextConserves(c: Config, s: Sys)
    requires c.Sensible() && Shape(c, s) && Conserved(s) && s.cmdBus.None? && IssueNext(c, s).Ok?
    ensures Conserved(IssueNext(c, s).value)
  {
    hide Pop, Sum, IssueTable;
    var s1 := IssueNext(c, s).value;
    forall a ensures OnTheWay(s1, a) == OnTheWay(s, a) {
      PopConserves(c, s.queue, s.table, s.now, a);
    }
  }

  lemma IssueSpaced(c: Config, s: Sys, s1: Sys, p: Packet, r: nat)
    requires c.Sensible() && Shape(c, s) && s.cmdBus.None? && r < c.ranks && RankSpaced(c, s, r, s.now, 0)
    requires Related(c, s, s.now, s.now)
    requires p.rank < c.ranks && p.bank < c.banks && Permitted(c, s.table[p.rank], p, s.now)
    requires Shape(c, s1) && s1.ranks == s.ranks && s1.now == s.now && s1.cmdBus == Some(p)
    requires s1.table == IssueTable(c, s.table, p, s.now)
    ensures RankSpaced(c, s1, r, s.now, 1)
  {
    hide QueueShape, Pipe, IssueTable, Issue;
    var limit := Earliest(c, s, r, s.now, 0);
    BusyBound(c, s.ranks[r]);
    assert p.rank == r && p.kind.IsRead() ==> limit <= s.now by {
      assert BankRel(c, s.table[p.rank][p.bank], View(c, s, p.rank, s.now)[p.bank], s.now);
      assert ReadGap(s.table[p.rank][p.bank], s.now, Earliest(c, s, p.rank, s.now, 0)) || r != p.rank;
    }
    forall j | 0 <= j < c.banks ensures ReadGap(s1.table[r][j], s.now, Earliest(c, s1, r, s.now, 1)) {
      assert BankRel(c, s.table[r][j], View(c, s, r, s.now)[j], s.now);
      IssueKeepsGap(c, s.table[r][j], r, j, p, s.now, limit);
      assert s1.table[r][j] == Issue(c, s.table[r][j], r, j, p, s.now);
    }
  }

  lemma BusyBound(c: Config, rs: RankState)
    requires Pipe(c, rs)
    ensures Busy(c, rs) <= c.RL() + c.Burst()
  {
  }

  /** A read turned into commands becomes pending and queued at the same time. */
  lemma ScheduleReads(c: Config, s: Sys, t: int, e: int)
    requires c.Sensible() && Shape(c, s) && Conserved(s) && Spaced(c, s, t, e) && Schedule(c, s).Ok?
    ensures var s1 := Schedule(c, s).value; s1.now == s.now && Conserved(s1) && Spaced(c, s1, t, e)
  {
    hide Sum, Spaced, QueueShape, Schedule, Queued;
    var s1 := Schedule(c, s).value;
    var i := FirstSchedulable(c, s, 0);
    ScheduleRest(c, s);
    if i < |s.transactions| {
      var tr := s.transactions[i];
      forall a ensures Sum(s1.pendingReads, ReadWeight(a)) == Sum(s.pendingReads, ReadWeight(a)) + ReadWeight(a)(tr)
        ensures OnTheWay(s1, a) == OnTheWay(s, a) + ReadWeight(a)(tr)
        ensures Sum(s1.transactions, ReadWeight(a)) + ReadWeight(a)(tr) == Sum(s.transactions, ReadWeight(a))
      {
        SumRemove(s.transactions, i, ReadWeight(a));
        SumPush(s.pendingReads, tr, ReadWeight(a));
        ScheduleQueued(c, s, a);
      }
    }
    SameSpaced(c, s, s1, t, e);
  }

  lemma ScheduleRest(c: Config, s: Sys)
    requires c.Sensible() && Shape(c, s) && Schedule(c, s).Ok?
    ensures var s1 := Schedule(c, s).value; var i := FirstSchedulable(c, s, 0);
      && s1.now == s.now && s1.table == s.table && s1.ranks == s.ranks && s1.cmdBus == s.cmdBus
      && s1.returned == s.returned
      && s1.history == s.history
      && (i == |s.transactions| ==> s1 == s)
      && (i < |s.transactions| ==>
           && s1.transactions == s.transactions[..i] + s.transactions[i + 1..]
           && s1.pendingReads == if s.transactions[i].isRead then s.pendingReads + [s.transactions[i]]
               else s.pendingReads)
  {
    hide QueueShape;
  }

  lemma ScheduleQueued(c: Config, s: Sys, a: nat)
    requires c.Sensible() && Shape(c, s) && Schedule(c, s).Ok? && FirstSchedulable(c, s, 0) < |s.transactions|
    ensures Queued(Schedule(c, s).value.queue.queues, a)
         == Queued(s.queue.queues, a) + ReadWeight(a)(s.transactions[FirstSchedulable(c, s, 0)])
  {
    hide Sum, Enqueue, LineShape;
    var tr := s.transactions[FirstSchedulable(c, s, 0)];
    SetLineShape(c, s.queue, ActivateFor(tr));
    EnqueueShape(c, s.queue, ActivateFor(tr));
    var q1 := Enqueue(c, s.queue, ActivateFor(tr)).value;
    EnqueueQueued(c, s.queue, ActivateFor(tr), a);
    EnqueueQueued(c, q1, ColumnFor(c, tr), a);
  }

  lemma EnqueueShape(c: Config, q: QueueState, p: Packet)
    requires c.Sensible() && QueueShape(c, q) && Belongs(c, p, p.rank, Slot(c, p.bank))
    ensures Enqueue(c, q, p).Ok? ==> QueueShape(c, Enqueue(c, q, p).value)
  {
    SetLineShape(c, q, p);
  }

  lemma EnqueueQueued(c: Config, q: QueueState, p: Packet, a: nat)
    requires c.Sensible() && QueueShape(c, q) && p.rank < c.ranks && p.bank < c.banks && Enqueue(c, q, p).Ok?
    ensures Queued(Enqueue(c, q, p).value.queues, a) == Queued(q.queues, a) + PacketWeight(a)(p)
  {
    var line := Line(c, q, p.rank, p.bank);
    SumPush(line, p, PacketWeight(a));
    SetLineQueued(c, q, p.rank, p.bank, line + [p], a);
  }

  // ---- the end of a cycle ----

  lemma PowerRankReads(c: Config, s: Sys, i: nat, t: int, e: int)
    requires c.Sensible() && Shape(c, s) && i < c.ranks && PowerRank(c, s, i).Ok?
    requires Conserved(s) && Spaced(c, s, t, e) && SleepAgrees(c, s, i)
    ensures var s1 := PowerRank(c, s, i).value; s1.now == s.now && Conserved(s1) && Spaced(c, s1, t, e)
  {
    var s1 := PowerRank(c, s, i).value;
    PowerRankKeeps(c, s, i);
    hide PowerRank, QueueShape;
    forall a ensures OnTheWay(s1, a) == OnTheWay(s, a) {
      hide SamePipe;
      RanksWeighSame(c, s, s1, a);
    }
    forall r | 0 <= r < c.ranks ensures RankSpaced(c, s1, r, t, e) {
      assert RankSpaced(c, s, r, t, e);
      forall j | 0 <= j < c.banks ensures ReadGap(s1.table[r][j], t, Earliest(c, s1, r, t, e)) {
        assert ReadGap(s.table[r][j], t, Earliest(c, s, r, t, e));
      }
    }
  }

  lemma PowerRankKeeps(c: Config, s: Sys, i: nat)
    requires c.Sensible() && Shape(c, s) && i < c.ranks && PowerRank(c, s, i).Ok? && SleepAgrees(c, s, i)
    ensures var s1 := PowerRank(c, s, i).value;
      && s1.now == s.now && s1.queue == s.queue && s1.cmdBus == s.cmdBus && s1.returned == s.returned
      && s1.pendingReads == s.pendingReads && s1.history == s.history && s1.transactions == s.transactions
      && (forall r :: 0 <= r < c.ranks ==> SamePipe(s.ranks[r], s1.ranks[r]))
      && forall r, j :: 0 <= r < c.ranks && 0 <= j < c.banks ==>
           && s1.table[r][j].nextRead == s.table[r][j].nextRead
           && (s.table[r][j].mode.RowActive? ==> s1.table[r][j] == s.table[r][j])
           && (s1.table[r][j].mode.RowActive? ==> s.table[r][j].mode.RowActive?)
  {
    hide QueueShape;
  }

  lemma RanksWeighSame(c: Config, s: Sys, s1: Sys, a: nat)
    requires |s.ranks| == |s1.ranks| && forall r :: 0 <= r < |s.ranks| ==> SamePipe(s.ranks[r], s1.ranks[r])
    ensures Sum(s1.ranks, RankWeight(a)) == Sum(s.ranks, RankWeight(a))
  {
    SumSame(s.ranks, s1.ranks, RankWeight(a), RankWeight(a));
  }

  lemma PowerRanksReads(c: Config, s: Sys, i: nat, e: int)
    requires c.Sensible() && Shape(c, s) && i <= c.ranks && Conserved(s) && Spaced(c, s, s.now, e)
    requires Related(c, s, s.now + 1, s.now) && BusLegal(c, s, s.now + 1) && AllSleepAgrees(c, s) && BusBusy(c, s)
    ensures PowerRanks(c, s, i).Ok?
    ensures var s1 := PowerRanks(c, s, i).value; s1.now == s.now && Conserved(s1) && Spaced(c, s1, s.now, e)
    decreases c.ranks - i
  {
    hide Shape, Related, BusLegal, BusBusy, Spaced, Conserved, PowerRank, SleepAgrees;
    if i < c.ranks && c.lowPower {
      PowerRankSafe(c, s, i);
      PowerRankReads(c, s, i, s.now, e);
      PowerRanksReads(c, PowerRank(c, s, i).value, i + 1, e);
    }
  }

  /** Data that has come back finds the read that asked for it. */
  lemma ReturnFindsRead(c: Config, s: Sys)
    requires Shape(c, s) && Conserved(s)
    ensures ReturnRead(c, s).Ok? && Conserved(ReturnRead(c, s).value)
  {
    if |s.returned| > 0 {
      var a0 := s.returned[0];
      assert Sum(s.returned, AddrWeight(a0)) >= 1;
      SumPositive(s.pendingReads, ReadWeight(a0));
      var n := FindPending(s.pendingReads, a0, 0);
      assert n < |s.pendingReads|;
      var s1 := ReturnRead(c, s).value;
      ReturnedOne(s, s1, n);
    }
  }

  /** One read leaves what is pending and what has come back, and is answered. */
  lemma ReturnedOne(s: Sys, s1: Sys, n: nat)
    requires Conserved(s) && |s.returned| > 0 && n < |s.pendingReads| && s.pendingReads[n].addr == s.returned[0]
    requires s1 == s.(pendingReads := s.pendingReads[..n] + s.pendingReads[n + 1..], returned := s.returned[1..],
                      history := s.history.(answered := s.history.answered + [s.pendingReads[n].addr]))
    ensures Conserved(s1)
  {
    var a0 := s.returned[0];
    assert s.pendingReads[n].isRead;
    forall a ensures Sum(s1.pendingReads, ReadWeight(a)) == OnTheWay(s1, a)
      ensures Sum(s1.history.accepted, ReadWeight(a))
        == Sum(s1.transactions, ReadWeight(a)) + Sum(s1.pendingReads, ReadWeight(a)) +
            Sum(s1.history.answered, AddrWeight(a))
    {
      SumRemove(s.pendingReads, n, ReadWeight(a));
      SumPush(s.history.answered, a0, AddrWeight(a));
      assert Sum(s.returned, AddrWeight(a)) == AddrWeight(a)(a0) + Sum(s1.returned, AddrWeight(a));
      assert ReadWeight(a)(s.pendingReads[n]) == AddrWeight(a)(a0);
      hide Sum;
      assert OnTheWay(s, a) == OnTheWay(s1, a) + AddrWeight(a)(a0);
    }
  }
}
