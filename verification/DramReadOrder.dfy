/**
 Reads are answered in the order in which they were issued, each exactly when its data has crossed the data bus, in
 every run.
*/
module DramReadOrder {
  import opened Wrappers
  import opened DramTypes
  import opened DramBank
  import opened DramQueue
  import opened DramRank
  import opened DramSystem
  import opened DramSafety
  import opened DramReads
  import DramWrites
  import opened DramTheorems
  import opened DramTimings
  import opened Filters
  import DramOrderTheorems

  /** A read that will be answered, and when. */
  datatype Coming = Coming(addr: nat, at: int)

  /** A cycle on the command bus, the read latency, and the burst. */
  function AnswerAt(c: Config, e: Event): int { e.at + 1 + (c.CL + c.AL) + c.BL / 2 }

  function ComingTo(c: Config, r: nat, t: int): Event -> Option<Coming> {
    (e: Event) =>
      if e.packet.kind.IsRead() && e.packet.rank == r && AnswerAt(c, e) > t then
        Some(Coming(e.packet.addr, AnswerAt(c, e)))
      else None
  }

  function ComingNow(c: Config, r: nat, t: int): Event -> Option<Coming> {
    (e: Event) =>
      if e.packet.kind.IsRead() && e.packet.rank == r && AnswerAt(c, e) == t then
        Some(Coming(e.packet.addr, AnswerAt(c, e)))
      else None
  }

  function AnsweredBy(c: Config, t: int): Event -> Option<nat> {
    (e: Event) => if e.packet.kind.IsRead() && AnswerAt(c, e) <= t then Some(e.packet.addr) else None
  }

  function DueBelow(c: Config, i: nat, t: int): Event -> Option<nat> {
    (e: Event) =>
      if e.packet.kind.IsRead() && e.packet.rank < i && AnswerAt(c, e) == t then Some(e.packet.addr) else None
  }

  predicate Increasing(issued: seq<Event>) { forall i, j :: 0 <= i < j < |issued| ==> issued[i].at < issued[j].at }

  function Addresses(s: seq<Coming>): seq<nat> { seq(|s|, i requires 0 <= i < |s| => s[i].addr) }

  // ---- one cycle later ----

  lemma LastIsLatest(c: Config, issued: seq<Event>, e: Event, t: int, r: nat, i: nat)
    requires Increasing(issued + [e]) && AnswerAt(c, e) <= t
    ensures Filter(issued, ComingTo(c, r, t)) == [] && Filter(issued, ComingNow(c, r, t)) == []
    ensures Filter(issued, DueBelow(c, i, t)) == []
  {
    forall k | 0 <= k < |issued| ensures AnswerAt(c, issued[k]) < AnswerAt(c, e) {
      assert (issued + [e])[k] == issued[k] && (issued + [e])[|issued|] == e;
    }
    FilterNone(issued, ComingTo(c, r, t));
    FilterNone(issued, ComingNow(c, r, t));
    FilterNone(issued, DueBelow(c, i, t));
  }

  lemma IncreasingFront(issued: seq<Event>)
    requires Increasing(issued) && issued != []
    ensures Increasing(issued[..|issued| - 1]) && issued == issued[..|issued| - 1] + [issued[|issued| - 1]]
  {
  }

  /** What is coming to a rank: what comes now, and the rest. */
  lemma {:induction false} SplitComing(c: Config, issued: seq<Event>, r: nat, t: int)
    requires Increasing(issued)
    ensures var now := Filter(issued, ComingNow(c, r, t + 1)); var rest := Filter(issued, ComingTo(c, r, t + 1));
      && Filter(issued, ComingTo(c, r, t)) == now + rest && |now| <= 1
      && (forall k :: 0 <= k < |now| ==> now[k].at == t + 1) && forall k :: 0 <= k < |rest| ==> rest[k].at > t + 1
    decreases |issued|
  {
    hide Filter;
    if issued == [] {
      FilterNone(issued, ComingNow(c, r, t + 1));
      FilterNone(issued, ComingTo(c, r, t + 1));
      FilterNone(issued, ComingTo(c, r, t));
    } else {
      var front, e := issued[..|issued| - 1], issued[|issued| - 1];
      IncreasingFront(issued);
      SplitComing(c, front, r, t);
      FilterPush(front, e, ComingNow(c, r, t + 1));
      FilterPush(front, e, ComingTo(c, r, t + 1));
      FilterPush(front, e, ComingTo(c, r, t));
      if AnswerAt(c, e) <= t + 1 {
        LastIsLatest(c, front, e, t + 1, r, 0);
      }
    }
  }

  /** What has been answered a cycle later. */
  lemma {:induction false} SplitAnswered(c: Config, issued: seq<Event>, i: nat, t: int)
    requires Increasing(issued) && forall k :: 0 <= k < |issued| ==> issued[k].packet.rank < i
    ensures Filter(issued, AnsweredBy(c, t + 1)) ==
      Filter(issued, AnsweredBy(c, t)) + Filter(issued, DueBelow(c, i, t + 1))
    ensures |Filter(issued, DueBelow(c, i, t + 1))| <= 1
    decreases |issued|
  {
    hide Filter;
    if issued == [] {
      FilterNone(issued, AnsweredBy(c, t + 1));
      FilterNone(issued, AnsweredBy(c, t));
      FilterNone(issued, DueBelow(c, i, t + 1));
    } else {
      var front, e := issued[..|issued| - 1], issued[|issued| - 1];
      IncreasingFront(issued);
      SplitAnswered(c, front, i, t);
      FilterPush(front, e, AnsweredBy(c, t + 1));
      FilterPush(front, e, AnsweredBy(c, t));
      FilterPush(front, e, DueBelow(c, i, t + 1));
      if AnswerAt(c, e) <= t + 1 {
        LastIsLatest(c, front, e, t + 1, 0, i);
      }
    }
  }

  /** One rank more. */
  lemma {:induction false} BelowStep(c: Config, issued: seq<Event>, i: nat, t: int)
    requires Increasing(issued)
    ensures Filter(issued, DueBelow(c, i + 1, t)) ==
      Filter(issued, DueBelow(c, i, t)) + Addresses(Filter(issued, ComingNow(c, i, t)))
    decreases |issued|
  {
    hide Filter;
    if issued == [] {
      FilterNone(issued, DueBelow(c, i + 1, t));
      FilterNone(issued, DueBelow(c, i, t));
      FilterNone(issued, ComingNow(c, i, t));
    } else {
      var front, e := issued[..|issued| - 1], issued[|issued| - 1];
      IncreasingFront(issued);
      BelowStep(c, front, i, t);
      FilterPush(front, e, DueBelow(c, i + 1, t));
      FilterPush(front, e, DueBelow(c, i, t));
      FilterPush(front, e, ComingNow(c, i, t));
      if AnswerAt(c, e) <= t {
        LastIsLatest(c, front, e, t, i, i + 1);
        LastIsLatest(c, front, e, t, i, i);
      }
    }
  }

  // ---- one cycle of a rank ----

  function FlightDue(c: Config, q: seq<Return>, t: int): (d: seq<Coming>) {
    seq(|q|, i requires 0 <= i < |q| => Coming(q[i].packet.addr, t + q[i].left + c.BL / 2))
  }

  /** The reads in a rank, with the time of their answers, seen from cycle t. */
  function RankDue(c: Config, rs: RankState, t: int): seq<Coming> {
    (if rs.out.Some? then [Coming(rs.out.value.addr, t + rs.outLeft)] else []) + FlightDue(c, rs.inFlight, t)
  }

  predicate Later(s: seq<Coming>, t: int) { forall k :: 0 <= k < |s| ==> s[k].at > t }

  predicate HeadDue(c: Config, q: seq<Return>, t: int)
    requires |q| > 0
  {
    FlightDue(c, q, t) == [Coming(q[0].packet.addr, t + q[0].left + c.BL / 2)] + FlightDue(c, q[1..], t)
  }

  lemma CountedDue(c: Config, q: seq<Return>, counted: seq<Return>, t: int)
    requires c.Sensible() && |counted| == |q|
    requires forall i :: 0 <= i < |q| ==> counted[i].packet == q[i].packet && counted[i].left + 1 == q[i].left
    ensures FlightDue(c, q, t) == FlightDue(c, counted, t + 1) && Later(FlightDue(c, counted, t + 1), t + 1)
    ensures |counted| > 0 ==> HeadDue(c, counted, t + 1)
  {
  }

  /** The rank hands over what is due in this cycle, and nothing else. */
  lemma AdvanceDue(c: Config, rs: RankState, t: int)
    requires c.Sensible() && Pipe(c, rs)
    ensures var (rs1, sent) := Advance(c, rs);
      && RankDue(c, rs, t) == (if sent.Some? then [Coming(sent.value.addr, t + 1)] else []) + RankDue(c, rs1, t + 1)
      && Later(RankDue(c, rs1, t + 1), t + 1)
  {
    CountKeepsSpacing(c, rs);
    var (d, sent) := DrainSlot(rs);
    var counted := CountReturns(d.inFlight);
    CountedDue(c, rs.inFlight, counted, t);
    SlotFree(c, rs);
    hide Pipe, DrainSlot, CountReturns, FlightDue;
    AdvancedDue(c, rs, d, sent, counted, t);
  }

  lemma SlotFree(c: Config, rs: RankState)
    requires c.Sensible() && Pipe(c, rs)
    ensures rs.out.Some? ==> 1 <= rs.outLeft
    ensures rs.out.Some? && |rs.inFlight| > 0 && rs.inFlight[0].left == 1 ==> rs.outLeft == 1
  {
  }

  lemma AdvancedDue(c: Config, rs: RankState, d: RankState, sent: Option<Packet>, counted: seq<Return>, t: int)
    requires c.Sensible() && Counted(c, rs, d, sent, counted)
    requires rs.out.Some? ==> 1 <= rs.outLeft
    requires rs.out.Some? && |rs.inFlight| > 0 && rs.inFlight[0].left == 1 ==> rs.outLeft == 1
    requires FlightDue(c, rs.inFlight, t) == FlightDue(c, counted, t + 1) && Later(FlightDue(c, counted, t + 1), t + 1)
    requires |counted| > 0 ==> HeadDue(c, counted, t + 1)
    ensures var rs1 := if |counted| > 0 && counted[0].left == 0
                       then d.(out := Some(counted[0].packet), outLeft := c.Burst(), inFlight := counted[1..])
                       else d.(inFlight := counted);
      && RankDue(c, rs, t) == (if sent.Some? then [Coming(sent.value.addr, t + 1)] else []) + RankDue(c, rs1, t + 1)
      && Later(RankDue(c, rs1, t + 1), t + 1)
  {
    hide FlightDue;
    var flight := FlightDue(c, counted, t + 1);
    var slot := if d.out.Some? then [Coming(d.out.value.addr, t + 1 + d.outLeft)] else [];
    var gone := if sent.Some? then [Coming(sent.value.addr, t + 1)] else [];
    assert RankDue(c, rs, t) == gone + (slot + flight);
    if |counted| > 0 && counted[0].left == 0 {
      assert slot == [] && [] + flight == flight;
    }
  }

  // ---- the ranks, one after the other ----

  /** The reads on the way to a rank: in it, or still on the command bus. */
  function OnWay(c: Config, s: Sys, r: nat, t: int, bus: int): seq<Coming>
    requires r < |s.ranks|
  {
    RankDue(c, s.ranks[r], t) + BusDue(c, s, r, bus)
  }

  /** At cycle t rank r holds what is coming to it; the command on the bus was issued at cycle bus. */
  ghost predicate RankOnTime(c: Config, s: Sys, r: nat, t: int, bus: int)
    requires r < |s.ranks|
  {
    OnWay(c, s, r, t, bus) == Filter(s.history.issued, ComingTo(c, r, t))
  }

  lemma HeadTime(a: seq<Coming>, x: seq<Coming>, t: int)
    requires |a| <= 1 && Later(x, t) && forall k :: 0 <= k < |a| ==> a[k].at == t
    ensures var all := a + x;
      && (|a| == 1 <==> all != [] && all[0].at == t)
      && a == all[..|a|] && x == all[|a|..]
  {
    var all := a + x;
    if |a| == 0 && |x| > 0 {
      assert all[0] == x[0];
    }
  }

  lemma SameHead(a: seq<Coming>, x: seq<Coming>, b: seq<Coming>, y: seq<Coming>, t: int)
    requires a + x == b + y && |a| <= 1 && |b| <= 1 && Later(x, t) && Later(y, t)
    requires (forall k :: 0 <= k < |a| ==> a[k].at == t) && forall k :: 0 <= k < |b| ==> b[k].at == t
    ensures a == b && x == y
  {
    HeadTime(a, x, t);
    HeadTime(b, y, t);
  }

  function BusDue(c: Config, s: Sys, r: nat, bus: int): seq<Coming> {
    if BusReads(s, r) then [Coming(s.cmdBus.value.addr, bus + 1 + (c.CL + c.AL) + c.BL / 2)] else []
  }

  lemma HandedOver(c: Config, issued: seq<Event>, r: nat, before: seq<Coming>, after: seq<Coming>, bus: seq<Coming>,
      sent: seq<Coming>, t: int)
    requires c.Sensible() && Increasing(issued) && before == sent + after && Later(after, t + 1) && Later(bus, t + 1)
    requires |sent| <= 1 && forall k :: 0 <= k < |sent| ==> sent[k].at == t + 1
    requires before + bus == Filter(issued, ComingTo(c, r, t))
    ensures after + bus == Filter(issued, ComingTo(c, r, t + 1)) && sent == Filter(issued, ComingNow(c, r, t + 1))
  {
    SplitComing(c, issued, r, t);
    hide Filter;
    assert sent + (after + bus) == before + bus;
    assert Later(after + bus, t + 1);
    SameHead(sent, after + bus, Filter(issued, ComingNow(c, r, t + 1)), Filter(issued, ComingTo(c, r, t + 1)), t + 1);
  }

  /** One rank moves on, and hands over what is due. */
  lemma AdvanceRankOnTime(c: Config, s: Sys, i: nat, t: int)
    requires c.Sensible() && Shape(c, s) && i < c.ranks && Pipe(c, s.ranks[i]) && AdvanceRank(c, s, i).Ok?
    requires Increasing(s.history.issued) && RankOnTime(c, s, i, t, t)
    ensures var s1 := AdvanceRank(c, s, i).value;
      && RankOnTime(c, s1, i, t + 1, t)
      && s1.returned == s.returned + Addresses(Filter(s.history.issued, ComingNow(c, i, t + 1)))
      && s1.history == s.history && s1.cmdBus == s.cmdBus
      && forall r :: 0 <= r < c.ranks && r != i ==> s1.ranks[r] == s.ranks[r]
  {
    hide RankDue, Filter, Pipe, QueueShape, Advance;
    var (rs1, packet) := Advance(c, s.ranks[i]);
    AdvanceDue(c, s.ranks[i], t);
    var sent := if packet.Some? then [Coming(packet.value.addr, t + 1)] else [];
    HandedOver(c, s.history.issued, i, RankDue(c, s.ranks[i], t), RankDue(c, rs1, t + 1), BusDue(c, s, i, t), sent, t);
    assert Addresses(sent) == if packet.Some? then [packet.value.addr] else [];
  }

  /** Every rank holds what is coming to it. */
  ghost predicate AllOnTime(c: Config, s: Sys, t: int, bus: int)
    requires Shape(c, s)
  {
    forall r :: 0 <= r < c.ranks ==> RankOnTime(c, s, r, t, bus)
  }

  lemma {:induction false} AdvanceRanksOnTime(c: Config, s: Sys, i: nat, t: int, t1: int)
    requires c.Sensible() && Shape(c, s) && i <= c.ranks && AdvanceRanks(c, s, i).Ok? && t1 == t + 1
    requires Increasing(s.history.issued) && forall r :: i <= r < c.ranks ==> Pipe(c, s.ranks[r])
    requires forall r :: 0 <= r < i ==> RankOnTime(c, s, r, t1, t)
    requires forall r :: i <= r < c.ranks ==> RankOnTime(c, s, r, t, t)
    requires s.returned == Filter(s.history.issued, DueBelow(c, i, t1))
    ensures var s1 := AdvanceRanks(c, s, i).value;
      && AllOnTime(c, s1, t1, t) && s1.history == s.history && s1.cmdBus == s.cmdBus
      && s1.returned == Filter(s.history.issued, DueBelow(c, c.ranks, t1))
    decreases c.ranks - i
  {
    hide QueueShape, Advance, Filter, Pipe, RankDue, AdvanceRank;
    if i < c.ranks {
      var s1 := AdvanceRank(c, s, i).value;
      AdvanceRankOnTime(c, s, i, t);
      BelowStep(c, s.history.issued, i, t1);
      forall r | 0 <= r < i ensures RankOnTime(c, s1, r, t1, t) {
        assert RankOnTime(c, s, r, t1, t);
      }
      forall r | i < r < c.ranks ensures RankOnTime(c, s1, r, t, t) {
        assert RankOnTime(c, s, r, t, t);
      }
      AdvanceRanksOnTime(c, s1, i + 1, t, t1);
    }
  }

  // ---- the invariant ----

  /** Between two updates: what was due has been answered, in the order of the commands, and nothing else. */
  ghost predicate Answered(c: Config, s: Sys)
    requires Shape(c, s)
  {
    && AllOnTime(c, s, s.now - 1, s.now - 1) && s.returned == []
    && s.history.answered == Filter(s.history.issued, AnsweredBy(c, s.now - 1))
    && Increasing(s.history.issued) && Sent(c, s.history.issued, s.now)
  }

  /** Inside an update: what has come back is still to be answered. */
  ghost predicate CameBack(c: Config, s: Sys, bus: int)
    requires Shape(c, s)
  {
    && AllOnTime(c, s, s.now, bus)
    && s.returned == Filter(s.history.issued, DueBelow(c, c.ranks, s.now))
    && s.history.answered == Filter(s.history.issued, AnsweredBy(c, s.now - 1))
    && Increasing(s.history.issued) && bus >= -1 && Sent(c, s.history.issued, bus + 1)
  }

  /** Phases that leave the reads and the history of commands alone. */
  lemma SameCameBack(c: Config, s: Sys, s1: Sys, bus: int)
    requires Shape(c, s) && Shape(c, s1) && CameBack(c, s, bus)
    requires s1.now == s.now && s1.cmdBus == s.cmdBus && s1.returned == s.returned
    requires s1.history.issued == s.history.issued && s1.history.answered == s.history.answered
    requires forall r :: 0 <= r < c.ranks ==> SamePipe(s.ranks[r], s1.ranks[r])
    ensures CameBack(c, s1, bus)
  {
    hide QueueShape, Filter, FlightDue, Sent;
    forall r | 0 <= r < c.ranks ensures RankOnTime(c, s1, r, s.now, bus) {
      assert RankOnTime(c, s, r, s.now, bus);
    }
  }

  lemma ArriveAnswers(c: Config, s: Sys)
    requires c.Sensible() && Shape(c, s) && Answered(c, s) && Spaced(c, s, s.now - 1, 1) && Arrive(c, s).Ok?
    ensures Arrive(c, s).value.now == s.now && CameBack(c, Arrive(c, s).value, s.now - 1)
  {
    hide QueueShape, Filter, Pipe, RankDue, AdvanceRanks, ReadGap;
    forall r | 0 <= r < c.ranks ensures Pipe(c, s.ranks[r]) {
      assert RankSpaced(c, s, r, s.now - 1, 1);
    }
    FilterNothing(s.history.issued, c, s.now);
    AdvanceRanksOnTime(c, s, 0, s.now - 1, s.now);
    var s1 := AdvanceRanks(c, s, 0).value;
    DramOrderTheorems.AdvanceRanksOrder(c, s, 0);
    assert CameBack(c, s1, s.now - 1);
    SameCameBack(c, s1, Arrive(c, s).value, s.now - 1);
  }

  lemma FilterNothing(issued: seq<Event>, c: Config, t: int)
    ensures Filter(issued, DueBelow(c, 0, t)) == []
  {
    FilterNone(issued, DueBelow(c, 0, t));
  }

  lemma ReceiveDue(c: Config, rs: RankState, p: Packet, now: nat)
    requires c.Sensible() && Receive(c, rs, p, now).Ok?
    ensures RankDue(c, Receive(c, rs, p, now).value, now) == RankDue(c, rs, now) +
      if p.kind.IsRead() then [Coming(p.addr, now + (c.CL + c.AL) + c.BL / 2)] else []
  {
    var rs1 := Receive(c, rs, p, now).value;
    if p.kind.IsRead() {
      var x := Return(p.(kind := Data), c.RL());
      assert FlightDue(c, rs.inFlight + [x], now) ==
        FlightDue(c, rs.inFlight, now) + [Coming(p.addr, now + (c.CL + c.AL) + c.BL / 2)];
    }
  }

  lemma DeliverRank(c: Config, s: Sys, r: nat, bus: int)
    requires c.Sensible() && Shape(c, s) && r < c.ranks && RankOnTime(c, s, r, s.now, bus) && bus == s.now - 1
    requires DeliverCommand(c, s).Ok? && DeliverCommand(c, s).value.cmdBus.None?
    ensures RankOnTime(c, DeliverCommand(c, s).value, r, s.now, bus)
  {
    hide QueueShape, Filter, Receive, RankDue;
    var s1 := DeliverCommand(c, s).value;
    assert RankDue(c, s1.ranks[r], s.now) + [] == RankDue(c, s1.ranks[r], s.now);
    if s.cmdBus.Some? && s.cmdBus.value.rank == r {
      ReceiveDue(c, s.ranks[r], s.cmdBus.value, s.now);
    }
  }

  lemma DeliverKeeps(c: Config, s: Sys)
    requires c.Sensible() && Shape(c, s) && DeliverCommand(c, s).Ok?
    ensures var s1 := DeliverCommand(c, s).value;
      s1.returned == s.returned && s1.history == s.history && s1.now == s.now
  {
    hide QueueShape, Receive;
  }

  lemma DeliverAnswers(c: Config, s: Sys)
    requires c.Sensible() && Shape(c, s) && CameBack(c, s, s.now - 1) && DeliverCommand(c, s).Ok?
    requires DeliverCommand(c, s).value.cmdBus.None?
    ensures CameBack(c, DeliverCommand(c, s).value, s.now - 1)
  {
    hide QueueShape, Filter, DeliverCommand, Sent, RankOnTime;
    var s1 := DeliverCommand(c, s).value;
    DeliverKeeps(c, s);
    var bus := s.now - 1;
    forall r | 0 <= r < c.ranks ensures RankOnTime(c, s1, r, s.now, bus) {
      assert RankOnTime(c, s, r, s.now, bus);
      DeliverRank(c, s, r, bus);
    }
  }

  lemma BusesAnswer(c: Config, s: Sys)
    requires c.Sensible() && Shape(c, s) && CameBack(c, s, s.now - 1) && MoveBuses(c, s).Ok?
    requires DeliverCommand(c, s).Ok? && DeliverCommand(c, s).value.cmdBus.None?
    ensures MoveBuses(c, s).value.now == s.now && CameBack(c, MoveBuses(c, s).value, s.now - 1)
  {
    DeliverAnswers(c, s);
    var s1 := DeliverCommand(c, s).value;
    var s2 := DeliverData(c, s1).value;
    DeliverDataReads(c, s1);
    KeptHistory(c, s1);
    hide QueueShape, CameBack, DeliverCommand, DeliverData;
    SameCameBack(c, s1, s2, s.now - 1);
    SameCameBack(c, s2, SendData(c, s2).value, s.now - 1);
  }

  lemma KeptHistory(c: Config, s: Sys)
    requires c.Sensible() && Shape(c, s)
    ensures DeliverData(c, s).Ok? ==> DeliverData(c, s).value.history == s.history
  {
    hide QueueShape, Receive;
  }

  /** A read that is issued is on the bus, and due as late as its command asks for. */
  lemma IssueAnswers(c: Config, s: Sys, s1: Sys, p: Packet)
    requires c.Sensible() && Shape(c, s) && Shape(c, s1) && CameBack(c, s, s.now - 1) && s.cmdBus.None?
    requires p.rank < c.ranks && p.bank < c.banks && s1.cmdBus == Some(p) && s1.ranks == s.ranks && s1.now == s.now
    requires s1.returned == s.returned && s1.history.answered == s.history.answered
    requires s1.history.issued == s.history.issued + [Event(p, s.now)]
    ensures CameBack(c, s1, s.now)
  {
    var e := Event(p, s.now);
    FilterPush(s.history.issued, e, DueBelow(c, c.ranks, s.now));
    FilterPush(s.history.issued, e, AnsweredBy(c, s.now - 1));
    hide QueueShape, Filter, RankDue;
    forall r | 0 <= r < c.ranks ensures RankOnTime(c, s1, r, s.now, s.now) {
      assert RankOnTime(c, s, r, s.now, s.now - 1);
      FilterPush(s.history.issued, e, ComingTo(c, r, s.now));
      assert RankDue(c, s.ranks[r], s.now) + [] == RankDue(c, s.ranks[r], s.now);
    }
  }

  lemma NothingIssued(c: Config, s: Sys, s1: Sys)
    requires Shape(c, s) && Shape(c, s1) && CameBack(c, s, s.now - 1) && s.cmdBus.None? && s1.cmdBus.None?
    requires s1.ranks == s.ranks && s1.now == s.now && s1.returned == s.returned
    requires s1.history == s.history
    ensures CameBack(c, s1, s.now)
  {
    hide QueueShape, Filter, RankDue;
    forall r | 0 <= r < c.ranks ensures RankOnTime(c, s1, r, s.now, s.now) {
      assert RankOnTime(c, s, r, s.now, s.now - 1);
    }
  }

  lemma IssueNextAnswers(c: Config, s: Sys)
    requires c.Sensible() && Shape(c, s) && s.cmdBus.None? && AllSleepAgrees(c, s) && IssueNext(c, s).Ok?
    requires CameBack(c, s, s.now - 1)
    ensures CameBack(c, IssueNext(c, s).value, s.now) && IssueNext(c, s).value.now == s.now
  {
    var s1 := IssueNext(c, s).value;
    var popped := Pop(c, s.queue, s.table, s.now).1;
    if popped.Some? {
      WholeRanksOf(c, s);
      PoppedIsPermitted(c, s.queue, s.table, s.now);
      hide Pop, QueueShape, CameBack, Permitted, TableShape;
      IssueAnswers(c, s, s1, popped.value);
    } else {
      hide Pop, QueueShape, CameBack, TableShape;
      NothingIssued(c, s, s1);
    }
  }

  /** What has come back is answered; it is one read at most. */
  lemma ReturnEffect(c: Config, s: Sys)
    requires Shape(c, s) && ReturnRead(c, s).Ok? && |s.returned| <= 1
    ensures var s1 := ReturnRead(c, s).value;
      && s1.returned == [] && s1.history.answered == s.history.answered + s.returned
      && s1.history.issued == s.history.issued && s1.ranks == s.ranks && s1.cmdBus == s.cmdBus && s1.now == s.now
  {
    hide QueueShape;
    if |s.returned| == 1 {
      var n := FindPending(s.pendingReads, s.returned[0], 0);
      assert s.returned == [s.returned[0]] && s.returned[1..] == [];
    } else {
      assert s.returned == [] && s.history.answered + [] == s.history.answered;
    }
  }

  /** The read that has come back is answered in the same update. */
  lemma ReturnAnswers(c: Config, s: Sys)
    requires c.Sensible() && Shape(c, s) && CameBack(c, s, s.now) && ReturnRead(c, s).Ok?
    ensures var s1 := EndCycle(c, ReturnRead(c, s).value); Answered(c, s1) && s1.now == s.now + 1
  {
    var s1 := ReturnRead(c, s).value;
    SplitAnswered(c, s.history.issued, c.ranks, s.now - 1);
    ReturnEffect(c, s);
    hide QueueShape, Filter, RankDue, ReturnRead;
    forall r | 0 <= r < c.ranks ensures RankOnTime(c, EndCycle(c, s1), r, s.now, s.now) {
      assert RankOnTime(c, s, r, s.now, s.now);
    }
  }

  // ---- steps and runs ----

  predicate SameButPower(c: Config, s: Sys, s1: Sys)
    requires Shape(c, s) && Shape(c, s1)
  {
    && s1.now == s.now && s1.cmdBus == s.cmdBus && s1.returned == s.returned && s1.history == s.history
    && forall r :: 0 <= r < c.ranks ==> SamePipe(s.ranks[r], s1.ranks[r])
  }

  lemma PowerRankPipes(c: Config, s: Sys, i: nat)
    requires c.Sensible() && Shape(c, s) && i < c.ranks && PowerRank(c, s, i).Ok?
    ensures SameButPower(c, s, PowerRank(c, s, i).value)
  {
    hide QueueShape, WakeBanks, SleepBanks;
  }

  lemma {:induction false} PowerRanksPipes(c: Config, s: Sys, i: nat)
    requires c.Sensible() && Shape(c, s) && i <= c.ranks && PowerRanks(c, s, i).Ok?
    ensures SameButPower(c, s, PowerRanks(c, s, i).value)
    decreases c.ranks - i
  {
    hide QueueShape, PowerRank;
    if i < c.ranks && c.lowPower {
      PowerRankPipes(c, s, i);
      PowerRanksPipes(c, PowerRank(c, s, i).value, i + 1);
    }
  }

  lemma CloseAnswers(c: Config, s: Sys)
    requires c.Sensible() && Shape(c, s) && CameBack(c, s, s.now) && Close(c, s).Ok?
    ensures Answered(c, Close(c, s).value) && Close(c, s).value.now == s.now + 1
  {
    hide QueueShape, CameBack, PowerRanks, ReturnRead, EndCycle, Answered;
    PowerRanksPipes(c, s, 0);
    var s1 := PowerRanks(c, s, 0).value;
    SameCameBack(c, s, s1, s.now);
    ReturnAnswers(c, s1);
  }

  lemma ScheduleAnswers(c: Config, s: Sys)
    requires c.Sensible() && Shape(c, s) && Schedule(c, s).Ok?
    ensures var s1 := Schedule(c, s).value;
      s1.now == s.now && s1.cmdBus == s.cmdBus && s1.returned == s.returned && s1.history == s.history &&
      s1.ranks == s.ranks
  {
    hide QueueShape, Enqueue, FirstSchedulable;
  }

  lemma TimerAnswers(c: Config, s: Sys)
    requires c.Sensible() && Shape(c, s)
    ensures var s1 := RefreshTimer(c, s);
      && s1.now == s.now && s1.cmdBus == s.cmdBus && s1.returned == s.returned && s1.history == s.history
      && forall r :: 0 <= r < c.ranks ==> SamePipe(s.ranks[r], s1.ranks[r])
  {
    hide QueueShape;
  }

  lemma InsideParts(c: Config, s: Sys)
    requires c.Sensible() && Shape(c, s) && GoodInside(c, s)
    ensures s.cmdBus.None? && AllSleepAgrees(c, s)
  {
  }

  lemma StartParts(c: Config, s: Sys)
    requires c.Sensible() && Shape(c, s) && Good(c, s)
    ensures Spaced(c, s, s.now - 1, 1)
  {
  }

  /** The command on the bus is always delivered, and leaves it free. */
  lemma Delivered(c: Config, s: Sys)
    requires c.Sensible() && Shape(c, s) && Good(c, s) && Arrive(c, s).Ok?
    ensures var s1 := Arrive(c, s).value; DeliverCommand(c, s1).Ok? && DeliverCommand(c, s1).value.cmdBus.None?
  {
    hide QueueShape, ReadsOk, DepthOk, DramWrites.WritesOk, Related, BusLegal, AllSleepAgrees, Arrive, DeliverCommand;
    ArriveSafe(c, s);
    DeliverCommandSafe(c, Arrive(c, s).value, s.now);
  }

  lemma StepAnswers(c: Config, s: Sys)
    requires c.Sensible() && Shape(c, s) && Good(c, s) && Answered(c, s) && Step(c, s).Ok?
    ensures Answered(c, Step(c, s).value)
  {
    hide Shape, Good, GoodInside, GoodIssued, Answered, CameBack, Arrive, MoveBuses, DeliverCommand,
      IssueNext, Schedule,
      Close, RefreshTimer, Spaced, AllSleepAgrees;
    FirstHalfGood(c, s);
    StartParts(c, s);
    Delivered(c, s);
    var s1 := Arrive(c, s).value;
    var s2 := MoveBuses(c, s1).value;
    var s3 := RefreshTimer(c, s2);
    var s4 := IssueNext(c, s3).value;
    var s5 := Schedule(c, s4).value;
    ArriveAnswers(c, s);
    BusesAnswer(c, s1);
    TimerAnswers(c, s2);
    SameCameBack(c, s2, s3, s.now - 1);
    RefreshTimerGood(c, s2);
    InsideParts(c, s3);
    IssueNextAnswers(c, s3);
    IssueNextGood(c, s3);
    ScheduleAnswers(c, s4);
    SameCameBack(c, s4, s5, s.now);
    CloseAnswers(c, s5);
  }

  lemma {:induction false} RunAnswers(c: Config, s: Sys, ops: seq<Op>)
    requires c.Sensible() && Shape(c, s) && Good(c, s) && DramOrderTheorems.Orderly(c, s, s.now - 1)
    requires Answered(c, s) && forall i :: 0 <= i < |ops| ==> ValidOp(c, ops[i])
    requires Run(c, s, ops).Ok?
    ensures Answered(c, Run(c, s, ops).value)
    decreases |ops|
  {
    hide Shape, Good, Step, DramOrderTheorems.Orderly, Answered, Submit, Offer;
    if ops != [] {
      var s1 := Do(c, s, ops[0]).value;
      match ops[0] {
        case Request(t) =>
          OfferGood(c, s, t);
          DramOrderTheorems.SubmitOrderly(c, s, t);
          SubmitAnswers(c, s, t);
        case Direct(t) =>
          OfferGood(c, s, t);
          DramOrderTheorems.SubmitOrderly(c, s, t);
          SubmitAnswers(c, s, t);
        case Cycle =>
          StepGood(c, s);
          DramOrderTheorems.StepOrderly(c, s);
          StepAnswers(c, s);
      }
      RunAnswers(c, s1, ops[1..]);
    }
  }

  lemma SubmitAnswers(c: Config, s: Sys, t: Transaction)
    requires c.Sensible() && Shape(c, s) && Answered(c, s) && Placed(c, t)
    ensures Answered(c, Submit(c, s, t)) && Answered(c, Offer(c, s, t))
  {
    hide QueueShape, Filter, RankDue;
    var bus := s.now - 1;
    forall r | 0 <= r < c.ranks
      ensures RankOnTime(c, Submit(c, s, t), r, bus, bus) && RankOnTime(c, Offer(c, s, t), r, bus, bus)
    {
      assert RankOnTime(c, s, r, bus, bus);
    }
  }

  lemma NothingAnswered(c: Config, s: Sys)
    requires c.Sensible() && Initial(c, s)
    ensures Answered(c, s)
  {
    hide QueueShape, InitialQueue;
  }

  /**
   In every run, after every update exactly those reads have been answered whose command was issued so long ago that
   it has crossed the command bus, the read latency is over, and the data has crossed the data bus; and the
   answers are in the order of the commands.
  */
  lemma ReadDataOnTime(c: Config, s: Sys, ops: seq<Op>)
    requires c.Sensible() && Initial(c, s) && forall i :: 0 <= i < |ops| ==> ValidOp(c, ops[i])
    requires Run(c, s, ops).Ok?
    ensures var e := Run(c, s, ops).value;
      e.returned == [] && e.history.answered == Filter(e.history.issued, AnsweredBy(c, e.now - 1))
  {
    hide Run, Good, DramOrderTheorems.Orderly, QueueShape, InitialQueue, Filter;
    InitialGood(c, s);
    DramOrderTheorems.InitialOrderly(c, s);
    NothingAnswered(c, s);
    RunAnswers(c, s, ops);
  }
}
