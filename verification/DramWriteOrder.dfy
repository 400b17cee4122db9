/**
 Write data leaves in the order in which the writes were issued, each exactly the write latency after its
 command, in every run that does not end in the collision of write data.
*/
module DramWriteOrder {
  import opened Wrappers
  import opened DramTypes
  import opened DramQueue
  import opened DramRank
  import opened DramSystem
  import opened DramWrites
  import opened DramTheorems

  // ---- issued writes and their data ----

  /** The data events that the issued writes call for. */
  function DataOf(c: Config, issued: seq<Event>): seq<Event>
    requires c.Sensible()
  {
    if issued == [] then []
    else
      var last := issued[|issued| - 1];
      var front := DataOf(c, issued[..|issued| - 1]);
      if last.packet.kind.IsWrite() then front + [Event(last.packet.(kind := Data), last.at + c.WL())] else front
  }

  lemma DataOfPush(c: Config, issued: seq<Event>, e: Event)
    requires c.Sensible()
    ensures DataOf(c, issued + [e]) ==
      if e.packet.kind.IsWrite() then DataOf(c, issued) + [Event(e.packet.(kind := Data), e.at + c.WL())]
          else DataOf(c, issued)
  {
    assert (issued + [e])[..|issued|] == issued;
  }

  /** When the waiting write data will go, seen from the countdown at cycle t. */
  function Due(writes: seq<Return>, t: int): (r: seq<Event>)
    requires t >= -1 && forall i :: 0 <= i < |writes| ==> writes[i].left >= 1
    ensures |r| == |writes|
    ensures forall i :: 0 <= i < |writes| ==> r[i] == Event(writes[i].packet, t + writes[i].left)
  {
    seq(|writes|, i requires 0 <= i < |writes| => Event(writes[i].packet, t + writes[i].left))
  }

  /** The writes under way are due one after the other, the last in less than WL + e cycles. */
  predicate InTurn(c: Config, writes: seq<Return>, e: int) {
    && (forall i :: 0 <= i < |writes| ==> 1 <= writes[i].left < c.WL() + e)
    && forall i :: 0 < i < |writes| ==> writes[i - 1].left < writes[i].left
  }

  /**
   What has been sent, none of it after cycle t, and what is due are together what was issued; e is one once
   this cycle's command has been issued.
  */
  ghost predicate DataOnTime(c: Config, s: Sys, t: int, e: int)
    requires c.Sensible() && t >= -1
  {
    && InTurn(c, s.writes, e) && (forall i :: 0 <= i < |s.history.writeData| ==> s.history.writeData[i].at <= t)
    && s.history.writeData + Due(s.writes, t) == DataOf(c, s.history.issued)
  }

  lemma SameOnTime(c: Config, s: Sys, s1: Sys, t: int, e: int)
    requires c.Sensible() && SameWrites(s, s1) && t >= -1 && DataOnTime(c, s, t, e)
    ensures DataOnTime(c, s1, t, e)
  {
  }

  // ---- sending ----

  lemma SendDataEffect(c: Config, s: Sys, counted: seq<Return>)
    requires Shape(c, s) && SendData(c, s).Ok? && counted == CountReturns(s.writes)
    ensures var s1 := SendData(c, s).value; var due := |counted| > 0 && counted[0].left == 0;
      && s1.writes == (if due then counted[1..] else counted) && s1.history.issued == s.history.issued
      && s1.history.writeData == s.history.writeData + if due then [Event(counted[0].packet, s.now)] else []
  {
  }

  lemma EffectOnTime(sent: seq<Event>, writes: seq<Return>, counted: seq<Return>, t: int, all: seq<Event>)
    requires t >= -1 && |counted| == |writes|
    requires forall i :: 0 <= i < |writes| ==> writes[i].left >= 1
    requires forall i :: 0 <= i < |counted| ==>
      counted[i].packet == writes[i].packet && counted[i].left + 1 == writes[i].left && (i > 0 ==> counted[i].left >= 1)
    requires sent + Due(writes, t) == all
    ensures |counted| > 0 && counted[0].left == 0 ==>
      && (forall i :: 0 <= i < |counted[1..]| ==> counted[1..][i].left >= 1)
      && (sent + [Event(counted[0].packet, t + 1)]) + Due(counted[1..], t + 1) == all
    ensures !(|counted| > 0 && counted[0].left == 0) ==>
      && (forall i :: 0 <= i < |counted| ==> counted[i].left >= 1)
      && sent + Due(counted, t + 1) == all
  {
    DueShift(writes, counted, t);
    if |counted| > 0 && counted[0].left == 0 {
      var e := Event(counted[0].packet, t + 1);
      assert sent + ([e] + Due(counted[1..], t + 1)) == (sent + [e]) + Due(counted[1..], t + 1);
    }
  }

  /** After one more countdown the head is due now, or everything is due when it was before. */
  lemma DueShift(writes: seq<Return>, counted: seq<Return>, t: int)
    requires t >= -1 && |counted| == |writes|
    requires forall i :: 0 <= i < |writes| ==> writes[i].left >= 1
    requires forall i :: 0 <= i < |counted| ==>
      counted[i].packet == writes[i].packet && counted[i].left + 1 == writes[i].left && (i > 0 ==> counted[i].left >= 1)
    ensures |counted| > 0 && counted[0].left == 0 ==>
      && (forall i :: 0 <= i < |counted[1..]| ==> counted[1..][i].left >= 1)
      && Due(writes, t) == [Event(counted[0].packet, t + 1)] + Due(counted[1..], t + 1)
    ensures !(|counted| > 0 && counted[0].left == 0) ==>
      && (forall i :: 0 <= i < |counted| ==> counted[i].left >= 1)
      && Due(writes, t) == Due(counted, t + 1)
  {
  }

  /** A command per cycle at most: no two writes are due together. */
  lemma CountedWrites(c: Config, writes: seq<Return>, counted: seq<Return>)
    requires c.Sensible() && counted == CountReturns(writes) && InTurn(c, writes, 1)
    ensures |counted| == |writes|
    ensures forall i :: 0 <= i < |counted| ==>
      counted[i].packet == writes[i].packet && counted[i].left + 1 == writes[i].left && (i > 0 ==> counted[i].left >= 1)
    ensures InTurn(c, if |counted| > 0 && counted[0].left == 0 then counted[1..] else counted, 0)
  {
    forall i | 0 < i < |counted| ensures counted[i].left >= 1 && counted[i - 1].left < counted[i].left {
      assert writes[i - 1].left >= 1 && writes[i - 1].left < writes[i].left;
    }
  }

  lemma SentOnTime(c: Config, s: Sys)
    requires c.Sensible() && Shape(c, s) && DataOnTime(c, s, s.now - 1, 1) && SendData(c, s).Ok?
    ensures DataOnTime(c, SendData(c, s).value, s.now, 0) && SendData(c, s).value.now == s.now
  {
    var counted := CountReturns(s.writes);
    CountedWrites(c, s.writes, counted);
    SendDataEffect(c, s, counted);
    SendKeepsNow(c, s);
    hide Shape, SendData, CountReturns, InTurn;
    InTurnLeft(c, s.writes, 1);
    EffectOnTime(s.history.writeData, s.writes, counted, s.now - 1, DataOf(c, s.history.issued));
    hide DataOf, Due;
  }

  lemma InTurnLeft(c: Config, writes: seq<Return>, e: int)
    requires InTurn(c, writes, e)
    ensures forall i :: 0 <= i < |writes| ==> writes[i].left >= 1
  {
  }

  lemma SendKeepsNow(c: Config, s: Sys)
    requires Shape(c, s) && SendData(c, s).Ok?
    ensures SendData(c, s).value.now == s.now
  {
    hide Shape;
  }

  lemma DeliverDataWrites(c: Config, s: Sys)
    requires c.Sensible() && Shape(c, s) && DeliverData(c, s).Ok?
    ensures var s1 := DeliverData(c, s).value; s1.now == s.now && s1.writes == s.writes && s1.history == s.history
  {
    hide Shape, Receive;
  }

  lemma MoveBusesOnTime(c: Config, s: Sys)
    requires c.Sensible() && Shape(c, s) && DataOnTime(c, s, s.now - 1, 1) && MoveBuses(c, s).Ok?
    ensures DataOnTime(c, MoveBuses(c, s).value, s.now, 0) && MoveBuses(c, s).value.now == s.now
  {
    hide Shape, DeliverCommand, DeliverData, SendData, InTurn, Due, DataOf;
    DeliverCommandWrites(c, s);
    var s1 := DeliverCommand(c, s).value;
    DeliverDataWrites(c, s1);
    SentOnTime(c, DeliverData(c, s1).value);
  }

  // ---- issuing ----

  lemma DuePush(writes: seq<Return>, p: Packet, left: nat, t: int)
    requires t >= -1 && left >= 1 && forall i :: 0 <= i < |writes| ==> writes[i].left >= 1
    ensures Due(writes + [Return(p, left)], t) == Due(writes, t) + [Event(p, t + left)]
  {
  }

  lemma IssueOnTime(c: Config, s: Sys)
    requires c.Sensible() && Shape(c, s) && DataOnTime(c, s, s.now, 0) && IssueNext(c, s).Ok?
    ensures DataOnTime(c, IssueNext(c, s).value, s.now, 1) && IssueNext(c, s).value.now == s.now
  {
    hide Pop, QueueShape, TableShape, IssueTable;
    var popped := Pop(c, s.queue, s.table, s.now).1;
    if popped.Some? {
      PushOnTime(c, s, IssueNext(c, s).value, popped.value);
    }
  }

  lemma PushOnTime(c: Config, s: Sys, s1: Sys, p: Packet)
    requires c.Sensible() && DataOnTime(c, s, s.now, 0)
    requires s1.writes == if p.kind.IsWrite() then s.writes + [Return(p.(kind := Data), c.WL())] else s.writes
    requires s1.history == s.history.(issued := s.history.issued + [Event(p, s.now)]) && s1.now == s.now
    ensures DataOnTime(c, s1, s.now, 1)
  {
    hide DataOf, Due;
    DataOfPush(c, s.history.issued, Event(p, s.now));
    if p.kind.IsWrite() {
      var data := Event(p.(kind := Data), s.now + c.WL());
      DuePush(s.writes, p.(kind := Data), c.WL(), s.now);
      assert s.history.writeData + (Due(s.writes, s.now) + [data]) ==
        (s.history.writeData + Due(s.writes, s.now)) + [data];
    }
  }

  // ---- steps and runs ----

  lemma CloseWrites(c: Config, s: Sys)
    requires c.Sensible() && Shape(c, s) && Close(c, s).Ok?
    ensures var e := Close(c, s).value; e.now == s.now + 1 && SameWrites(s, e.(now := s.now))
  {
    hide QueueShape, PowerRanks, ReturnRead;
    PowerRanksRest(c, s, 0);
    ReturnReadQueue(c, PowerRanks(c, s, 0).value);
  }

  lemma StepOnTime(c: Config, s: Sys)
    requires c.Sensible() && Shape(c, s) && DataOnTime(c, s, s.now - 1, 1) && Step(c, s).Ok?
    ensures var e := Step(c, s).value; e.now == s.now + 1 && DataOnTime(c, e, s.now, 1)
  {
    hide Shape, Arrive, MoveBuses, RefreshTimer, IssueNext, Schedule, Close, DataOnTime;
    var s1 := Arrive(c, s).value;
    ArriveSame(c, s);
    SameOnTime(c, s, s1, s.now - 1, 1);
    MoveBusesOnTime(c, s1);
    var s2 := MoveBuses(c, s1).value;
    var s3 := RefreshTimer(c, s2);
    RefreshTimerReads(c, s2);
    SameOnTime(c, s2, s3, s.now, 0);
    IssueOnTime(c, s3);
    var s4 := IssueNext(c, s3).value;
    var s5 := Schedule(c, s4).value;
    ScheduleWrites(c, s4);
    SameOnTime(c, s4, s5, s.now, 1);
    CloseWrites(c, s5);
    var e := Close(c, s5).value;
    SameOnTime(c, s5, e.(now := s5.now), s.now, 1);
    LaterOnTime(c, e, s5.now, s.now);
  }

  lemma LaterOnTime(c: Config, s: Sys, now: nat, t: int)
    requires c.Sensible() && t >= -1 && DataOnTime(c, s.(now := now), t, 1)
    ensures DataOnTime(c, s, t, 1)
  {
  }

  lemma OfferWrites(c: Config, s: Sys, t: Transaction)
    requires Shape(c, s) && Placed(c, t)
    ensures SameWrites(s, Offer(c, s, t)) && SameWrites(s, Submit(c, s, t))
  {
    hide QueueShape;
  }

  lemma {:induction false} RunOnTime(c: Config, s: Sys, ops: seq<Op>)
    requires c.Sensible() && Shape(c, s) && DataOnTime(c, s, s.now - 1, 1)
    requires (forall i :: 0 <= i < |ops| ==> ValidOp(c, ops[i])) && Run(c, s, ops).Ok?
    ensures var e := Run(c, s, ops).value; DataOnTime(c, e, e.now - 1, 1)
    decreases |ops|
  {
    hide Shape, DataOnTime, Step, Submit, Offer;
    if ops != [] {
      match ops[0] {
        case Request(t) =>
          OfferWrites(c, s, t);
          SameOnTime(c, s, Submit(c, s, t), s.now - 1, 1);
        case Direct(t) =>
          OfferWrites(c, s, t);
          SameOnTime(c, s, Offer(c, s, t), s.now - 1, 1);
        case Cycle => StepOnTime(c, s);
      }
      RunOnTime(c, Do(c, s, ops[0]).value, ops[1..]);
    }
  }

  /**
   In every run the data of the issued writes leaves in order, each exactly the write latency later: what
   has been sent is what was due before now.
  */
  lemma WriteDataOnTime(c: Config, s: Sys, ops: seq<Op>)
    requires c.Sensible() && Initial(c, s) && forall i :: 0 <= i < |ops| ==> ValidOp(c, ops[i])
    requires Run(c, s, ops).Ok?
    ensures var e := Run(c, s, ops).value; var data := DataOf(c, e.history.issued);
      && e.history.writeData <= data
      && forall i :: 0 <= i < |data| ==> (data[i].at < e.now <==> i < |e.history.writeData|)
  {
    hide Run, Shape, InitialQueue;
    RunOnTime(c, s, ops);
    RestIsDue(c, Run(c, s, ops).value);
  }

  lemma RestIsDue(c: Config, e: Sys)
    requires c.Sensible() && DataOnTime(c, e, e.now - 1, 1)
    ensures var data := DataOf(c, e.history.issued);
      && e.history.writeData <= data
      && forall i :: 0 <= i < |data| ==> (data[i].at < e.now <==> i < |e.history.writeData|)
  {
    hide DataOf;
    var due := Due(e.writes, e.now - 1);
    var data := DataOf(c, e.history.issued);
    assert e.history.writeData + due == data;
    forall i | 0 <= i < |data| ensures data[i].at < e.now <==> i < |e.history.writeData| {
      assert data[i] == if i < |e.history.writeData| then e.history.writeData[i] else due[i - |e.history.writeData|];
    }
  }
}
