/**
 Where writes fit, the data of two writes never meets on the data bus.
*/
module DramWrites {
  import opened Wrappers
  import opened DramTypes
  import opened DramBank
  import opened DramQueue
  import opened DramRank
  import opened DramSystem
  import opened DramSafety
  import DramReads

  /** From the activate of a row to the first cycle in which it can be written. */
  function OpeningTime(c: Config): int { Max(c.tRCD - c.AL, 1) }

  /** A row opened in another rank cannot be written before the data of an earlier write is off the bus. */
  predicate WritesFit(c: Config) { c.ranks == 1 || c.Burst() <= 1 + OpeningTime(c) }

  // ---- the controller's write data as a pipeline ----

  /** The data bus and the write data under way form a pipeline like the one in a rank. */
  function AsPipe(s: Sys): RankState { RankState([], false, false, s.dataBus, s.dataLeft, s.writes) }

  /** No write may go before cycle limit; e is one once this cycle's command has been issued. */
  predicate WriteGap(c: Config, m: Bank, t: int, e: int, limit: int) {
    || m.nextWrite >= limit
    || (Closing(m) && t + m.countdown >= limit)
    || limit <= t + e
    || (!m.mode.RowActive? && limit <= t + e + OpeningTime(c))
  }

  /** The first cycle in which another write may be issued. */
  function EarliestWrite(c: Config, s: Sys, t: int): int { t + DramReads.Busy(c, AsPipe(s)) - c.WL() }

  ghost predicate WritesSpaced(c: Config, s: Sys, t: int, e: int)
    requires Shape(c, s)
  {
    && DramReads.Pipe(c, AsPipe(s)) && DramReads.Busy(c, AsPipe(s)) <= c.WL() + c.Burst()
    && forall r, j :: 0 <= r < c.ranks && 0 <= j < c.banks ==> WriteGap(c, s.table[r][j], t, e, EarliestWrite(c, s, t))
  }

  lemma TickKeepsWriteGap(c: Config, m: Bank, t: int, limit: int)
    requires c.Sensible() && WriteGap(c, m, t, 1, limit)
    ensures WriteGap(c, Tick(c, m), t + 1, 0, limit)
  {
  }

  lemma IssueKeepsWriteGap(c: Config, m: Bank, i: nat, j: nat, p: Packet, t: nat, limit: int)
    requires c.Sensible() && WriteGap(c, m, t, 0, limit) && limit <= t + c.Burst()
    requires i == p.rank && j == p.bank && !p.kind.Refresh? ==> PermittedAt(c, m, p, t) && !Closing(m)
    requires i == p.rank && p.kind.Refresh? ==> RefreshableAt(m, t)
    ensures WriteGap(c, Issue(c, m, i, j, p, t), t, 1, limit)
  {
  }

  /** A write keeps every bank from writing until its own data is off the bus. */
  lemma IssueOpensWriteGap(c: Config, m: Bank, i: nat, j: nat, p: Packet, t: nat)
    requires c.Sensible() && WritesFit(c) && i < c.ranks && p.rank < c.ranks && p.kind.IsWrite()
    ensures WriteGap(c, Issue(c, m, i, j, p, t), t, 1, t + c.Burst())
  {
  }

  /** The invariant of this module between two calls of update. */
  ghost predicate WritesOk(c: Config, s: Sys)
    requires c.Sensible() && Shape(c, s)
  {
    WritesSpaced(c, s, s.now - 1, 1)
  }

  // ---- phases ----

  predicate SameWrites(s: Sys, s1: Sys) {
    && s1.now == s.now && s1.dataBus == s.dataBus && s1.dataLeft == s.dataLeft && s1.writes == s.writes
    && s1.history.issued == s.history.issued && s1.history.writeData == s.history.writeData
  }

  lemma SameWritesKeep(c: Config, s: Sys, s1: Sys, t: int, e: int)
    requires c.Sensible() && Shape(c, s) && Shape(c, s1) && SameWrites(s, s1) && t >= -1
    ensures WritesSpaced(c, s, t, e) && s1.table == s.table ==> WritesSpaced(c, s1, t, e)
  {
    assert AsPipe(s1) == AsPipe(s);
    hide DramReads.Pipe, QueueShape;
    if WritesSpaced(c, s, t, e) && s1.table == s.table {
      forall r, j | 0 <= r < c.ranks && 0 <= j < c.banks
        ensures WriteGap(c, s1.table[r][j], t, e, EarliestWrite(c, s1, t))
      {
        assert WriteGap(c, s.table[r][j], t, e, EarliestWrite(c, s, t));
      }
    }
  }

  lemma AdvanceRanksWrites(c: Config, s: Sys, i: nat)
    requires Shape(c, s) && i <= c.ranks && AdvanceRanks(c, s, i).Ok?
    ensures var s1 := AdvanceRanks(c, s, i).value; SameWrites(s, s1) && s1.table == s.table
    decreases c.ranks - i
  {
    hide QueueShape, Advance;
    if i < c.ranks {
      AdvanceRanksWrites(c, AdvanceRank(c, s, i).value, i + 1);
    }
  }

  lemma ArriveWrites(c: Config, s: Sys)
    requires c.Sensible() && Shape(c, s) && WritesOk(c, s) && Arrive(c, s).Ok?
    ensures var s1 := Arrive(c, s).value; SameWrites(s, s1)
    ensures var s1 := Arrive(c, s).value; forall r, j :: 0 <= r < c.ranks && 0 <= j < c.banks ==>
      WriteGap(c, s1.table[r][j], s.now, 0, EarliestWrite(c, s, s.now - 1))
    ensures DramReads.Pipe(c, AsPipe(Arrive(c, s).value))
  {
    var s1 := Arrive(c, s).value;
    ArriveSame(c, s);
    hide DramReads.Pipe, QueueShape, Arrive;
    forall r, j | 0 <= r < c.ranks && 0 <= j < c.banks
      ensures WriteGap(c, s1.table[r][j], s.now, 0, EarliestWrite(c, s, s.now - 1))
    {
      TickKeepsWriteGap(c, s.table[r][j], s.now - 1, EarliestWrite(c, s, s.now - 1));
    }
  }

  lemma ArriveSame(c: Config, s: Sys)
    requires c.Sensible() && Shape(c, s) && Arrive(c, s).Ok?
    ensures var s1 := Arrive(c, s).value;
      && SameWrites(s, s1) && AsPipe(s1) == AsPipe(s) && s1.table == TickTable(c, s.table) && s1.now == s.now
      && s1.history.issued == s.history.issued && s1.history.writeData == s.history.writeData
  {
    hide QueueShape, AdvanceRanks;
    AdvanceRanksWrites(c, s, 0);
  }

  /** The bus is free whenever write data is due, and the data goes in its turn. */
  lemma SendDataWrites(c: Config, s: Sys, s1: Sys)
    requires c.Sensible() && Shape(c, s) && DramReads.Pipe(c, AsPipe(s))
    requires DeliverData(c, s) == Ok(s1)
    ensures SendData(c, s1).Ok?
    ensures var s2 := SendData(c, s1).value;
      && s2.table == s.table && s2.now == s.now && s2.cmdBus == s1.cmdBus
      && DramReads.Pipe(c, AsPipe(s2))
      && DramReads.Busy(c, AsPipe(s2)) <= Max(DramReads.Busy(c, AsPipe(s)) - 1, 0)
  {
    hide DeliverData, QueueShape;
    DeliveredSlot(c, s, s1);
    SendReady(c, s, s1);
    DramReads.AdvanceKeepsPipe(c, AsPipe(s));
    hide DramReads.Pipe, DramReads.Busy, Advance, DrainSlot;
    SendKeepsPipe(c, s, s1);
  }

  /** After the delivery the bus is what the pipeline's slot is after draining. */
  lemma DeliveredSlot(c: Config, s: Sys, s1: Sys)
    requires c.Sensible() && Shape(c, s) && DeliverData(c, s) == Ok(s1)
    ensures DrainSlot(AsPipe(s)).0.out == s1.dataBus
    ensures s1.dataBus.Some? ==> DrainSlot(AsPipe(s)).0.outLeft == s1.dataLeft
    ensures s1.writes == s.writes && s1.table == s.table && s1.now == s.now && s1.history == s.history
  {
    hide QueueShape, Receive;
  }

  /** Data that is due finds the bus free. */
  lemma SendReady(c: Config, s: Sys, s1: Sys)
    requires c.Sensible() && Shape(c, s) && Shape(c, s1) && DramReads.Pipe(c, AsPipe(s)) && s1.writes == s.writes
    requires DrainSlot(AsPipe(s)).0.out == s1.dataBus
    ensures SendData(c, s1).Ok?
    ensures var s2 := SendData(c, s1).value; s2.table == s1.table && s2.now == s1.now && s2.cmdBus == s1.cmdBus
    ensures |CountReturns(s.writes)| > 0 && CountReturns(s.writes)[0].left == 0 ==> s.writes[0].left == 1
  {
    hide QueueShape;
    DramReads.AdvanceKeepsPipe(c, AsPipe(s));
    DramReads.CountKeepsSpacing(c, AsPipe(s));
  }

  lemma SendKeepsPipe(c: Config, s: Sys, s1: Sys)
    requires c.Sensible() && Shape(c, s1) && s1.writes == s.writes && SendData(c, s1).Ok?
    requires DrainSlot(AsPipe(s)).0.out == s1.dataBus &&
      (s1.dataBus.Some? ==> DrainSlot(AsPipe(s)).0.outLeft == s1.dataLeft)
    requires var a := Advance(c, AsPipe(s)).0;
      DramReads.Pipe(c, a) && DramReads.Busy(c, a) <= Max(DramReads.Busy(c, AsPipe(s)) - 1, 0)
    ensures var s2 := SendData(c, s1).value;
      DramReads.Pipe(c, AsPipe(s2)) && DramReads.Busy(c, AsPipe(s2)) <= Max(DramReads.Busy(c, AsPipe(s)) - 1, 0)
  {
    hide DramReads.Pipe, DramReads.Busy;
    SendLikeAdvance(c, s, s1);
    PipeIgnoresRest(c, Advance(c, AsPipe(s)).0, AsPipe(SendData(c, s1).value));
  }

  /** Write data goes on the bus just as a rank's read data goes to its output slot. */
  lemma SendLikeAdvance(c: Config, s: Sys, s1: Sys)
    requires c.Sensible() && Shape(c, s1) && s1.writes == s.writes && SendData(c, s1).Ok?
    requires DrainSlot(AsPipe(s)).0.out == s1.dataBus &&
      (s1.dataBus.Some? ==> DrainSlot(AsPipe(s)).0.outLeft == s1.dataLeft)
    ensures var a := Advance(c, AsPipe(s)).0; var b := AsPipe(SendData(c, s1).value);
      a.inFlight == b.inFlight && a.out == b.out && (a.out.Some? ==> a.outLeft == b.outLeft)
  {
    hide Shape;
  }

  lemma PipeIgnoresRest(c: Config, a: RankState, b: RankState)
    requires DramReads.Pipe(c, a) && a.inFlight == b.inFlight && a.out == b.out &&
      (a.out.Some? ==> a.outLeft == b.outLeft)
    ensures DramReads.Pipe(c, b) && DramReads.Busy(c, b) == DramReads.Busy(c, a)
  {
  }

  lemma IssueNextWrites(c: Config, s: Sys)
    requires c.Sensible() && Shape(c, s) && WritesFit(c) && s.cmdBus.None?
    requires Related(c, s, s.now, s.now) && AllSleepAgrees(c, s) && IssueNext(c, s).Ok?
    requires WritesSpaced(c, s, s.now, 0)
    ensures var s1 := IssueNext(c, s).value;
      WritesSpaced(c, s1, s.now, 1) && s1.now == s.now
  {
    var s1 := IssueNext(c, s).value;
    var popped := Pop(c, s.queue, s.table, s.now).1;
    if popped.Some? {
      WholeRanksOf(c, s);
      PoppedIsPermitted(c, s.queue, s.table, s.now);
      hide Pop, Permitted;
      IssueWritesSpaced(c, s, s1, popped.value);
    } else {
      hide Pop;
      forall r, j | 0 <= r < c.ranks && 0 <= j < c.banks
        ensures WriteGap(c, s1.table[r][j], s.now, 1, EarliestWrite(c, s1, s.now))
      {
        assert WriteGap(c, s.table[r][j], s.now, 0, EarliestWrite(c, s, s.now));
      }
    }
  }

  lemma IssueWritesSpaced(c: Config, s: Sys, s1: Sys, p: Packet)
    requires c.Sensible() && Shape(c, s) && WritesFit(c) && s.cmdBus.None? && WritesSpaced(c, s, s.now, 0)
    requires Related(c, s, s.now, s.now)
    requires p.rank < c.ranks && p.bank < c.banks && Permitted(c, s.table[p.rank], p, s.now)
    requires Shape(c, s1) && s1.dataBus == s.dataBus && s1.dataLeft == s.dataLeft
    requires s1.writes == if p.kind.IsWrite() then s.writes + [Return(p.(kind := Data), c.WL())] else s.writes
    requires s1.table == IssueTable(c, s.table, p, s.now)
    ensures WritesSpaced(c, s1, s.now, 1)
  {
    var limit := EarliestWrite(c, s, s.now);
    assert BankRel(c, s.table[p.rank][p.bank], View(c, s, p.rank, s.now)[p.bank], s.now);
    assert WriteGap(c, s.table[p.rank][p.bank], s.now, 0, limit);
    if p.kind.IsWrite() {
      assert limit <= s.now;
      PushKeepsPipe(c, s, s1, p);
    } else {
      assert AsPipe(s1) == AsPipe(s);
    }
    hide QueueShape, DramReads.Pipe, Issue, IssueTable, DramReads.Busy;
    forall r, j | 0 <= r < c.ranks && 0 <= j < c.banks
      ensures WriteGap(c, s1.table[r][j], s.now, 1, EarliestWrite(c, s1, s.now))
    {
      assert s1.table[r][j] == Issue(c, s.table[r][j], r, j, p, s.now);
      assert BankRel(c, s.table[r][j], View(c, s, r, s.now)[j], s.now);
      assert WriteGap(c, s.table[r][j], s.now, 0, limit);
      if p.kind.IsWrite() {
        IssueOpensWriteGap(c, s.table[r][j], r, j, p, s.now);
      } else {
        IssueKeepsWriteGap(c, s.table[r][j], r, j, p, s.now, limit);
      }
    }
  }

  lemma PushKeepsPipe(c: Config, s: Sys, s1: Sys, p: Packet)
    requires c.Sensible() && DramReads.Pipe(c, AsPipe(s)) && DramReads.Busy(c, AsPipe(s)) <= c.WL()
    requires s1.dataBus == s.dataBus && s1.dataLeft == s.dataLeft
    requires s1.writes == s.writes + [Return(p.(kind := Data), c.WL())]
    ensures DramReads.Pipe(c, AsPipe(s1)) && DramReads.Busy(c, AsPipe(s1)) == c.WL() + c.Burst()
  {
    var q := s1.writes;
    forall i | 0 < i < |q| ensures q[i - 1].left + c.Burst() <= q[i].left {
      if i < |q| - 1 {
        assert DramReads.Spread(c, s.writes);
        assert s.writes[i - 1].left + c.Burst() <= s.writes[i].left;
      }
    }
  }
}
