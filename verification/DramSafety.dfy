/**
 Protocol safety: whatever is asked of the memory system, every command the controller sends is legal
 when its rank receives it, ranks are put to sleep and woken only when they may be, and two commands
 never meet on the command bus.
*/
module DramSafety {
  import opened Wrappers
  import opened DramTypes
  import opened DramBank
  import opened DramQueue
  import opened DramRank
  import opened DramSystem

  /** The bank states of rank r once the command on the bus, if it goes there, has arrived at cycle at. */
  function View(c: Config, s: Sys, r: nat, at: nat): (vs: seq<Bank>)
    requires c.Sensible() && Shape(c, s) && r < c.ranks
    ensures |vs| == c.banks
  {
    if s.cmdBus.Some? && s.cmdBus.value.rank == r then DeliverAll(c, s.ranks[r].banks, s.cmdBus.value, at)
    else s.ranks[r].banks
  }

  /** The two sets of tables agree, the command bus being emptied at cycle at; t is the last countdown. */
  ghost predicate Related(c: Config, s: Sys, at: nat, t: int)
    requires c.Sensible() && Shape(c, s)
  {
    forall r, j :: 0 <= r < c.ranks && 0 <= j < c.banks ==> BankRel(c, s.table[r][j], View(c, s, r, at)[j], t)
  }

  /** A command on the bus arrives in the next cycle, and its rank will accept it. */
  ghost predicate BusLegal(c: Config, s: Sys, at: nat)
    requires c.Sensible() && Shape(c, s)
  {
    s.cmdBus.Some? ==> s.cmdLeft == 1 && Legal(s.ranks[s.cmdBus.value.rank].banks, s.cmdBus.value, at)
  }

  /** Sleeping is a matter of whole ranks, and controller and rank agree on it. */
  ghost predicate SleepAgrees(c: Config, s: Sys, r: nat)
    requires Shape(c, s) && r < c.ranks
  {
    && s.powerDown[r] == s.ranks[r].isPowerDown
    && (forall j :: 0 <= j < c.banks ==> (s.table[r][j].mode.PowerDown? <==> s.powerDown[r]))
    && (s.powerDown[r] ==> forall j :: 0 <= j < c.banks ==> s.table[r][j].nextPowerUp == s.table[r][0].nextPowerUp)
  }

  ghost predicate AllSleepAgrees(c: Config, s: Sys)
    requires Shape(c, s)
  {
    forall r :: 0 <= r < c.ranks ==> SleepAgrees(c, s, r)
  }

  /** The invariant between two calls of update. */
  ghost predicate Safe(c: Config, s: Sys)
    requires c.Sensible() && Shape(c, s)
  {
    Related(c, s, s.now, s.now - 1) && BusLegal(c, s, s.now) && AllSleepAgrees(c, s)
  }

  // ---- phases that leave the tables alone ----

  predicate SameTables(c: Config, s: Sys, s1: Sys)
    requires Shape(c, s) && Shape(c, s1)
  {
    && s1.table == s.table && s1.cmdBus == s.cmdBus && s1.cmdLeft == s.cmdLeft
    && s1.powerDown == s.powerDown && s1.now == s.now
    && forall r :: 0 <= r < c.ranks ==>
         s1.ranks[r].banks == s.ranks[r].banks && s1.ranks[r].isPowerDown == s.ranks[r].isPowerDown
  }

  lemma SameTablesKeep(c: Config, s: Sys, s1: Sys, at: nat, t: int)
    requires c.Sensible() && Shape(c, s) && Shape(c, s1) && SameTables(c, s, s1)
    requires Related(c, s, at, t) && BusLegal(c, s, at) && AllSleepAgrees(c, s)
    ensures Related(c, s1, at, t) && BusLegal(c, s1, at) && AllSleepAgrees(c, s1)
  {
    forall r, j | 0 <= r < c.ranks && 0 <= j < c.banks ensures BankRel(c, s1.table[r][j], View(c, s1, r, at)[j], t) {
      assert BankRel(c, s.table[r][j], View(c, s, r, at)[j], t);
      assert View(c, s1, r, at) == View(c, s, r, at);
    }
    forall r | 0 <= r < c.ranks ensures SleepAgrees(c, s1, r) {
      assert SleepAgrees(c, s, r);
    }
  }

  lemma AdvanceKeepsBanks(c: Config, rs: RankState)
    ensures Advance(c, rs).0.banks == rs.banks && Advance(c, rs).0.isPowerDown == rs.isPowerDown
    ensures Advance(c, rs).0.refreshWaiting == rs.refreshWaiting
  {
  }

  lemma AdvanceRankSame(c: Config, s: Sys, i: nat)
    requires Shape(c, s) && i < c.ranks && AdvanceRank(c, s, i).Ok?
    ensures SameTables(c, s, AdvanceRank(c, s, i).value)
  {
    hide QueueShape, Advance;
    AdvanceKeepsBanks(c, s.ranks[i]);
  }

  lemma AdvanceRanksSame(c: Config, s: Sys, i: nat)
    requires Shape(c, s) && i <= c.ranks && AdvanceRanks(c, s, i).Ok?
    ensures SameTables(c, s, AdvanceRanks(c, s, i).value)
    decreases c.ranks - i
  {
    hide QueueShape, AdvanceRank;
    if i < c.ranks {
      AdvanceRankSame(c, s, i);
      AdvanceRanksSame(c, AdvanceRank(c, s, i).value, i + 1);
    }
  }

  lemma DeliverDataSame(c: Config, s: Sys)
    requires c.Sensible() && Shape(c, s)
    ensures DeliverData(c, s).Ok? && SameTables(c, s, DeliverData(c, s).value)
  {
    if s.dataBus.Some? && Dec32(s.dataLeft) == 0 {
      var p := s.dataBus.value;
      assert DeliverAll(c, s.ranks[p.rank].banks, p, s.now) == s.ranks[p.rank].banks;
    }
  }

  // ---- the command bus ----

  lemma CountDownSafe(c: Config, s: Sys, at: nat, t: int)
    requires c.Sensible() && Shape(c, s)
    requires Related(c, s, at, t) && BusLegal(c, s, at) && AllSleepAgrees(c, s)
    ensures var s1 := CountDown(c, s);
      Related(c, s1, at, t + 1) && BusLegal(c, s1, at) && AllSleepAgrees(c, s1)
  {
    var s1 := CountDown(c, s);
    forall r, j | 0 <= r < c.ranks && 0 <= j < c.banks ensures BankRel(c, s1.table[r][j],
        View(c, s1, r, at)[j], t + 1) {
      assert BankRel(c, s.table[r][j], View(c, s, r, at)[j], t);
      TickKeepsRel(c, s.table[r][j], View(c, s, r, at)[j], t);
      assert View(c, s1, r, at) == View(c, s, r, at);
    }
    forall r | 0 <= r < c.ranks ensures SleepAgrees(c, s1, r) {
      assert SleepAgrees(c, s, r);
      forall j | 0 <= j < c.banks
        ensures s1.table[r][j].mode.PowerDown? <==> s.table[r][j].mode.PowerDown?
        ensures s1.table[r][j].nextPowerUp == s.table[r][j].nextPowerUp
      {
        assert BankRel(c, s.table[r][j], View(c, s, r, at)[j], t);
      }
    }
  }

  /** The command on the bus is accepted, and afterwards the bus is empty. */
  lemma DeliverCommandSafe(c: Config, s: Sys, t: int)
    requires c.Sensible() && Shape(c, s)
    requires Related(c, s, s.now, t) && BusLegal(c, s, s.now) && AllSleepAgrees(c, s)
    ensures DeliverCommand(c, s).Ok?
    ensures var s1 := DeliverCommand(c, s).value;
      && s1.cmdBus.None? && s1.table == s.table && s1.now == s.now
      && Related(c, s1, s.now, t) && BusLegal(c, s1, s.now) && AllSleepAgrees(c, s1)
  {
    var s1 := DeliverCommand(c, s).value;
    forall r, j | 0 <= r < c.ranks && 0 <= j < c.banks ensures BankRel(c, s1.table[r][j], View(c, s1, r, s.now)[j], t) {
      assert BankRel(c, s.table[r][j], View(c, s, r, s.now)[j], t);
      assert View(c, s1, r, s.now) == View(c, s, r, s.now);
    }
    forall r | 0 <= r < c.ranks ensures SleepAgrees(c, s1, r) {
      assert SleepAgrees(c, s, r);
    }
  }

  // ---- issuing ----

  /** Every bank of a rank sleeps or none does. */
  predicate WholeRanks(c: Config, t: Table)
    requires TableShape(c, t)
  {
    forall r, j :: 0 <= r < c.ranks && 0 <= j < c.banks && t[r][j].mode.PowerDown? ==> t[r][0].mode.PowerDown?
  }

  /** A queued packet that is issuable is permitted. */
  lemma IssuableIsPermitted(c: Config, q: QueueState, t: Table, p: Packet, k: nat, now: nat)
    requires c.Sensible() && QueueShape(c, q) && TableShape(c, t) && p.rank < c.ranks && Belongs(c, p, p.rank, k)
    requires Issuable(c, q, t, p, now)
    ensures !p.kind.Data? && Permitted(c, t[p.rank], p, now)
  {
  }

  lemma RefreshPickIsPermitted(c: Config, q: QueueState, t: Table, pick: Pick, now: nat)
    requires c.Sensible() && QueueShape(c, q) && TableShape(c, t) && WholeRanks(c, t) && q.refreshWaiting
    requires pick == ScanForRefresh(c, q, t, 0, now) && !pick.Nothing?
    ensures Valid(c, q, pick)
    ensures var p := Chosen(c, q, pick);
      p.rank < c.ranks && p.bank < c.banks && !p.kind.Data? && Permitted(c, t[p.rank], p, now)
  {
    match pick
    case LastColumn(b, i) =>
      var line := Line(c, q, q.refreshRank, b);
      assert pick == RefreshBank(c, q, t, b, now);
      assert Belongs(c, line[i], q.refreshRank, Slot(c, b));
      IssuableIsPermitted(c, q, t, line[i], Slot(c, b), now);
    case CloseForRefresh(b) =>
      assert pick == RefreshBank(c, q, t, b, now);
    case SendRefresh =>
      forall j | 0 <= j < c.banks ensures RefreshableAt(t[q.refreshRank][j], now) {
      }
  }

  lemma ChoiceIsPermitted(c: Config, q: QueueState, t: Table, pick: Pick, now: nat)
    requires c.Sensible() && QueueShape(c, q) && TableShape(c, t) && WholeRanks(c, t)
    requires pick == Choose(c, q, t, now) && !pick.Nothing?
    ensures Valid(c, q, pick)
    ensures var p := Chosen(c, q, pick);
      p.rank < c.ranks && p.bank < c.banks && !p.kind.Data? && Permitted(c, t[p.rank], p, now)
  {
    if q.refreshWaiting && !ScanForRefresh(c, q, t, 0, now).Nothing? {
      RefreshPickIsPermitted(c, q, t, pick, now);
    } else if pick.FromQueue? {
      var line := Line(c, q, pick.rank, pick.bank);
      assert Eligible(c, q, t, line, pick.index, now);
      IssuableIsPermitted(c, q, t, line[pick.index], Slot(c, pick.bank), now);
    } else {
      assert pick.CloseRow? && Closable(c, q, t, pick.rank, pick.bank, now);
    }
  }

  /** Whatever pop chooses, the controller's own tables permit it. */
  lemma PoppedIsPermitted(c: Config, q: QueueState, t: Table, now: nat)
    requires c.Sensible() && QueueShape(c, q) && TableShape(c, t) && WholeRanks(c, t)
    requires Pop(c, q, t, now).1.Some?
    ensures var p := Pop(c, q, t, now).1.value;
      p.rank < c.ranks && p.bank < c.banks && !p.kind.Data? && Permitted(c, t[p.rank], p, now)
  {
    var q1 := q.(faw := AgeAll(q.faw));
    hide WholeRanks, Permitted;
    ChoiceIsPermitted(c, q1, t, Choose(c, q1, t, now), now);
  }

  lemma IssueNextSafe(c: Config, s: Sys)
    requires c.Sensible() && Shape(c, s) && s.cmdBus.None?
    requires Related(c, s, s.now, s.now) && AllSleepAgrees(c, s)
    ensures IssueNext(c, s).Ok?
    ensures var s1 := IssueNext(c, s).value;
      && s1.now == s.now && Related(c, s1, s.now + 1, s.now) && BusLegal(c, s1, s.now + 1) && AllSleepAgrees(c, s1)
      && BusBusy(c, s1)
  {
    var s1 := IssueNext(c, s).value;
    var popped := Pop(c, s.queue, s.table, s.now).1;
    if popped.Some? {
      WholeRanksOf(c, s);
      PoppedIsPermitted(c, s.queue, s.table, s.now);
      PoppedSafe(c, s, s1, popped.value);
    } else {
      hide QueueShape, Pop;
      SameTablesKeep(c, s, s1, s.now, s.now);
      forall r, j | 0 <= r < c.ranks && 0 <= j < c.banks ensures BankRel(c, s1.table[r][j],
          View(c, s1, r, s.now + 1)[j], s.now) {
        assert BankRel(c, s1.table[r][j], View(c, s1, r, s.now)[j], s.now);
      }
    }
  }

  lemma WholeRanksOf(c: Config, s: Sys)
    requires Shape(c, s) && AllSleepAgrees(c, s)
    ensures WholeRanks(c, s.table)
  {
    forall r, j | 0 <= r < c.ranks && 0 <= j < c.banks && s.table[r][j].mode.PowerDown?
      ensures s.table[r][0].mode.PowerDown?
    {
      assert SleepAgrees(c, s, r);
    }
  }

  /** Putting a permitted command on the empty bus keeps everything in agreement. */
  lemma PoppedSafe(c: Config, s: Sys, s1: Sys, p: Packet)
    requires c.Sensible() && Shape(c, s) && s.cmdBus.None?
    requires Related(c, s, s.now, s.now) && AllSleepAgrees(c, s)
    requires p.rank < c.ranks && p.bank < c.banks && !p.kind.Data? && Permitted(c, s.table[p.rank], p, s.now)
    requires Shape(c, s1) && s1.ranks == s.ranks && s1.now == s.now && s1.powerDown == s.powerDown
    requires s1.table == IssueTable(c, s.table, p, s.now) && s1.cmdBus == Some(p) && s1.cmdLeft == 1
    ensures Related(c, s1, s.now + 1, s.now) && BusLegal(c, s1, s.now + 1) && AllSleepAgrees(c, s1) && BusBusy(c, s1)
  {
    hide QueueShape;
    forall j | 0 <= j < c.banks ensures BankRel(c, s.table[p.rank][j], s.ranks[p.rank].banks[j], s.now) {
      assert View(c, s, p.rank, s.now)[j] == s.ranks[p.rank].banks[j];
    }
    PermittedIsLegal(c, s.table[p.rank], s.ranks[p.rank].banks, p, s.now);
    IssueRelated(c, s, p);
    IssueSleep(c, s, p);
    forall r | 0 <= r < c.ranks ensures SleepAgrees(c, s1, r) {
      assert SleepAgrees(c, s, r);
    }
    BusyAfterIssue(c, s.table[p.rank], p, s.now);
  }

  lemma BusyAfterIssue(c: Config, ms: seq<Bank>, p: Packet, now: nat)
    requires c.Sensible() && p.bank < |ms| && Permitted(c, ms, p, now)
    ensures var m := Issue(c, ms[p.bank], p.rank, p.bank, p, now).mode; m.RowActive? || m.Precharging? || m.Refreshing?
  {
  }

  lemma IssueRelated(c: Config, s: Sys, p: Packet)
    requires c.Sensible() && Shape(c, s) && s.cmdBus.None? && Related(c, s, s.now, s.now)
    requires p.rank < c.ranks && p.bank < c.banks && Permitted(c, s.table[p.rank], p, s.now)
    ensures forall r, j :: 0 <= r < c.ranks && 0 <= j < c.banks ==>
      BankRel(c, IssueTable(c, s.table, p, s.now)[r][j],
              (if r == p.rank then DeliverAll(c, s.ranks[r].banks, p, s.now + 1) else s.ranks[r].banks)[j], s.now)
  {
    hide BankRel, Issue, Deliver, Permitted, QueueShape;
    forall r, j | 0 <= r < c.ranks && 0 <= j < c.banks
      ensures BankRel(c, IssueTable(c, s.table, p, s.now)[r][j],
        (if r == p.rank then DeliverAll(c, s.ranks[r].banks, p, s.now + 1) else s.ranks[r].banks)[j], s.now)
    {
      assert BankRel(c, s.table[r][j], View(c, s, r, s.now)[j], s.now);
      if r == p.rank {
        IssueKeepsRel(c, s.table[r], s.ranks[r].banks, j, p, s.now);
      } else {
        IssueKeepsOtherRank(c, s.table[r][j], s.ranks[r].banks[j], r, j, p, s.now);
      }
    }
  }

  lemma IssueSleep(c: Config, s: Sys, p: Packet)
    requires c.Sensible() && Shape(c, s) && AllSleepAgrees(c, s)
    requires p.rank < c.ranks && p.bank < c.banks && Permitted(c, s.table[p.rank], p, s.now)
    ensures forall r :: 0 <= r < c.ranks ==>
      && (forall j :: 0 <= j < c.banks ==>
           (IssueTable(c, s.table, p, s.now)[r][j].mode.PowerDown? <==> s.table[r][j].mode.PowerDown?)
           && IssueTable(c, s.table, p, s.now)[r][j].nextPowerUp == s.table[r][j].nextPowerUp)
  {
    forall r, j | 0 <= r < c.ranks && 0 <= j < c.banks
      ensures (IssueTable(c, s.table, p, s.now)[r][j].mode.PowerDown? <==> s.table[r][j].mode.PowerDown?)
           && IssueTable(c, s.table, p, s.now)[r][j].nextPowerUp == s.table[r][j].nextPowerUp
    {
      if r == p.rank && p.kind.Refresh? {
        assert RefreshableAt(s.table[r][j], s.now);
      }
    }
  }

  // ---- power states ----

  /** A rank that a command is on its way to is neither all idle nor asleep. */
  ghost predicate BusBusy(c: Config, s: Sys)
    requires Shape(c, s)
  {
    s.cmdBus.Some? ==>
      && s.cmdBus.value.bank < c.banks
      && var m := s.table[s.cmdBus.value.rank][s.cmdBus.value.bank].mode;
         m.RowActive? || m.Precharging? || m.Refreshing?
  }

  /** No rank complains about being put to sleep or woken. */
  lemma PowerRankSafe(c: Config, s: Sys, i: nat)
    requires c.Sensible() && Shape(c, s) && i < c.ranks
    requires Related(c, s, s.now + 1, s.now) && BusLegal(c, s, s.now + 1) && AllSleepAgrees(c, s) && BusBusy(c, s)
    ensures PowerRank(c, s, i).Ok?
    ensures var s1 := PowerRank(c, s, i).value;
      && s1.now == s.now && Related(c, s1, s.now + 1, s.now) && BusLegal(c, s1, s.now + 1)
      && AllSleepAgrees(c, s1) && BusBusy(c, s1)
  {
    hide QueueShape, Empty, Related, BusLegal, AllSleepAgrees, BusBusy;
    var sleeps := Empty(c, s.queue, i) && !s.ranks[i].refreshWaiting;
    if sleeps && (forall j :: 0 <= j < c.banks ==> s.table[i][j].mode.Idle?) {
      IdleRank(c, s, i);
      assert PowerRank(c, s, i).Ok?;
      PowerKeeps(c, s, PowerRank(c, s, i).value, i);
    } else if !sleeps && s.now >= s.table[i][0].nextPowerUp && s.powerDown[i] {
      SleepingRank(c, s, i);
      assert PowerRank(c, s, i).Ok?;
      PowerKeeps(c, s, PowerRank(c, s, i).value, i);
    }
  }

  /** A rank that the controller finds idle is idle itself, and no command is on its way to it. */
  lemma IdleRank(c: Config, s: Sys, i: nat)
    requires c.Sensible() && Shape(c, s) && i < c.ranks && Related(c, s, s.now + 1, s.now) && BusBusy(c, s)
    requires forall j :: 0 <= j < c.banks ==> s.table[i][j].mode.Idle?
    ensures s.cmdBus.Some? ==> s.cmdBus.value.rank != i
    ensures forall j :: 0 <= j < c.banks ==>
      s.ranks[i].banks[j].mode.Idle? && BankRel(c, s.table[i][j], s.ranks[i].banks[j], s.now)
  {
    hide QueueShape;
    forall j | 0 <= j < c.banks
      ensures s.ranks[i].banks[j].mode.Idle? && BankRel(c, s.table[i][j], s.ranks[i].banks[j], s.now)
    {
      assert BankRel(c, s.table[i][j], View(c, s, i, s.now + 1)[j], s.now);
    }
  }

  /** A rank that the controller has put to sleep is asleep, and no command is on its way to it. */
  lemma SleepingRank(c: Config, s: Sys, i: nat)
    requires c.Sensible() && Shape(c, s) && i < c.ranks && Related(c, s, s.now + 1, s.now) && BusBusy(c, s)
    requires AllSleepAgrees(c, s) && s.powerDown[i]
    ensures s.cmdBus.Some? ==> s.cmdBus.value.rank != i
    ensures s.ranks[i].isPowerDown
    ensures forall j :: 0 <= j < c.banks ==>
      && s.table[i][j].mode.PowerDown? && s.table[i][j].nextPowerUp == s.table[i][0].nextPowerUp ==
          s.ranks[i].banks[j].nextPowerUp
      && BankRel(c, s.table[i][j], s.ranks[i].banks[j], s.now)
  {
    hide QueueShape;
    assert SleepAgrees(c, s, i);
    forall j | 0 <= j < c.banks
      ensures s.table[i][j].nextPowerUp == s.ranks[i].banks[j].nextPowerUp &&
        BankRel(c, s.table[i][j], s.ranks[i].banks[j], s.now)
    {
      assert BankRel(c, s.table[i][j], View(c, s, i, s.now + 1)[j], s.now);
    }
  }

  /** Changing the state of a rank that no command is on its way to disturbs no other rank. */
  lemma PowerKeeps(c: Config, s: Sys, s1: Sys, i: nat)
    requires c.Sensible() && Shape(c, s) && Shape(c, s1) && i < c.ranks
    requires Related(c, s, s.now + 1, s.now) && BusLegal(c, s, s.now + 1) && AllSleepAgrees(c, s) && BusBusy(c, s)
    requires s.cmdBus.Some? ==> s.cmdBus.value.rank != i
    requires s1 == s.(table := s.table[i := s1.table[i]], ranks := s.ranks[i := s1.ranks[i]],
                      powerDown := s.powerDown[i := s1.powerDown[i]])
    requires SleepAgrees(c, s1, i)
    requires forall j :: 0 <= j < c.banks ==> BankRel(c, s1.table[i][j], s1.ranks[i].banks[j], s.now)
    ensures Related(c, s1, s.now + 1, s.now) && BusLegal(c, s1, s.now + 1) && AllSleepAgrees(c, s1) && BusBusy(c, s1)
  {
    forall r, j | 0 <= r < c.ranks && 0 <= j < c.banks
      ensures BankRel(c, s1.table[r][j], View(c, s1, r, s.now + 1)[j], s.now)
    {
      if r != i {
        assert BankRel(c, s.table[r][j], View(c, s, r, s.now + 1)[j], s.now);
        assert View(c, s1, r, s.now + 1) == View(c, s, r, s.now + 1);
      }
    }
    forall r | 0 <= r < c.ranks ensures SleepAgrees(c, s1, r) {
      assert SleepAgrees(c, s, r);
    }
  }

  lemma PowerRanksSafe(c: Config, s: Sys, i: nat)
    requires c.Sensible() && Shape(c, s) && i <= c.ranks
    requires Related(c, s, s.now + 1, s.now) && BusLegal(c, s, s.now + 1) && AllSleepAgrees(c, s) && BusBusy(c, s)
    ensures PowerRanks(c, s, i).Ok?
    ensures var s1 := PowerRanks(c, s, i).value;
      s1.now == s.now && Related(c, s1, s.now + 1, s.now) && BusLegal(c, s1, s.now + 1) && AllSleepAgrees(c, s1)
    decreases c.ranks - i
  {
    hide Shape, Related, BusLegal, AllSleepAgrees, BusBusy, PowerRank;
    if i < c.ranks && c.lowPower {
      PowerRankSafe(c, s, i);
      PowerRanksSafe(c, PowerRank(c, s, i).value, i + 1);
    }
  }

  // ---- steps and runs ----

  /** The exits that mean a rank was addressed wrongly or two commands met. */
  predicate ProtocolFault(f: Fault) {
    f.IllegalCommand? || f.IllegalPowerDown? || f.IllegalPowerUp? || f.CommandBusCollision?
  }

  lemma AdvanceRanksFault(c: Config, s: Sys, i: nat)
    requires Shape(c, s) && i <= c.ranks && AdvanceRanks(c, s, i).Exit?
    ensures AdvanceRanks(c, s, i).fault.NotData?
    decreases c.ranks - i
  {
    hide QueueShape, Advance;
    if AdvanceRank(c, s, i).Ok? {
      AdvanceRanksFault(c, AdvanceRank(c, s, i).value, i + 1);
    }
  }

  lemma ArriveSafe(c: Config, s: Sys)
    requires c.Sensible() && Shape(c, s) && Safe(c, s)
    ensures match Arrive(c, s)
      case Exit(f) => !ProtocolFault(f)
      case Ok(s1) => s1.now == s.now && Related(c, s1, s.now, s.now) && BusLegal(c, s1, s.now) && AllSleepAgrees(c, s1)
  {
    hide QueueShape, AdvanceRanks, BusLegal, AllSleepAgrees, Related, CountDown;
    match AdvanceRanks(c, s, 0)
    case Exit(f) => AdvanceRanksFault(c, s, 0);
    case Ok(s1) =>
      AdvanceRanksSame(c, s, 0);
      var s2 := AdmitWaiting(c, s1);
      SameTablesKeep(c, s, s1, s.now, s.now - 1);
      SameTablesKeep(c, s1, s2, s.now, s.now - 1);
      CountDownSafe(c, s2, s.now, s.now - 1);
      CountDownNow(c, s2);
  }

  lemma CountDownNow(c: Config, s: Sys)
    requires Shape(c, s)
    ensures CountDown(c, s).now == s.now
  {
  }

  lemma MoveBusesSafe(c: Config, s: Sys)
    requires c.Sensible() && Shape(c, s)
    requires Related(c, s, s.now, s.now) && BusLegal(c, s, s.now) && AllSleepAgrees(c, s)
    ensures match MoveBuses(c, s)
      case Exit(f) => f.DataBusCollision?
      case Ok(s1) =>
        && s1.now == s.now && s1.cmdBus.None? && s1.table == s.table
        && Related(c, s1, s.now, s.now) && AllSleepAgrees(c, s1)
  {
    hide QueueShape, BusLegal, AllSleepAgrees, Related, DeliverCommand, DeliverData;
    DeliverCommandSafe(c, s, s.now);
    var s1 := DeliverCommand(c, s).value;
    DeliverDataSame(c, s1);
    var s2 := DeliverData(c, s1).value;
    SameTablesKeep(c, s1, s2, s.now, s.now);
    if SendData(c, s2).Ok? {
      var s3 := SendData(c, s2).value;
      SameTablesKeep(c, s2, s3, s.now, s.now);
    }
  }

  lemma RefreshTimerSame(c: Config, s: Sys)
    requires c.Sensible() && Shape(c, s)
    ensures SameTables(c, s, RefreshTimer(c, s))
  {
  }

  lemma ScheduleSame(c: Config, s: Sys)
    requires c.Sensible() && Shape(c, s)
    ensures match Schedule(c, s)
      case Exit(f) => f.QueueOverflow?
      case Ok(s1) => SameTables(c, s, s1)
  {
  }

  lemma CommandSafe(c: Config, s: Sys)
    requires c.Sensible() && Shape(c, s) && s.cmdBus.None?
    requires Related(c, s, s.now, s.now) && AllSleepAgrees(c, s)
    ensures match Command(c, s)
      case Exit(f) => f.QueueOverflow?
      case Ok(s1) =>
        && s1.now == s.now && Related(c, s1, s.now + 1, s.now) && BusLegal(c, s1, s.now + 1)
        && AllSleepAgrees(c, s1) && BusBusy(c, s1)
  {
    hide QueueShape, AllSleepAgrees, Related, RefreshTimer, IssueNext, Schedule;
    var s1 := RefreshTimer(c, s);
    RefreshTimerSame(c, s);
    SameTablesKeep(c, s, s1, s.now, s.now);
    IssueNextSafe(c, s1);
    var s2 := IssueNext(c, s1).value;
    ScheduleSame(c, s2);
    if Schedule(c, s2).Ok? {
      SameTablesKeep(c, s2, Schedule(c, s2).value, s.now + 1, s.now);
    }
  }

  lemma CloseSafe(c: Config, s: Sys)
    requires c.Sensible() && Shape(c, s)
    requires Related(c, s, s.now + 1, s.now) && BusLegal(c, s, s.now + 1) && AllSleepAgrees(c, s) && BusBusy(c, s)
    ensures match Close(c, s)
      case Exit(f) => f.NoMatchingRead?
      case Ok(s1) => s1.now == s.now + 1 && Safe(c, s1)
  {
    hide QueueShape, AllSleepAgrees, BusLegal, Related, PowerRanks;
    PowerRanksSafe(c, s, 0);
    var s1 := PowerRanks(c, s, 0).value;
    if ReturnRead(c, s1).Ok? {
      var s2 := ReturnRead(c, s1).value;
      SameTablesKeep(c, s1, s2, s.now + 1, s.now);
      var s3 := s2.(refreshCountdown := CountRefresh(s2.refreshCountdown));
      SameTablesKeep(c, s2, s3, s.now + 1, s.now);
      LaterSafe(c, s3, EndCycle(c, s2));
    }
  }

  lemma LaterSafe(c: Config, s: Sys, s1: Sys)
    requires c.Sensible() && Shape(c, s) && Shape(c, s1) && s1 == s.(now := s.now + 1)
    requires Related(c, s, s.now + 1, s.now) && BusLegal(c, s, s.now + 1) && AllSleepAgrees(c, s)
    ensures Safe(c, s1)
  {
    forall r, j | 0 <= r < c.ranks && 0 <= j < c.banks ensures BankRel(c, s1.table[r][j], View(c, s1, r, s1.now)[j],
        s1.now - 1) {
      assert BankRel(c, s.table[r][j], View(c, s, r, s.now + 1)[j], s.now);
    }
    forall r | 0 <= r < c.ranks ensures SleepAgrees(c, s1, r) {
      assert SleepAgrees(c, s, r);
    }
  }

  /** One call of update keeps the invariant and makes none of the protocol exits. */
  lemma StepSafe(c: Config, s: Sys)
    requires c.Sensible() && Shape(c, s) && Safe(c, s)
    ensures match Step(c, s)
      case Exit(f) => !ProtocolFault(f)
      case Ok(s1) => Safe(c, s1)
  {
    hide Shape, AllSleepAgrees, BusLegal, Related, Arrive, MoveBuses, Command, Close, Safe;
    ArriveSafe(c, s);
    if Arrive(c, s).Ok? {
      var s1 := Arrive(c, s).value;
      MoveBusesSafe(c, s1);
      if MoveBuses(c, s1).Ok? {
        var s2 := MoveBuses(c, s1).value;
        CommandSafe(c, s2);
        if Command(c, s2).Ok? {
          CloseSafe(c, Command(c, s2).value);
        }
      }
    }
  }

  lemma DoSafe(c: Config, s: Sys, op: Op)
    requires c.Sensible() && Shape(c, s) && Safe(c, s) && ValidOp(c, op)
    ensures match Do(c, s, op)
      case Exit(f) => !ProtocolFault(f)
      case Ok(s1) => Safe(c, s1)
  {
    hide QueueShape, Step, AllSleepAgrees, BusLegal, Related;
    if op.Cycle? {
      StepSafe(c, s);
    } else {
      SameTablesKeep(c, s, Do(c, s, op).value, s.now, s.now - 1);
    }
  }

  lemma InitialSafe(c: Config, s: Sys)
    requires c.Sensible() && Shape(c, s) && Initial(c, s)
    ensures Safe(c, s)
  {
  }

  /** No run, whatever is asked and however many cycles pass, ends in a protocol exit. */
  lemma {:induction false} RunSafe(c: Config, s: Sys, ops: seq<Op>)
    requires c.Sensible() && Shape(c, s) && Safe(c, s) && forall i :: 0 <= i < |ops| ==> ValidOp(c, ops[i])
    ensures match Run(c, s, ops)
      case Exit(f) => !ProtocolFault(f)
      case Ok(s1) => Safe(c, s1)
    decreases |ops|
  {
    hide Shape, Do, Safe;
    if ops != [] {
      DoSafe(c, s, ops[0]);
      if Do(c, s, ops[0]).Ok? {
        RunSafe(c, Do(c, s, ops[0]).value, ops[1..]);
      }
    }
  }
}
