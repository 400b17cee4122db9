/**
 Which ranks sleep.  After every update a rank is awake that has something to do, as soon as it may wake, and asleep
 that has nothing to do.
*/
module DramPowers {
  import opened Wrappers
  import opened DramTypes
  import opened DramBank
  import opened DramQueue
  import opened DramRank
  import opened DramSystem
  import opened DramSafety
  import opened DramTheorems
  import DramOrderTheorems

  /** Nothing is queued for the rank, no refresh is due, and no row is open or about to close. */
  predicate Resting(c: Config, s: Sys, i: nat)
    requires c.Sensible() && Shape(c, s) && i < c.ranks
  {
    && (forall b :: 0 <= b < c.banks ==> Line(c, s.queue, i, b) == []) && !s.ranks[i].refreshWaiting
    && forall b :: 0 <= b < c.banks ==> s.table[i][b].mode.Idle? || s.table[i][b].mode.PowerDown?
  }

  /** The rank has something to do. */
  predicate Wanted(c: Config, s: Sys, i: nat)
    requires c.Sensible() && Shape(c, s) && i < c.ranks
  {
    s.ranks[i].refreshWaiting || exists b :: 0 <= b < c.banks && Line(c, s.queue, i, b) != []
  }

  /** At the end of cycle t the rank is as it should be. */
  predicate PowerFits(c: Config, s: Sys, i: nat, t: int)
    requires c.Sensible() && Shape(c, s) && i < c.ranks
  {
    && (Resting(c, s, i) ==> s.powerDown[i])
    && (Wanted(c, s, i) && s.powerDown[i] ==> t < s.table[i][0].nextPowerUp)
  }

  lemma EmptyLines(c: Config, s: Sys, i: nat)
    requires c.Sensible() && Shape(c, s) && i < c.ranks
    ensures Empty(c, s.queue, i) <==> forall b :: 0 <= b < c.banks ==> Line(c, s.queue, i, b) == []
  {
    if forall b :: 0 <= b < c.banks ==> Line(c, s.queue, i, b) == [] {
      forall k | 0 <= k < c.QueuesPerRank() ensures s.queue.queues[i][k] == [] {
        assert Line(c, s.queue, i, k) == s.queue.queues[i][Slot(c, k)];
      }
    }
  }

  lemma PowerRankFits(c: Config, s: Sys, i: nat)
    requires c.Sensible() && Shape(c, s) && i < c.ranks && PowerRank(c, s, i).Ok? && SleepAgrees(c, s, i)
    ensures PowerFits(c, PowerRank(c, s, i).value, i, s.now)
  {
    EmptyLines(c, s, i);
    hide QueueShape;
  }

  /** What a rank's power state depends on. */
  predicate SamePower(c: Config, s: Sys, s1: Sys, r: nat)
    requires c.Sensible() && Shape(c, s) && Shape(c, s1) && r < c.ranks
  {
    && s1.queue.queues == s.queue.queues && s1.table[r] == s.table[r] && s1.powerDown[r] == s.powerDown[r]
    && s1.ranks[r].refreshWaiting == s.ranks[r].refreshWaiting
  }

  lemma SamePowerFits(c: Config, s: Sys, s1: Sys, r: nat, t: int)
    requires c.Sensible() && Shape(c, s) && Shape(c, s1) && r < c.ranks && SamePower(c, s, s1, r)
    requires PowerFits(c, s, r, t)
    ensures PowerFits(c, s1, r, t)
  {
    assert forall b :: 0 <= b < c.banks ==> Line(c, s1.queue, r, b) == Line(c, s.queue, r, b);
    hide QueueShape;
  }

  lemma PowerRankOthers(c: Config, s: Sys, i: nat, r: nat)
    requires c.Sensible() && Shape(c, s) && i < c.ranks && r < c.ranks && r != i && PowerRank(c, s, i).Ok?
    ensures SamePower(c, s, PowerRank(c, s, i).value, r) && PowerRank(c, s, i).value.now == s.now
  {
    hide QueueShape;
  }

  lemma {:induction false} PowerRanksFit(c: Config, s: Sys, i: nat)
    requires c.Sensible() && Shape(c, s) && i <= c.ranks && c.lowPower
    requires Related(c, s, s.now + 1, s.now) && BusLegal(c, s, s.now + 1) && AllSleepAgrees(c, s) && BusBusy(c, s)
    requires forall r :: 0 <= r < i ==> PowerFits(c, s, r, s.now)
    ensures PowerRanks(c, s, i).Ok? && PowerRanks(c, s, i).value.now == s.now
    ensures forall r :: 0 <= r < c.ranks ==> PowerFits(c, PowerRanks(c, s, i).value, r, s.now)
    decreases c.ranks - i
  {
    hide QueueShape, Related, BusLegal, BusBusy, PowerRank, SleepAgrees, PowerFits, SamePower;
    if i < c.ranks {
      PowerRankSafe(c, s, i);
      PowerRankFits(c, s, i);
      var s1 := PowerRank(c, s, i).value;
      forall r | 0 <= r < i ensures PowerFits(c, s1, r, s.now) {
        PowerRankOthers(c, s, i, r);
        SamePowerFits(c, s, s1, r, s.now);
      }
      PowerRanksFit(c, s1, i + 1);
    }
  }

  lemma CloseFits(c: Config, s: Sys)
    requires c.Sensible() && Shape(c, s) && GoodIssued(c, s) && c.lowPower && Close(c, s).Ok?
    ensures Close(c, s).value.now == s.now + 1
    ensures forall r :: 0 <= r < c.ranks ==> PowerFits(c, Close(c, s).value, r, s.now)
  {
    IssuedParts(c, s);
    hide QueueShape, GoodIssued, Related, AllSleepAgrees, BusLegal, BusBusy, PowerRanks, PowerFits;
    PowerRanksFit(c, s, 0);
    var s1 := PowerRanks(c, s, 0).value;
    forall r | 0 <= r < c.ranks ensures PowerFits(c, Close(c, s).value, r, s.now) {
      assert PowerFits(c, s1, r, s.now);
      SamePowerFits(c, s1, Close(c, s).value, r, s.now);
    }
  }

  lemma IssuedParts(c: Config, s: Sys)
    requires c.Sensible() && Shape(c, s) && GoodIssued(c, s)
    ensures Related(c, s, s.now + 1, s.now) && BusLegal(c, s, s.now + 1) && AllSleepAgrees(c, s) && BusBusy(c, s)
  {
  }

  lemma StepFits(c: Config, s: Sys)
    requires c.Sensible() && Shape(c, s) && Good(c, s) && c.lowPower && Step(c, s).Ok?
    ensures Step(c, s).value.now == s.now + 1
    ensures forall r :: 0 <= r < c.ranks ==> PowerFits(c, Step(c, s).value, r, s.now)
  {
    hide Shape, Good, GoodInside, GoodIssued, Arrive, MoveBuses, IssueNext, Schedule, Close, RefreshTimer, PowerFits;
    FirstHalfGood(c, s);
    var s2 := MoveBuses(c, Arrive(c, s).value).value;
    var s3 := RefreshTimer(c, s2);
    RefreshTimerGood(c, s2);
    IssueNextGood(c, s3);
    var s4 := IssueNext(c, s3).value;
    ScheduleGood(c, s4);
    CloseFits(c, Schedule(c, s4).value);
  }

  /**
   With low power on, after an update in any run every rank sleeps that has nothing queued, no refresh due and no
   row open; and a sleeping rank that has something to do has not slept for its shortest time yet.
  */
  lemma SleepsAndWakes(c: Config, s: Sys, ops: seq<Op>, r: nat)
    requires c.Sensible() && Initial(c, s) && forall i :: 0 <= i < |ops| ==> ValidOp(c, ops[i])
    requires c.lowPower && r < c.ranks && Run(c, s, ops).Ok? && Step(c, Run(c, s, ops).value).Ok?
    ensures var e := Step(c, Run(c, s, ops).value).value;
      && (Resting(c, e, r) ==> e.powerDown[r])
      && (Wanted(c, e, r) && e.powerDown[r] ==> e.now <= e.table[r][0].nextPowerUp)
  {
    hide Run, Step, Good, DramOrderTheorems.Orderly, QueueShape, InitialQueue, Resting, Wanted;
    InitialGood(c, s);
    DramOrderTheorems.InitialOrderly(c, s);
    DramOrderTheorems.RunOrderly(c, s, ops);
    StepFits(c, Run(c, s, ops).value);
    var e := Step(c, Run(c, s, ops).value).value;
    assert PowerFits(c, e, r, e.now - 1);
  }
}
