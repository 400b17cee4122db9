/** The clock-domain crosser: how often it calls back, over any number of updates. */
module ClockDomain {
  import opened Arith

  /** The quotient rounded up. */
  function CeilDiv(a: nat, b: nat): nat
    requires b > 0
  {
    Division(a, b);
    MulOrder(a / b, -1, b);
    if a % b == 0 then a / b else a / b + 1
  }

  lemma CeilUnique(a: nat, b: nat, k: nat)
    requires b > 0 && a <= k * b && (k == 0 || (k - 1) * b < a)
    ensures CeilDiv(a, b) == k
  {
    if k == 0 {
      QuotientUnique(a, b, 0);
    } else if a == k * b {
      ModZero(k, b);
    } else {
      assert (k - 1) * b + b == k * b;
      QuotientUnique(a, b, k - 1);
    }
  }

  /** The counters, and what has happened before the last time both were set back: whole periods of both clocks. */
  datatype State = State(counter1: nat, counter2: nat, calls: nat)

  /** One update with a callback set. */
  function Update(clock1: nat, clock2: nat, s: State): State
    requires clock2 > 0
  {
    if clock1 == clock2 then s.(calls := s.calls + 1)
    else
      var c1 := s.counter1 + clock1;
      var (c2, calls) := CatchUp(clock2, c1, s.counter2, s.calls);
      if c1 == c2 then State(0, 0, calls) else State(c1, c2, calls)
  }

  function CatchUp(clock2: nat, c1: nat, c2: nat, calls: nat): (nat, nat)
    requires clock2 > 0
    decreases if c2 < c1 then c1 - c2 else 0
  {
    if c2 < c1 then CatchUp(clock2, c1, c2 + clock2, calls + 1) else (c2, calls)
  }

  function Updates(clock1: nat, clock2: nat, n: nat): State
    requires clock2 > 0
  {
    if n == 0 then State(0, 0, 0) else Update(clock1, clock2, Updates(clock1, clock2, n - 1))
  }

  /** The second counter is the first multiple of its clock at or above the first counter. */
  predicate CaughtUp(clock2: nat, s: State) { s.counter1 <= s.counter2 < s.counter1 + clock2 }

  /** Both counters lack the same amount r of the true totals, and r is a common multiple of the clocks. */
  predicate Offset(clock1: nat, clock2: nat, n: nat, s: State, r: nat, i: nat, j: nat) {
    && n * clock1 == r + s.counter1 && s.calls * clock2 == r + s.counter2
    && r == i * clock1 == j * clock2
  }

  lemma {:induction false} CatchUpReaches(clock2: nat, c1: nat, c2: nat, calls: nat)
    requires clock2 > 0 && c2 < c1 + clock2
    ensures var (d, k) := CatchUp(clock2, c1, c2, calls);
      c1 <= d < c1 + clock2 && k >= calls && d - c2 == (k - calls) * clock2
    decreases if c2 < c1 then c1 - c2 else 0
  {
    if c2 < c1 {
      CatchUpReaches(clock2, c1, c2 + clock2, calls + 1);
      var (d, k) := CatchUp(clock2, c1, c2 + clock2, calls + 1);
      assert (k - (calls + 1)) * clock2 + clock2 == (k - calls) * clock2;
    }
  }

  /** The invariant over any number of updates. */
  lemma {:induction false} UpdatesKeep(clock1: nat, clock2: nat, n: nat) returns (r: nat, i: nat, j: nat)
    requires clock2 > 0 && clock1 != clock2
    ensures var s := Updates(clock1, clock2, n); Offset(clock1, clock2, n, s, r, i, j) && CaughtUp(clock2, s)
    ensures var s := Updates(clock1, clock2, n); s.counter1 == s.counter2 ==> s.counter1 == 0
  {
    if n == 0 {
      return 0, 0, 0;
    }
    r, i, j := UpdatesKeep(clock1, clock2, n - 1);
    var s := Updates(clock1, clock2, n - 1);
    var c1 := s.counter1 + clock1;
    CatchUpReaches(clock2, c1, s.counter2, s.calls);
    var (c2, calls) := CatchUp(clock2, c1, s.counter2, s.calls);
    Totals(clock1, clock2, n, calls, s.calls);
    UpdateCases(clock1, clock2, s);
    assert Updates(clock1, clock2, n) == Update(clock1, clock2, s);
    hide *;
    OffsetNext(clock1, clock2, n, s, r, i, j, c2, calls);
    if c1 == c2 {
      r, i, j := n * clock1, n, calls;
    }
  }

  lemma Totals(clock1: nat, clock2: nat, n: nat, calls: nat, before: nat)
    ensures n * clock1 == (n - 1) * clock1 + clock1
    ensures calls * clock2 == before * clock2 + (calls - before) * clock2
  {
  }

  lemma UpdateCases(clock1: nat, clock2: nat, s: State)
    requires clock2 > 0 && clock1 != clock2
    ensures var (c2, calls) := CatchUp(clock2, s.counter1 + clock1, s.counter2, s.calls);
      Update(clock1, clock2, s) ==
        if s.counter1 + clock1 == c2 then State(0, 0, calls) else State(s.counter1 + clock1, c2, calls)
  {
  }

  /** The counters after one update lack what they lacked before, unless they meet. */
  lemma OffsetNext(clock1: nat, clock2: nat, n: nat, s: State, r: nat, i: nat, j: nat, c2: nat, calls: nat)
    requires clock2 > 0 && n > 0 && Offset(clock1, clock2, n - 1, s, r, i, j) && CaughtUp(clock2, s)
    requires n * clock1 == (n - 1) * clock1 + clock1 && calls * clock2 == s.calls * clock2 + (c2 - s.counter2)
    requires var c1 := s.counter1 + clock1; c1 <= c2 < c1 + clock2
    ensures var c1 := s.counter1 + clock1;
      && (c1 != c2 ==>
          Offset(clock1, clock2, n, State(c1, c2, calls), r, i, j) && CaughtUp(clock2, State(c1, c2, calls)))
      && (c1 == c2 ==>
          Offset(clock1, clock2, n, State(0, 0, calls), n * clock1, n, calls) && CaughtUp(clock2, State(0, 0, calls)))
  {
  }

  /**
   After n updates the crosser has called back exactly as often as the second clock has ticked: n c1 / c2,
   rounded up.
  */
  lemma CallbacksExact(clock1: nat, clock2: nat, n: nat)
    requires clock2 > 0
    ensures Updates(clock1, clock2, n).calls == CeilDiv(n * clock1, clock2)
  {
    if clock1 == clock2 {
      EqualClocks(clock1, n);
      ModZero(n, clock1);
      CeilUnique(n * clock1, clock2, n) by {
        if n > 0 {
          assert (n - 1) * clock1 + clock1 == n * clock1;
        }
      }
    } else {
      var r, i, j := UpdatesKeep(clock1, clock2, n);
      var s := Updates(clock1, clock2, n);
      if s.calls > 0 {
        assert (s.calls - 1) * clock2 + clock2 == s.calls * clock2;
      } else {
        assert s.calls * clock2 == 0;
      }
      MulNonNegative(n, clock1);
      CeilUnique(n * clock1, clock2, s.calls);
    }
  }

  lemma {:induction false} EqualClocks(clock: nat, n: nat)
    requires clock > 0
    ensures Updates(clock, clock, n).calls == n
  {
    if n > 0 {
      EqualClocks(clock, n - 1);
    }
  }

  /** Between updates the first counter stays below every common multiple of the clocks, hence below the least one. */
  lemma {:induction false} CountersBounded(clock1: nat, clock2: nat, n: nat, m: nat, a: nat, b: nat)
    requires clock1 > 0 && clock2 > 0 && m > 0 && m == a * clock1 == b * clock2
    ensures var s := Updates(clock1, clock2, n); s.counter1 < m && s.counter2 < m + clock2
  {
    if n > 0 {
      CountersBounded(clock1, clock2, n - 1, m, a, b);
      if clock1 != clock2 {
        var r, i, j := UpdatesKeep(clock1, clock2, n - 1);
        hide Updates, Update;
        BoundedStep(clock1, clock2, Updates(clock1, clock2, n - 1), n - 1, m, a, b, r, i, j);
        OneUpdate(clock1, clock2, n);
      }
    }
  }

  lemma OneUpdate(clock1: nat, clock2: nat, n: nat)
    requires clock2 > 0 && n > 0
    ensures Updates(clock1, clock2, n) == Update(clock1, clock2, Updates(clock1, clock2, n - 1))
  {
  }

  lemma BoundedStep(clock1: nat, clock2: nat, s: State, n: nat, m: nat, a: nat, b: nat, r: nat, i: nat, j: nat)
    requires clock1 > 0 && clock2 > 0 && clock1 != clock2 && m > 0 && m == a * clock1 == b * clock2
    requires Offset(clock1, clock2, n, s, r, i, j) && CaughtUp(clock2, s) && s.counter1 < m
    ensures var e := Update(clock1, clock2, s); e.counter1 < m && e.counter2 < m + clock2
  {
    var c1 := s.counter1 + clock1;
    CatchUpReaches(clock2, c1, s.counter2, s.calls);
    assert (n - i) * clock1 == n * clock1 - i * clock1;
    StepsTo(s.counter1, clock1, n - i, a);
    hide CatchUp;
    if c1 == m {
      LandsOn(s, clock2, c1, j, b);
    }
  }

  /** A multiple below a multiple is a whole step below it. */
  lemma StepsTo(x: int, clock: int, k: int, a: int)
    requires clock > 0 && x < a * clock
    ensures x == k * clock ==> x + clock <= a * clock
  {
    MulOrder(k, a, clock);
  }

  /** When the first counter arrives at a common multiple, so does the second. */
  lemma LandsOn(s: State, clock2: nat, c1: nat, j: nat, b: nat)
    requires clock2 > 0 && s.counter2 < c1 + clock2 && s.calls * clock2 == j * clock2 + s.counter2 && c1 == b * clock2
    ensures CatchUp(clock2, c1, s.counter2, s.calls).0 == c1
  {
    CatchUpReaches(clock2, c1, s.counter2, s.calls);
    var (d, k) := CatchUp(clock2, c1, s.counter2, s.calls);
    assert d == (k - j) * clock2 by {
      assert (k - j) * clock2 == (k - s.calls) * clock2 + (s.calls * clock2 - j * clock2);
    }
    MulOrder(b, k - j, clock2);
    MulOrder(k - j, b, clock2);
  }

  class ClockDomainCrosser {
    const clock1: nat
    const clock2: nat
    var counter1: nat
    var counter2: nat
    /** How often the callback has been invoked. */
    var calls: nat

    function Contents(): State reads this { State(counter1, counter2, calls) }

    constructor (clock1: nat, clock2: nat)
      ensures this.clock1 == clock1 && this.clock2 == clock2 && Contents() == State(0, 0, 0)
    {
      this.clock1, this.clock2 := clock1, clock2;
      counter1, counter2, calls := 0, 0, 0;
    }

    method Tick()
      requires clock2 > 0
      modifies this
      ensures Contents() == Update(clock1, clock2, old(Contents()))
    {
      if clock1 == clock2 {
        calls := calls + 1;
        return;
      }
      counter1 := counter1 + clock1;
      while counter2 < counter1
        invariant counter1 == old(counter1) + clock1
        invariant CatchUp(clock2, counter1, old(counter2), old(calls)) == CatchUp(clock2, counter1, counter2, calls)
        decreases if counter2 < counter1 then counter1 - counter2 else 0
      {
        counter2 := counter2 + clock2;
        calls := calls + 1;
      }
      if counter1 == counter2 {
        counter1 := 0;
        counter2 := 0;
      }
    }
  }
}
