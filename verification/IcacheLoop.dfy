/** The stepping loops as they run: one over the whole budget, one along consecutive cache entries inside it. */
module IcacheLoop {
  import opened Wrappers
  import opened Icache

  class Hart<!S, !I> {
    const m: Machine<S, I>
    const icache: array<Entry<I>>
    var state: S
    var statePc: nat

    ghost predicate Valid() reads icache { Shape(icache[..]) }

    constructor (m: Machine<S, I>, s: S, pc: nat)
      ensures this.m == m && state == s && statePc == pc && fresh(icache) && Valid()
      ensures forall i :: 0 <= i < icache.Length ==> icache[i].tag.None?
    {
      this.m, state, statePc := m, s, pc;
      icache := new Entry<I>[ICACHE_ENTRIES](_ => Entry(None, None));
    }

    method FlushIcache()
      requires Valid()
      modifies icache
      ensures Valid() && icache[..] == Emptied(old(icache[..]))
    {
      for i := 0 to ICACHE_ENTRIES
        invariant forall j :: 0 <= j < i ==> icache[j] == old(icache[j]).(tag := None)
        invariant forall j :: i <= j < icache.Length ==> icache[j] == old(icache[j])
      {
        icache[i] := icache[i].(tag := None);
      }
      assert icache[..] == Emptied(old(icache[..]));
    }

    /** Executes one instruction; one that flushes empties the cache under the loop. */
    method ExecuteInsn(pc: nat, insn: I) returns (out: Out)
      requires Valid()
      modifies this`state, icache
      ensures Valid()
      ensures var e := m.exec(old(state), pc, insn);
        && state == e.state && out == e.out
        && icache[..] == if e.flushed then Emptied(old(icache[..])) else old(icache[..])
    {
      var e := m.exec(state, pc, insn);
      state := e.state;
      if e.flushed {
        FlushIcache();
      }
      return e.out;
    }

    /** The plain loop: every instruction is fetched and decoded anew. */
    method StepSlow(n: nat) returns (retired: nat, pc: nat, end: End)
      requires Valid()
      modifies this, icache
      ensures Run(state, pc, statePc, retired, end) == Slow(m, old(state), old(statePc), old(statePc), 0, n)
    {
      retired, pc, end := 0, statePc, Counted;
      while retired < n
        invariant Valid() && pc == statePc
        invariant Slow(m, old(state), old(statePc), old(statePc), 0, n) == Slow(m, state, pc, statePc, retired, n)
      {
        var insn := m.code(state, pc);
        if insn.None? {
          return retired, pc, Trapped;
        }
        var out := ExecuteInsn(pc, insn.value);
        match out
        case Trap => return retired, pc, Trapped;
        case SerializeBefore =>
          state := m.serialized(state);
          return retired, statePc, Serialized;
        case SerializeAfter(resume) =>
          statePc := resume;
          return retired + 1, statePc, Serialized;
        case Next(pc1) =>
          pc, statePc, retired := pc1, pc1, retired + 1;
      }
    }

    /** Runs along the entries from entry i on, until the loop is left or the next entry holds something else. */
    method FollowChain(i0: nat, pc0: nat, retired0: nat, n: nat)
        returns (stopped: bool, retired: nat, pc: nat, end: End)
      requires Valid() && i0 < ICACHE_ENTRIES && icache[i0].tag == Some(pc0) && pc0 == statePc && retired0 < n
      modifies this, icache
      ensures Valid()
      ensures stopped ==>
        (Run(state, pc, statePc, retired, end), icache[..]) ==
            Chain(m, old(state), pc0, pc0, retired0, n, old(icache[..]), i0)
      ensures !stopped ==> retired0 < retired && pc == statePc
      ensures !stopped ==>
        Fast(m, state, pc, pc, retired, n, icache[..]) ==
            Chain(m, old(state), pc0, pc0, retired0, n, old(icache[..]), i0)
    {
      hide Chain, Fast, Emptied;
      ghost var all := Chain(m, state, pc0, pc0, retired0, n, icache[..], i0);
      var i: nat := i0;
      retired, pc, end := retired0, pc0, Counted;
      while true
        invariant Valid() && i < ICACHE_ENTRIES && retired0 <= retired < n && pc == statePc && icache[i].tag == Some(pc)
        invariant all == Chain(m, state, pc, pc, retired, n, icache[..], i)
        decreases n - retired
      {
        ChainUnfold(m, state, pc, pc, retired, n, icache[..], i);
        var out := ExecuteInsn(pc, icache[i].data.value);
        match out
        case Trap => return true, retired, pc, Trapped;
        case SerializeBefore =>
          state := m.serialized(state);
          return true, retired, statePc, Serialized;
        case SerializeAfter(resume) =>
          statePc := resume;
          return true, retired + 1, statePc, Serialized;
        case Next(pc1) =>
          pc, statePc, retired := pc1, pc1, retired + 1;
          if i == ICACHE_ENTRIES - 1 {
            return false, retired, pc, Counted;
          }
          if icache[i + 1].tag != Some(pc) {
            if Follows(icache[i].tag, pc) {
              var insn := m.code(state, pc);
              if insn.None? {
                return true, retired, pc, Trapped;
              }
              icache[i + 1] := Entry(Some(pc), insn);
            }
            return false, retired, pc, Counted;
          }
          if retired == n {
            return true, retired, pc, Counted;
          }
          i := i + 1;
      }
    }

    /** The chained loop. */
    method StepFast(n: nat) returns (retired: nat, pc: nat, end: End)
      requires Valid()
      modifies this, icache
      ensures Valid()
      ensures (Run(state, pc, statePc, retired, end), icache[..]) ==
        Fast(m, old(state), old(statePc), old(statePc), 0, n, old(icache[..]))
    {
      hide Chain;
      ghost var all := Fast(m, state, statePc, statePc, 0, n, icache[..]);
      retired, pc, end := 0, statePc, Counted;
      while retired < n
        invariant Valid() && pc == statePc && end.Counted?
        invariant all == Fast(m, state, pc, pc, retired, n, icache[..])
        decreases n - retired
      {
        var i := Index(pc);
        if icache[i].tag != Some(pc) {
          var insn := m.code(state, pc);
          if insn.None? {
            return retired, pc, Trapped;
          }
          icache[i] := Entry(Some(pc), insn);
        }
        var stopped;
        stopped, retired, pc, end := FollowChain(i, pc, retired, n);
        if stopped {
          return;
        }
        end := Counted;
      }
    }
  }

  /** One round of the chain. */
  lemma ChainUnfold<S, I>(m: Machine<S, I>, s: S, pc: nat, saved: nat, retired: nat, n: nat,
      cache: seq<Entry<I>>, i: nat)
    requires Shape(cache) && i < ICACHE_ENTRIES && cache[i].tag == Some(pc) && retired < n
    ensures var e := m.exec(s, pc, cache[i].data.value); var cache1 := if e.flushed then Emptied(cache) else cache;
      var r := Chain(m, s, pc, saved, retired, n, cache, i);
      && (e.out.Trap? ==> r == (Run(e.state, pc, saved, retired, Trapped), cache1))
      && (e.out.SerializeBefore? ==> r == (Run(m.serialized(e.state), saved, saved, retired, Serialized), cache1))
      && (e.out.SerializeAfter? ==> r == (Run(e.state, e.out.resume, e.out.resume, retired + 1, Serialized), cache1))
      && (e.out.Next? ==> r == AfterNext(m, e.state, e.out.pc, retired + 1, n, cache1, i))
  {
  }

  /** What follows an instruction that was executed at entry i and leads to pc. */
  function AfterNext<S, I>(m: Machine<S, I>, s: S, pc: nat, retired: nat, n: nat, cache: seq<Entry<I>>,
      i: nat): (Run<S>, seq<Entry<I>>)
    requires Shape(cache) && i < ICACHE_ENTRIES && retired <= n
  {
    if i == ICACHE_ENTRIES - 1 then Fast(m, s, pc, pc, retired, n, cache)
    else if cache[i + 1].tag == Some(pc) then
      if retired == n then (Run(s, pc, pc, n, Counted), cache) else Chain(m, s, pc, pc, retired, n, cache, i + 1)
    else if Follows(cache[i].tag, pc) then
      var insn := m.code(s, pc);
      if insn.None? then (Run(s, pc, pc, retired, Trapped), cache)
      else Fast(m, s, pc, pc, retired, n, cache[i + 1 := Entry(Some(pc), insn)])
    else Fast(m, s, pc, pc, retired, n, cache)
  }
}
