/**
 Instruction stepping: the plain fetch-decode-execute loop, and the loop that runs along consecutive
 entries of the instruction cache as long as each next entry holds the next instruction.
*/
module Icache {
  import opened Words
  import opened Wrappers

  const ICACHE_ENTRIES: nat := 1024
  const MAX_INSN_LENGTH: nat := 8

  /** What executing an instruction leads to; the two serializing results stand for the odd program counters. */
  datatype Out = Next(pc: nat) | SerializeBefore | SerializeAfter(resume: nat) | Trap

  datatype Effect<S> = Effect(state: S, out: Out, flushed: bool)

  /**
   The processor without its loops: the decoded instruction at an address, if it can be fetched; the
   execution of an instruction, which may flush the cache; and noting that serialization is done.
  */
  datatype Machine<!S, !I> = Machine(code: (S, nat) -> Option<I>, exec: (S, nat, I) -> Effect<S>, serialized: S -> S)

  datatype End = Counted | Serialized | Trapped

  /** Where a loop stands: the state, the program counter, the one saved in the state, and the instructions retired. */
  datatype Run<S> = Run(state: S, pc: nat, saved: nat, retired: nat, end: End)

  datatype Entry<I> = Entry(tag: Option<nat>, data: Option<I>)

  function Index(pc: nat): (i: nat)
    ensures i < ICACHE_ENTRIES
  {
    pc / 2 % ICACHE_ENTRIES
  }

  /** advance_pc: where an instruction that did not trap leaves the loop, or nothing if the loop goes on. */
  function Leaves<S, I>(m: Machine<S, I>, s: S, out: Out, saved: nat, retired: nat): Option<Run<S>> {
    match out
    case Next(pc) => None
    case SerializeBefore => Some(Run(m.serialized(s), saved, saved, retired, Serialized))
    case SerializeAfter(resume) => Some(Run(s, resume, resume, retired + 1, Serialized))
    case Trap => None
  }

  // ---- the plain loop ----

  function Slow<S, I>(m: Machine<S, I>, s: S, pc: nat, saved: nat, retired: nat, n: nat): Run<S>
    decreases n - retired
  {
    if retired >= n then Run(s, pc, saved, retired, Counted)
    else
      match m.code(s, pc)
      case None => Run(s, pc, saved, retired, Trapped)
      case Some(insn) =>
        var e := m.exec(s, pc, insn);
        if e.out.Trap? then Run(e.state, pc, saved, retired, Trapped)
        else if e.out.Next? then Slow(m, e.state, e.out.pc, e.out.pc, retired + 1, n)
        else Leaves(m, e.state, e.out, saved, retired).value
  }

  // ---- the chained loop ----

  predicate Shape<I>(cache: seq<Entry<I>>) {
    |cache| == ICACHE_ENTRIES && forall i :: 0 <= i < |cache| ==> (cache[i].tag.Some? ==> cache[i].data.Some?)
  }

  function Emptied<I>(cache: seq<Entry<I>>): (r: seq<Entry<I>>)
    requires Shape(cache)
    ensures Shape(r) && forall i :: 0 <= i < |r| ==> r[i].tag.None?
  {
    seq(|cache|, i requires 0 <= i < |cache| => cache[i].(tag := None))
  }

  /** The entry after the current one is refilled unless a branch was taken far away. */
  predicate Follows(tag: Option<nat>, pc: nat) {
    tag.Some? && pc > tag.value && pc <= (tag.value + MAX_INSN_LENGTH) % W64
  }

  /** The chained loop where it looks up its program counter in the cache. */
  function Fast<S, I>(m: Machine<S, I>, s: S, pc: nat, saved: nat, retired: nat, n: nat,
      cache: seq<Entry<I>>): (Run<S>, seq<Entry<I>>)
    requires Shape(cache)
    decreases n - retired, 1
  {
    if retired >= n then (Run(s, pc, saved, retired, Counted), cache)
    else
      var i := Index(pc);
      if cache[i].tag == Some(pc) then Chain(m, s, pc, saved, retired, n, cache, i)
      else
        match m.code(s, pc)
        case None => (Run(s, pc, saved, retired, Trapped), cache)
        case Some(insn) => Chain(m, s, pc, saved, retired, n, cache[i := Entry(Some(pc), Some(insn))], i)
  }

  /** The chained loop at entry i, which holds the instruction at pc. */
  function Chain<S, I>(m: Machine<S, I>, s: S, pc: nat, saved: nat, retired: nat, n: nat, cache: seq<Entry<I>>,
      i: nat): (Run<S>, seq<Entry<I>>)
    requires Shape(cache) && i < ICACHE_ENTRIES && cache[i].tag == Some(pc) && retired < n
    decreases n - retired, 0
  {
    var e := m.exec(s, pc, cache[i].data.value);
    var cache1 := if e.flushed then Emptied(cache) else cache;
    if e.out.Trap? then (Run(e.state, pc, saved, retired, Trapped), cache1)
    else if !e.out.Next? then (Leaves(m, e.state, e.out, saved, retired).value, cache1)
    else
      var pc1 := e.out.pc;
      if i == ICACHE_ENTRIES - 1 then Fast(m, e.state, pc1, pc1, retired + 1, n, cache1)
      else if cache1[i + 1].tag == Some(pc1) then
        if retired + 1 == n then (Run(e.state, pc1, pc1, n, Counted), cache1)
        else Chain(m, e.state, pc1, pc1, retired + 1, n, cache1, i + 1)
      else if Follows(cache1[i].tag, pc1) then
        match m.code(e.state, pc1)
        case None => (Run(e.state, pc1, pc1, retired + 1, Trapped), cache1)
        case Some(insn) => Fast(m, e.state, pc1, pc1, retired + 1, n, cache1[i + 1 := Entry(Some(pc1), Some(insn))])
      else Fast(m, e.state, pc1, pc1, retired + 1, n, cache1)
  }

  // ---- the two agree ----

  /** Whatever its place, a tagged entry holds the instruction at its tag. */
  ghost predicate Holds<S, I>(m: Machine<S, I>, s: S, cache: seq<Entry<I>>) {
    Shape(cache) && forall i :: 0 <= i < |cache| && cache[i].tag.Some? ==>
        m.code(s, cache[i].tag.value) == cache[i].data
  }

  ghost predicate SameCode<S, I>(m: Machine<S, I>, s: S, s1: S) { forall a: nat :: m.code(s1, a) == m.code(s, a) }

  /** Noting that serialization is done changes no instruction. */
  ghost predicate NotingKeepsCode<S(!new), I>(m: Machine<S, I>) { forall s: S :: SameCode(m, s, m.serialized(s)) }

  /** In the plain run code changes only together with a flush. */
  ghost predicate CodeKept<S, I>(m: Machine<S, I>, s: S, pc: nat, retired: nat, n: nat)
    decreases n - retired
  {
    retired < n && m.code(s, pc).Some? ==>
      var e := m.exec(s, pc, m.code(s, pc).value);
      && (!e.flushed ==> SameCode(m, s, e.state))
      && (e.out.Next? ==> CodeKept(m, e.state, e.out.pc, retired + 1, n))
  }

  /** The same run; the chained loop may have met the trap of the fetch after the last instruction already. */
  ghost predicate Agree<S, I>(m: Machine<S, I>, fast: Run<S>, slow: Run<S>, n: nat) {
    && fast.state == slow.state && fast.pc == slow.pc && fast.saved == slow.saved && fast.retired == slow.retired
    && (fast.end == slow.end
        || (fast.end.Trapped? && slow.end.Counted? && fast.retired == n && m.code(fast.state, fast.pc).None?))
  }

  lemma HoldsAfter<S, I>(m: Machine<S, I>, s: S, cache: seq<Entry<I>>, e: Effect<S>)
    requires Holds(m, s, cache) && (!e.flushed ==> SameCode(m, s, e.state))
    ensures Holds(m, e.state, if e.flushed then Emptied(cache) else cache)
  {
  }

  lemma HoldsRefilled<S, I>(m: Machine<S, I>, s: S, cache: seq<Entry<I>>, i: nat, pc: nat)
    requires Holds(m, s, cache) && i < ICACHE_ENTRIES && m.code(s, pc).Some?
    ensures Holds(m, s, cache[i := Entry(Some(pc), m.code(s, pc))])
  {
  }

  lemma {:induction false} FastAgrees<S(!new), I>(m: Machine<S, I>, s: S, pc: nat, saved: nat, retired: nat, n: nat,
      cache: seq<Entry<I>>)
    requires NotingKeepsCode(m) && Holds(m, s, cache) && CodeKept(m, s, pc, retired, n)
    ensures Agree(m, Fast(m, s, pc, saved, retired, n, cache).0, Slow(m, s, pc, saved, retired, n), n)
    ensures Holds(m, Fast(m, s, pc, saved, retired, n, cache).0.state, Fast(m, s, pc, saved, retired, n, cache).1)
    decreases n - retired, 1
  {
    if retired < n {
      var i := Index(pc);
      if cache[i].tag == Some(pc) {
        ChainAgrees(m, s, pc, saved, retired, n, cache, i);
      } else if m.code(s, pc).Some? {
        HoldsRefilled(m, s, cache, i, pc);
        ChainAgrees(m, s, pc, saved, retired, n, cache[i := Entry(Some(pc), m.code(s, pc))], i);
      }
    }
  }

  lemma {:induction false} ChainAgrees<S(!new), I>(m: Machine<S, I>, s: S, pc: nat, saved: nat, retired: nat, n: nat,
      cache: seq<Entry<I>>, i: nat)
    requires NotingKeepsCode(m) && Holds(m, s, cache) && CodeKept(m, s, pc, retired, n)
    requires i < ICACHE_ENTRIES && cache[i].tag == Some(pc) && retired < n
    ensures Agree(m, Chain(m, s, pc, saved, retired, n, cache, i).0, Slow(m, s, pc, saved, retired, n), n)
    ensures Holds(m, Chain(m, s, pc, saved, retired, n, cache, i).0.state,
      Chain(m, s, pc, saved, retired, n, cache, i).1)
    decreases n - retired, 0
  {
    assert m.code(s, pc) == cache[i].data;
    var e := m.exec(s, pc, cache[i].data.value);
    var cache1 := if e.flushed then Emptied(cache) else cache;
    HoldsAfter(m, s, cache, e);
    if e.out.Next? {
      var pc1 := e.out.pc;
      if i == ICACHE_ENTRIES - 1 {
        FastAgrees(m, e.state, pc1, pc1, retired + 1, n, cache1);
      } else if cache1[i + 1].tag == Some(pc1) {
        if retired + 1 < n {
          ChainAgrees(m, e.state, pc1, pc1, retired + 1, n, cache1, i + 1);
        }
      } else if Follows(cache1[i].tag, pc1) {
        if m.code(e.state, pc1).Some? {
          HoldsRefilled(m, e.state, cache1, i + 1, pc1);
          FastAgrees(m, e.state, pc1, pc1, retired + 1, n, cache1[i + 1 := Entry(Some(pc1), m.code(e.state, pc1))]);
        }
      } else {
        FastAgrees(m, e.state, pc1, pc1, retired + 1, n, cache1);
      }
    }
  }

  /** A plain run that stops because of the count has retired exactly n instructions, and never more. */
  lemma {:induction false} RetiresAtMost<S, I>(m: Machine<S, I>, s: S, pc: nat, saved: nat, retired: nat, n: nat)
    requires retired <= n
    ensures var r := Slow(m, s, pc, saved, retired, n); retired <= r.retired <= n && (r.end.Counted? ==> r.retired == n)
    decreases n - retired
  {
    if retired < n && m.code(s, pc).Some? {
      var e := m.exec(s, pc, m.code(s, pc).value);
      if e.out.Next? {
        RetiresAtMost(m, e.state, e.out.pc, e.out.pc, retired + 1, n);
      }
    }
  }

  /** Whatever is cached, the chained loop retires what the plain loop retires, and at most n instructions. */
  lemma ChainedLoopIsPlain<S(!new), I>(m: Machine<S, I>, s: S, pc: nat, n: nat, cache: seq<Entry<I>>)
    requires NotingKeepsCode(m) && Holds(m, s, cache) && CodeKept(m, s, pc, 0, n)
    ensures var (fast, cache1) := Fast(m, s, pc, pc, 0, n, cache);
      Agree(m, fast, Slow(m, s, pc, pc, 0, n), n) && fast.retired <= n && Holds(m, fast.state, cache1)
  {
    FastAgrees(m, s, pc, pc, 0, n, cache);
    RetiresAtMost(m, s, pc, pc, 0, n);
  }

  // ---- any number of calls ----

  /** A call of the loop, or whatever happens between calls: a trap is taken, or the outside changes the state. */
  datatype Event<S> = Call(n: nat) | Change(state: S, pc: nat, flushed: bool)

  /** Between events: the state with its program counter, and the instruction cache. */
  datatype Core<S, I> = Core(state: S, pc: nat, cache: seq<Entry<I>>)

  /** One event for the processor that runs along its cache. */
  function React<S, I>(m: Machine<S, I>, c: Core<S, I>, e: Event<S>): (r: Core<S, I>)
    requires Shape(c.cache)
  {
    match e
    case Call(n) => var (run, cache) := Fast(m, c.state, c.pc, c.pc, 0, n, c.cache); Core(run.state, run.saved, cache)
    case Change(s, pc, flushed) => Core(s, pc, if flushed then Emptied(c.cache) else c.cache)
  }

  /** The same for the plain processor, which has no cache. */
  function PlainReact<S, I>(m: Machine<S, I>, s: S, pc: nat, e: Event<S>): (S, nat) {
    match e
    case Call(n) => var run := Slow(m, s, pc, pc, 0, n); (run.state, run.saved)
    case Change(s1, pc1, _) => (s1, pc1)
  }

  ghost predicate KeepsCode<S, I>(m: Machine<S, I>, s: S, pc: nat, e: Event<S>) {
    match e
    case Call(n) => CodeKept(m, s, pc, 0, n)
    case Change(s1, _, flushed) => flushed || SameCode(m, s, s1)
  }

  /** In this history of the plain processor code changes only together with a flush. */
  ghost predicate History<S, I>(m: Machine<S, I>, s: S, pc: nat, events: seq<Event<S>>)
    decreases |events|
  {
    events != [] ==>
      && KeepsCode(m, s, pc, events[0])
      && var (s1, pc1) := PlainReact(m, s, pc, events[0]); History(m, s1, pc1, events[1..])
  }

  /** In every call of the history the two loops agree, and between the calls the two processors are in one state. */
  ghost predicate SameHistory<S, I>(m: Machine<S, I>, c: Core<S, I>, s: S, pc: nat, events: seq<Event<S>>)
    decreases |events|
  {
    && Shape(c.cache) && c.state == s && c.pc == pc
    && (events != [] ==>
         && (events[0].Call? ==>
              var fast := Fast(m, s, pc, pc, 0, events[0].n, c.cache).0;
              Agree(m, fast, Slow(m, s, pc, pc, 0, events[0].n), events[0].n) && fast.retired <= events[0].n)
         && var (s1, pc1) := PlainReact(m, s, pc, events[0]);
            SameHistory(m, React(m, c, events[0]), s1, pc1, events[1..]))
  }

  lemma ReactHolds<S(!new), I>(m: Machine<S, I>, c: Core<S, I>, e: Event<S>)
    requires NotingKeepsCode(m) && Holds(m, c.state, c.cache) && KeepsCode(m, c.state, c.pc, e)
    ensures var c1 := React(m, c, e);
      Holds(m, c1.state, c1.cache) && (c1.state, c1.pc) == PlainReact(m, c.state, c.pc, e)
  {
    if e.Call? {
      ChainedLoopIsPlain(m, c.state, c.pc, e.n, c.cache);
    }
  }

  /**
   Over any history of calls, traps, flushes and outside changes, the processor with the cache does in every
   call what the plain one does.
  */
  lemma {:induction false} HistoriesAgree<S(!new), I>(m: Machine<S, I>, c: Core<S, I>, events: seq<Event<S>>)
    requires NotingKeepsCode(m) && Holds(m, c.state, c.cache) && History(m, c.state, c.pc, events)
    ensures SameHistory(m, c, c.state, c.pc, events)
    decreases |events|
  {
    hide Fast, Slow, CodeKept, Holds, SameCode;
    HoldsShape(m, c);
    if events != [] {
      if events[0].Call? {
        ChainedLoopIsPlain(m, c.state, c.pc, events[0].n, c.cache);
      }
      ReactHolds(m, c, events[0]);
      HistoriesAgree(m, React(m, c, events[0]), events[1..]);
    }
  }

  lemma HoldsShape<S, I>(m: Machine<S, I>, c: Core<S, I>)
    requires Holds(m, c.state, c.cache)
    ensures Shape(c.cache)
  {
  }

  /** From the start, when nothing is cached. */
  lemma CachedIsPlain<S(!new), I>(m: Machine<S, I>, c: Core<S, I>, events: seq<Event<S>>)
    requires NotingKeepsCode(m) && Shape(c.cache) && forall i :: 0 <= i < |c.cache| ==> c.cache[i].tag.None?
    requires History(m, c.state, c.pc, events)
    ensures SameHistory(m, c, c.state, c.pc, events)
  {
    HistoriesAgree(m, c, events);
  }

  /** Where the chained loop alone has met a trap, the plain loop meets it at once in its next call. */
  lemma EarlyTrapIsNext<S, I>(m: Machine<S, I>, fast: Run<S>, slow: Run<S>, n: nat, n1: nat)
    requires Agree(m, fast, slow, n) && fast.end != slow.end && n1 > 0
    ensures Slow(m, slow.state, slow.pc, slow.pc, 0, n1) == Run(fast.state, fast.pc, fast.pc, 0, Trapped)
  {
  }
}
