/**
 What the stepping loops do, against a machine that knows no loops and no calls: one instruction after the other,
 where one that asks for serialization first is executed again with the mark set.
*/
module IcacheReference {
  import opened Wrappers
  import opened Icache

  datatype Point<S> = Point(state: S, pc: nat)

  /** Where an executed instruction leads, if it does not trap. */
  function Arrived<S>(e: Effect<S>): Option<Point<S>> {
    match e.out
    case Next(pc) => Some(Point(e.state, pc))
    case SerializeAfter(resume) => Some(Point(e.state, resume))
    case SerializeBefore => None
    case Trap => None
  }

  /** One whole instruction: it may have to be executed a second time, with the mark. */
  function One<S, I>(m: Machine<S, I>, p: Point<S>): Option<Point<S>> {
    if m.code(p.state, p.pc).None? then None
    else
      var e := m.exec(p.state, p.pc, m.code(p.state, p.pc).value);
      if e.out.SerializeBefore? then
        var s := m.serialized(e.state);
        if m.code(s, p.pc).None? then None else Arrived(m.exec(s, p.pc, m.code(s, p.pc).value))
      else Arrived(e)
  }

  /** So many instructions, or nothing if one of them traps. */
  function Many<S, I>(m: Machine<S, I>, p: Point<S>, k: nat): Option<Point<S>>
    decreases k
  {
    if k == 0 then Some(p)
    else
      match One(m, p)
      case None => None
      case Some(q) => Many(m, q, k - 1)
  }

  /** With the mark set every instruction is let through. */
  ghost predicate MarkLetsThrough<S(!new), I(!new)>(m: Machine<S, I>) {
    forall s: S, pc: nat, insn: I :: !m.exec(m.serialized(s), pc, insn).out.SerializeBefore?
  }

  /** The run has gone on by this many instructions; if it trapped, the next one does. */
  ghost predicate WentOn<S, I>(m: Machine<S, I>, p: Point<S>, r: Run<S>, k: nat) {
    && (r.end.Counted? ==> Many(m, p, k) == Some(Point(r.state, r.pc)))
    && (!r.end.Trapped? ==> forall j: nat :: j > 0 ==> Many(m, p, k + j) == Many(m, Point(r.state, r.pc), j))
    && (r.end.Trapped? ==>
         Many(m, p, k).Some? && Many(m, p, k).value.pc == r.pc && forall j: nat :: j > k ==> Many(m, p, j).None?)
  }

  lemma MarkedSame<S(!new), I(!new)>(m: Machine<S, I>, p: Point<S>, insn: I)
    requires MarkLetsThrough(m) && m.code(p.state, p.pc) == Some(insn)
    requires m.exec(p.state, p.pc, insn).out.SerializeBefore?
    ensures One(m, Point(m.serialized(m.exec(p.state, p.pc, insn).state), p.pc)) == One(m, p)
  {
  }

  lemma {:induction false} TrappedForGood<S, I>(m: Machine<S, I>, p: Point<S>, j: nat)
    requires One(m, p).None? && j > 0
    ensures Many(m, p, j).None?
  {
  }

  /** The plain loop goes along the instructions, whatever the budget, and however it ends. */
  lemma {:induction false} SlowIsMany<S(!new), I(!new)>(m: Machine<S, I>, s: S, pc: nat, retired: nat, n: nat)
    requires MarkLetsThrough(m)
    ensures var r := Slow(m, s, pc, pc, retired, n);
      r.retired >= retired && WentOn(m, Point(s, pc), r, r.retired - retired)
    decreases n - retired
  {
    var p := Point(s, pc);
    if retired < n && m.code(s, pc).Some? {
      var e := m.exec(s, pc, m.code(s, pc).value);
      if e.out.Next? {
        SlowIsMany(m, e.state, e.out.pc, retired + 1, n);
      } else if e.out.SerializeBefore? {
        MarkedSame(m, p, m.code(s, pc).value);
        assert forall j: nat :: j > 0 ==> Many(m, p, 0 + j) == Many(m, Point(m.serialized(e.state), pc), j);
      }
    }
  }

  /** The chained loop does too. */
  lemma FastIsMany<S(!new), I(!new)>(m: Machine<S, I>, s: S, pc: nat, n: nat, cache: seq<Entry<I>>)
    requires MarkLetsThrough(m) && NotingKeepsCode(m) && Holds(m, s, cache) && CodeKept(m, s, pc, 0, n)
    ensures var r := Fast(m, s, pc, pc, 0, n, cache).0; WentOn(m, Point(s, pc), r, r.retired)
  {
    SlowIsMany(m, s, pc, 0, n);
    ChainedLoopIsPlain(m, s, pc, n, cache);
    var r := Fast(m, s, pc, pc, 0, n, cache).0;
    if r.end.Trapped? && Slow(m, s, pc, pc, 0, n).end.Counted? {
      forall j: nat | j > r.retired ensures Many(m, Point(s, pc), j).None? {
        TrappedForGood(m, Point(r.state, r.pc), j - r.retired);
        assert Many(m, Point(s, pc), r.retired + (j - r.retired)).None?;
      }
    }
  }

  /** Two calls in a row retire an instruction, or trap. */
  lemma TwoCallsProgress<S(!new), I(!new)>(m: Machine<S, I>, s: S, pc: nat, n1: nat, n2: nat)
    requires MarkLetsThrough(m) && n1 > 0 && n2 > 0
    ensures var r1 := Slow(m, s, pc, pc, 0, n1); var r2 := Slow(m, r1.state, r1.pc, r1.pc, 0, n2);
      r1.retired > 0 || r1.end.Trapped? || r2.retired > 0 || r2.end.Trapped?
  {
    var r1 := Slow(m, s, pc, pc, 0, n1);
    if m.code(s, pc).Some? && m.exec(s, pc, m.code(s, pc).value).out.Next? {
      SlowIsMany(m, m.exec(s, pc, m.code(s, pc).value).state, m.exec(s, pc, m.code(s, pc).value).out.pc, 1, n1);
    }
    if m.code(r1.state, r1.pc).Some? {
      var e := m.exec(r1.state, r1.pc, m.code(r1.state, r1.pc).value);
      if e.out.Next? {
        SlowIsMany(m, e.state, e.out.pc, 1, n2);
      }
    }
  }

  /** An instruction that was executed is cached at its place afterwards, unless it has emptied the cache. */
  lemma ExecutedIsCached<S(!new), I(!new)>(m: Machine<S, I>, s: S, pc: nat, cache: seq<Entry<I>>)
    requires Holds(m, s, cache) && m.code(s, pc).Some? && !m.exec(s, pc, m.code(s, pc).value).flushed
    ensures var cache1 := Fast(m, s, pc, pc, 0, 1, cache).1;
      |cache1| == ICACHE_ENTRIES && cache1[Index(pc)] == Entry(Some(pc), m.code(s, pc))
  {
    var i := Index(pc);
    assert cache[i].tag == Some(pc) ==> cache[i].data == m.code(s, pc);
  }
}
