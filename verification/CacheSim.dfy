/**
 The write-back caches.  Every cache is an abstract store of lines, each clean or dirty; a line with a
 store that has not been written back is dirty, and only such lines are ever written back.
*/
module CacheSim {
  import opened Wrappers
  import opened Arith

  /** What happens at a cache, in order: stores to lines, and what it asks of the next level. */
  datatype Event = Stored(line: nat) | ReadDown(line: nat) | WriteDown(line: nat)

  // ---- the abstract cache ----

  /** The resident lines, each with its dirty bit. */
  type Content = map<nat, bool>

  /** One access to a line; on a miss the victim, if there is one, makes room. */
  function Access(content: Content, line: nat, store: bool, victim: Option<nat>): (Content, seq<Event>)
    requires line !in content && victim.Some? ==> victim.value in content
  {
    var done := if store then [Stored(line)] else [];
    if line in content then (if store then content[line := true] else content, done)
    else
      var out := if victim.Some? && content[victim.value] then [WriteDown(victim.value)] else [];
      var rest := if victim.Some? then content - {victim.value} else content;
      (rest[line := store], out + [ReadDown(line)] + done)
  }

  /** The line was stored to after it was last written back. */
  predicate Owed(log: seq<Event>, line: nat) {
    if log == [] then false
    else
      var last := log[|log| - 1];
      if last == Stored(line) then true else if last == WriteDown(line) then false else Owed(log[..|log| - 1], line)
  }

  predicate Dirty(content: Content, line: nat) { line in content && content[line] }

  /** The dirty lines are exactly those that are owed to the next level. */
  ghost predicate Exact(content: Content, log: seq<Event>) {
    forall line: nat :: Owed(log, line) <==> Dirty(content, line)
  }

  /** Only owed lines were written back. */
  predicate Justified(log: seq<Event>) {
    forall j :: 0 <= j < |log| && log[j].WriteDown? ==> Owed(log[..j], log[j].line)
  }

  lemma OwedPush(log: seq<Event>, e: Event, line: nat)
    ensures Owed(log + [e], line) == if e == Stored(line) then true else if e == WriteDown(line) then false
      else Owed(log, line)
  {
    assert (log + [e])[..|log|] == log;
  }

  lemma JustifiedPush(log: seq<Event>, e: Event)
    requires Justified(log) && (e.WriteDown? ==> Owed(log, e.line))
    ensures Justified(log + [e])
  {
    var l := log + [e];
    forall j | 0 <= j < |l| && l[j].WriteDown? ensures Owed(l[..j], l[j].line) {
      if j < |log| {
        assert l[..j] == log[..j];
      } else {
        assert l[..j] == log;
      }
    }
  }

  /** An access keeps both, and sends one read down for a miss and nothing for a hit. */
  lemma AccessExact(content: Content, log: seq<Event>, line: nat, store: bool, victim: Option<nat>)
    requires Exact(content, log) && Justified(log) && (line !in content && victim.Some? ==> victim.value in content)
    ensures var (content1, out) := Access(content, line, store, victim);
      Exact(content1, log + out) && Justified(log + out) && line in content1 && (store ==> content1[line])
  {
    hide Exact, Justified;
    var out := Access(content, line, store, victim).1;
    if line in content {
      if store {
        StoreExact(content, log, line);
      } else {
        assert log + [] == log;
      }
    } else {
      var rest: Content := if victim.Some? then content - {victim.value} else content;
      var w := victim.Some? && content[victim.value];
      var log1 := if w then log + [WriteDown(victim.value)] else log;
      if victim.Some? {
        VictimExact(content, log, victim.value);
      }
      ReadExact(rest, log1, line);
      var log2 := log1 + [ReadDown(line)];
      if store {
        StoreExact(rest[line := false], log2, line);
        assert rest[line := false][line := true] == rest[line := true];
      }
      assert log + out == if store then log2 + [Stored(line)] else log2;
    }
  }

  lemma StoreExact(content: Content, log: seq<Event>, line: nat)
    requires Exact(content, log) && Justified(log)
    ensures Exact(content[line := true], log + [Stored(line)]) && Justified(log + [Stored(line)])
  {
    OwedPushAll(log, Stored(line));
    JustifiedPush(log, Stored(line));
    hide Owed, Justified;
  }

  lemma VictimExact(content: Content, log: seq<Event>, line: nat)
    requires Exact(content, log) && Justified(log) && line in content
    ensures content[line] ==> Exact(content - {line}, log + [WriteDown(line)]) && Justified(log + [WriteDown(line)])
    ensures !content[line] ==> Exact(content - {line}, log)
  {
    if content[line] {
      assert Dirty(content, line);
      OwedPushAll(log, WriteDown(line));
      JustifiedPush(log, WriteDown(line));
    }
    hide Owed, Justified;
  }

  lemma ReadExact(content: Content, log: seq<Event>, line: nat)
    requires Exact(content, log) && Justified(log) && line !in content
    ensures Exact(content[line := false], log + [ReadDown(line)]) && Justified(log + [ReadDown(line)])
  {
    OwedPushAll(log, ReadDown(line));
    JustifiedPush(log, ReadDown(line));
    hide Owed, Justified;
  }

  lemma OwedPushAll(log: seq<Event>, e: Event)
    ensures forall line: nat ::
      Owed(log + [e], line) ==
      (if e == Stored(line) then true else if e == WriteDown(line) then false else Owed(log, line))
  {
    forall line: nat
      ensures Owed(log + [e], line) ==
        (if e == Stored(line) then true else if e == WriteDown(line) then false else Owed(log, line))
    {
      OwedPush(log, e, line);
    }
  }

  /** A store is still dirty in the cache, or its line was written down afterwards. */
  lemma {:induction false} StoreNotLost(content: Content, log: seq<Event>, i: nat)
    requires i < |log| && log[i].Stored? && Exact(content, log)
    ensures Dirty(content, log[i].line) || exists j :: i < j < |log| && log[j] == WriteDown(log[i].line)
  {
    if !Dirty(content, log[i].line) {
      NotOwedAfterStore(log, log[i].line, i);
    }
  }

  lemma {:induction false} NotOwedAfterStore(log: seq<Event>, line: nat, i: nat)
    requires i < |log| && log[i] == Stored(line) && !Owed(log, line)
    ensures exists j :: i < j < |log| && log[j] == WriteDown(line)
    decreases |log|
  {
    var last := log[|log| - 1];
    if last != WriteDown(line) {
      NotOwedAfterStore(log[..|log| - 1], line, i);
      var j :| i < j < |log[..|log| - 1]| && log[..|log| - 1][j] == WriteDown(line);
      assert log[j] == WriteDown(line);
    } else {
      assert log[|log| - 1] == WriteDown(line);
    }
  }

  // ---- the set-associative cache ----

  /** The line size keeps the two flag bits of a tag free, so a tag is a line number with two flags. */
  datatype Tag = Invalid | Tag(line: nat, dirty: bool)

  datatype Config = Config(sets: nat, ways: nat, lineSize: nat) {
    predicate Ok() { sets > 0 && ways > 0 && lineSize >= 8 }
    function Line(addr: nat): nat
      requires Ok()
    {
      addr / lineSize
    }
  }

  /** The feedback shift register that picks a way. */
  function NextReg(reg: nat): nat { Xor(reg / 2, if reg % 2 == 1 then 0xd000_0001 else 0) }

  function Xor(a: nat, b: nat): nat {
    if a == 0 then b else if b == 0 then a else 2 * Xor(a / 2, b / 2) + (if a % 2 != b % 2 then 1 else 0)
  }

  /** The register one step before. */
  function PreviousReg(reg: nat): nat {
    if reg >= 0x8000_0000 then 2 * Xor(reg, 0xd000_0001) + 1 else 2 * reg
  }

  lemma {:induction false} XorTwice(a: nat, b: nat)
    ensures Xor(Xor(a, b), b) == a
    decreases a + b
  {
    if a != 0 && b != 0 {
      XorTwice(a / 2, b / 2);
      var x := Xor(a / 2, b / 2);
      var low := if a % 2 != b % 2 then 1 else 0;
      XorParts(x, low, b);
      assert Xor(a, b) == 2 * x + low;
    } else if a == 0 {
      XorSelf(b);
    }
  }

  /** The lowest bits go their own way. */
  lemma XorParts(x: nat, low: nat, b: nat)
    requires low <= 1 && b != 0
    ensures Xor(2 * x + low, b) == 2 * Xor(x, b / 2) + if low != b % 2 then 1 else 0
  {
    if 2 * x + low == 0 {
      assert Xor(x, b / 2) == b / 2;
    } else if b / 2 == 0 {
      assert b == 1;
    }
  }

  lemma {:induction false} XorSelf(b: nat)
    ensures Xor(b, b) == 0
  {
    if b != 0 {
      XorSelf(b / 2);
    }
  }

  lemma {:induction false} XorTop(a: nat, b: nat, k: nat)
    requires a < Pow2(k) && b < 2 * Pow2(k)
    ensures Xor(a, b) < 2 * Pow2(k) && (Xor(a, b) >= Pow2(k) <==> b >= Pow2(k))
    decreases k
  {
    if a != 0 && b != 0 {
      XorTop(a / 2, b / 2, k - 1);
    }
  }

  /** The register never runs into zero, and no two states lead to one. */
  lemma RegSteps(reg: nat)
    requires 0 < reg < 0x1_0000_0000
    ensures 0 < NextReg(reg) < 0x1_0000_0000 && PreviousReg(NextReg(reg)) == reg
  {
    PowerOf31();
    XorTop(reg / 2, if reg % 2 == 1 then 0xd000_0001 else 0, 31);
    XorTwice(reg / 2, 0xd000_0001);
    hide Xor;
    assert reg % 2 == 0 ==> NextReg(reg) == reg / 2 by {
      XorZero(reg / 2);
    }
  }

  lemma XorZero(a: nat)
    ensures Xor(a, 0) == a
  {
  }

  lemma PowerOf31()
    ensures Pow2(31) == 0x8000_0000
  {
    Pow2Small();
    assert Pow2(32) == 2 * Pow2(31);
  }

  function Place(c: Config, set_: nat, way: nat): (i: nat)
    requires c.Ok() && set_ < c.sets && way < c.ways
    ensures i < c.sets * c.ways
  {
    MulOrder(set_, c.sets, c.ways);
    set_ * c.ways + way
  }

  /** The place of a tag determines its set and way. */
  lemma PlaceUnique(c: Config, set_: nat, way: nat)
    requires c.Ok() && set_ < c.sets && way < c.ways
    ensures Place(c, set_, way) / c.ways == set_ && Place(c, set_, way) % c.ways == way
  {
    QuotientUnique(set_ * c.ways + way, c.ways, set_);
  }

  /** Valid tags are in the set of their line, and no line is there twice. */
  predicate Proper(c: Config, tags: seq<Tag>)
    requires c.Ok()
  {
    && |tags| == c.sets * c.ways
    && (forall i :: 0 <= i < |tags| && tags[i].Tag? ==> tags[i].line % c.sets == i / c.ways)
    && Distinct(tags)
  }

  predicate Distinct(tags: seq<Tag>) {
    forall i, j :: 0 <= i < j < |tags| && tags[i].Tag? && tags[j].Tag? ==> tags[i].line != tags[j].line
  }

  /** The resident lines of a tag array. */
  function ContentOf(tags: seq<Tag>): Content
    requires Distinct(tags)
  {
    map i | 0 <= i < |tags| && tags[i].Tag? :: tags[i].line := tags[i].dirty
  }

  lemma ContentHas(tags: seq<Tag>, i: nat)
    requires Distinct(tags) && i < |tags| && tags[i].Tag?
    ensures tags[i].line in ContentOf(tags) && ContentOf(tags)[tags[i].line] == tags[i].dirty
  {
  }

  predicate HasLine(tags: seq<Tag>, line: nat) { exists i :: 0 <= i < |tags| && tags[i].Tag? && tags[i].line == line }

  lemma ContentLines(tags: seq<Tag>)
    requires Distinct(tags)
    ensures forall l: nat :: l in ContentOf(tags) <==> HasLine(tags, l)
    ensures forall i :: 0 <= i < |tags| && tags[i].Tag? ==>
      tags[i].line in ContentOf(tags) && ContentOf(tags)[tags[i].line] == tags[i].dirty
  {
  }

  /** A map with the lines of the tags and their dirty bits is their content. */
  lemma ContentIs(tags: seq<Tag>, m: Content)
    requires Distinct(tags)
    requires forall i :: 0 <= i < |tags| && tags[i].Tag? ==> tags[i].line in m && m[tags[i].line] == tags[i].dirty
    requires forall l: nat :: l in m ==> HasLine(tags, l)
    ensures ContentOf(tags) == m
  {
    ContentLines(tags);
    assert forall l: nat :: l in m ==> l in ContentOf(tags);
    assert forall l: nat :: l in ContentOf(tags) ==> l in m && ContentOf(tags)[l] == m[l];
  }

  /** The first way from w on that holds the line, or the number of ways. */
  function FindWay(c: Config, tags: seq<Tag>, line: nat, w: nat): (n: nat)
    requires c.Ok() && |tags| == c.sets * c.ways && w <= c.ways
    ensures w <= n <= c.ways
    ensures n < c.ways ==> tags[Place(c, line % c.sets, n)].Tag? && tags[Place(c, line % c.sets, n)].line == line
    ensures forall k :: w <= k < n ==>
      !(tags[Place(c, line % c.sets, k)].Tag? && tags[Place(c, line % c.sets, k)].line == line)
    decreases c.ways - w
  {
    if w == c.ways then w
    else if tags[Place(c, line % c.sets, w)].Tag? && tags[Place(c, line % c.sets, w)].line == line then w
    else FindWay(c, tags, line, w + 1)
  }

  datatype State = State(tags: seq<Tag>, reg: nat)

  function MarkDirty(tags: seq<Tag>, p: nat): seq<Tag>
    requires p < |tags| && tags[p].Tag?
  {
    tags[p := tags[p].(dirty := true)]
  }

  /** One access: the new state and what happened. */
  function SetAccess(c: Config, s: State, line: nat, store: bool): (r: (State, seq<Event>))
    requires c.Ok() && |s.tags| == c.sets * c.ways
    ensures |r.0.tags| == |s.tags|
  {
    var done := if store then [Stored(line)] else [];
    var set_ := line % c.sets;
    var way := FindWay(c, s.tags, line, 0);
    if way < c.ways then
      (if store then s.(tags := MarkDirty(s.tags, Place(c, set_, way))) else s, done)
    else
      var reg := NextReg(s.reg);
      var p := Place(c, set_, reg % c.ways);
      var out := if s.tags[p].Tag? && s.tags[p].dirty then [WriteDown(s.tags[p].line)] else [];
      (State(s.tags[p := Tag(line, store)], reg), out + [ReadDown(line)] + done)
  }

  /** A proper cache misses a line exactly when it does not hold it. */
  lemma FindsResident(c: Config, tags: seq<Tag>, line: nat)
    requires c.Ok() && Proper(c, tags)
    ensures FindWay(c, tags, line, 0) < c.ways <==> line in ContentOf(tags)
  {
    var way := FindWay(c, tags, line, 0);
    if way < c.ways {
      ContentHas(tags, Place(c, line % c.sets, way));
    }
    if line in ContentOf(tags) {
      var i :| 0 <= i < |tags| && tags[i].Tag? && tags[i].line == line;
      PlaceOf(c, i);
      assert Place(c, line % c.sets, i % c.ways) == i;
    }
  }

  lemma PlaceOf(c: Config, i: nat)
    requires c.Ok() && i < c.sets * c.ways
    ensures i / c.ways < c.sets && 0 <= i / c.ways && Place(c, i / c.ways, i % c.ways) == i
  {
    Division(i, c.ways);
    MulOrder(c.sets, i / c.ways, c.ways);
    MulOrder(i / c.ways, -1, c.ways);
  }

  /** Exchanging one tag for a line that is not resident. */
  lemma ReplaceTag(c: Config, tags: seq<Tag>, p: nat, line: nat, dirty: bool)
    requires c.Ok() && Proper(c, tags) && p < |tags| && line % c.sets == p / c.ways
    requires forall i :: 0 <= i < |tags| && tags[i].Tag? && i != p ==> tags[i].line != line
    ensures var tags1 := tags[p := Tag(line, dirty)];
      Proper(c, tags1) && ContentOf(tags1) ==
          (if tags[p].Tag? then ContentOf(tags) - {tags[p].line} else ContentOf(tags))[line := dirty]
  {
    hide ContentOf;
    var tags1 := tags[p := Tag(line, dirty)];
    var m := (if tags[p].Tag? then ContentOf(tags) - {tags[p].line} else ContentOf(tags))[line := dirty];
    ContentLines(tags);
    forall l: nat | l in m ensures HasLine(tags1, l) {
      if l == line {
        assert tags1[p].line == line;
      } else {
        var i :| 0 <= i < |tags| && tags[i].Tag? && tags[i].line == l;
        assert tags1[i] == tags[i];
      }
    }
    ContentIs(tags1, m);
  }

  /** The set-associative cache is an abstract cache, its tags distinct and each in its set. */
  lemma SetAccessRefines(c: Config, s: State, line: nat, store: bool)
    requires c.Ok() && Proper(c, s.tags)
    ensures var (s1, out) := SetAccess(c, s, line, store);
      && Proper(c, s1.tags)
      && (exists victim: Option<nat> :: AccessOf(ContentOf(s.tags), line, store, victim, ContentOf(s1.tags), out))
      && FindWay(c, s1.tags, line, 0) < c.ways
  {
    FindsResident(c, s.tags, line);
    var (s1, out) := SetAccess(c, s, line, store);
    var set_ := line % c.sets;
    var way := FindWay(c, s.tags, line, 0);
    if way < c.ways {
      var p := Place(c, set_, way);
      PlaceUnique(c, set_, way);
      if store {
        ReplaceTag(c, s.tags, p, line, true);
        assert ContentOf(s1.tags) == ContentOf(s.tags)[line := true];
      }
      assert AccessOf(ContentOf(s.tags), line, store, None, ContentOf(s1.tags), out);
    } else {
      var p := Place(c, set_, NextReg(s.reg) % c.ways);
      PlaceUnique(c, set_, NextReg(s.reg) % c.ways);
      forall i | 0 <= i < |s.tags| && s.tags[i].Tag? && i != p ensures s.tags[i].line != line {
        ContentHas(s.tags, i);
      }
      ReplaceTag(c, s.tags, p, line, store);
      var victim := if s.tags[p].Tag? then Some(s.tags[p].line) else None;
      if s.tags[p].Tag? {
        ContentHas(s.tags, p);
      }
      assert AccessOf(ContentOf(s.tags), line, store, victim, ContentOf(s1.tags), out);
    }
    FindsResident(c, s1.tags, line);
  }

  /** Some way of its set holds the line. */
  predicate Holds(c: Config, tags: seq<Tag>, line: nat)
    requires c.Ok() && |tags| == c.sets * c.ways
  {
    exists way: nat ::
      way < c.ways && tags[Place(c, line % c.sets, way)].Tag? && tags[Place(c, line % c.sets, way)].line == line
  }

  /** A miss takes the way that the register picks, and no other; a hit moves nothing and leaves the register. */
  lemma MissTakesWay(c: Config, s: State, line: nat, store: bool)
    requires c.Ok() && |s.tags| == c.sets * c.ways
    ensures var s1 := SetAccess(c, s, line, store).0;
      if Holds(c, s.tags, line) then
        s1.reg == s.reg && forall i :: 0 <= i < |s.tags| ==>
          s1.tags[i] == s.tags[i] || (s.tags[i].Tag? && s.tags[i].line == line && s1.tags[i] == Tag(line, true))
      else
        var p := Place(c, line % c.sets, NextReg(s.reg) % c.ways);
        s1.reg == NextReg(s.reg) && s1.tags == s.tags[p := Tag(line, store)]
  {
    var way := FindWay(c, s.tags, line, 0);
    hide NextReg;
  }

  /** An access of the abstract cache with this victim. */
  predicate AccessOf(content: Content, line: nat, store: bool, victim: Option<nat>, content1: Content,
      out: seq<Event>) {
    (line !in content && victim.Some? ==> victim.value in content) &&
        (content1, out) == Access(content, line, store, victim)
  }

  // ---- runs ----

  datatype Request = Request(addr: nat, store: bool)

  /** A run, the events of which are appended to the log. */
  function SetRun(c: Config, s: State, log: seq<Event>, rs: seq<Request>): (r: (State, seq<Event>))
    requires c.Ok() && |s.tags| == c.sets * c.ways
    ensures |r.0.tags| == |s.tags|
    decreases |rs|
  {
    if rs == [] then (s, log)
    else
      var (s1, out) := SetAccess(c, s, c.Line(rs[0].addr), rs[0].store);
      SetRun(c, s1, log + out, rs[1..])
  }

  ghost predicate Sound(c: Config, s: State, log: seq<Event>)
    requires c.Ok()
  {
    Proper(c, s.tags) && Exact(ContentOf(s.tags), log) && Justified(log)
  }

  lemma {:induction false} SetRunSound(c: Config, s: State, log: seq<Event>, rs: seq<Request>)
    requires c.Ok() && Sound(c, s, log)
    ensures var (s1, log1) := SetRun(c, s, log, rs); Sound(c, s1, log1)
    decreases |rs|
  {
    hide Exact, Justified, SetAccess;
    if rs != [] {
      var line := c.Line(rs[0].addr);
      SetAccessRefines(c, s, line, rs[0].store);
      var (s1, out) := SetAccess(c, s, line, rs[0].store);
      var victim :| AccessOf(ContentOf(s.tags), line, rs[0].store, victim, ContentOf(s1.tags), out);
      AccessExact(ContentOf(s.tags), log, line, rs[0].store, victim);
      SetRunSound(c, s1, log + out, rs[1..]);
    }
  }

  lemma NothingOwed(tags: seq<Tag>)
    requires forall i :: 0 <= i < |tags| ==> tags[i].Invalid?
    ensures ContentOf(tags) == map[] && Exact(map[], []) && Justified([])
  {
    assert forall line: nat :: line !in ContentOf(tags);
  }

  /**
   From an empty cache on: valid tags are distinct and in their set, every store is either still dirty
   in the cache or was written down later, and only lines with such a store are written down.
  */
  lemma CacheRuns(c: Config, s: State, rs: seq<Request>)
    requires c.Ok() && |s.tags| == c.sets * c.ways && forall k :: 0 <= k < |s.tags| ==> s.tags[k].Invalid?
    ensures var (s1, log) := SetRun(c, s, [], rs);
      && Proper(c, s1.tags) && Justified(log)
      && forall i :: 0 <= i < |log| && log[i].Stored? ==>
           Dirty(ContentOf(s1.tags), log[i].line) || exists j :: i < j < |log| && log[j] == WriteDown(log[i].line)
  {
    NothingOwed(s.tags);
    SetRunSound(c, s, [], rs);
    hide SetRun, Exact;
    var (s1, log) := SetRun(c, s, [], rs);
    forall i | 0 <= i < |log| && log[i].Stored?
      ensures Dirty(ContentOf(s1.tags), log[i].line) || exists j :: i < j < |log| && log[j] == WriteDown(log[i].line)
    {
      StoreNotLost(ContentOf(s1.tags), log, i);
    }
  }

  // ---- the fully associative cache ----

  /** A map ordered by line, as the sequence its iterator goes through. */
  predicate Ordered(tags: seq<Tag>) {
    (forall i :: 0 <= i < |tags| ==> tags[i].Tag?) && forall i, j :: 0 <= i < j < |tags| ==> tags[i].line < tags[j].line
  }

  /** Where the line is, or would be. */
  function Position(tags: seq<Tag>, line: nat, i: nat): (n: nat)
    requires Ordered(tags) && i <= |tags|
    ensures i <= n <= |tags| && (n < |tags| ==> tags[n].line >= line)
    ensures forall k :: i <= k < n ==> tags[k].line < line
    decreases |tags| - i
  {
    if i == |tags| || tags[i].line >= line then i else Position(tags, line, i + 1)
  }

  predicate Resident(tags: seq<Tag>, line: nat)
    requires Ordered(tags)
  {
    var n := Position(tags, line, 0);
    n < |tags| && tags[n].line == line
  }

  function Insert(tags: seq<Tag>, t: Tag): seq<Tag>
    requires Ordered(tags) && t.Tag?
  {
    var n := Position(tags, t.line, 0);
    tags[..n] + [t] + tags[n..]
  }

  /** One access of the fully associative cache with the given number of ways. */
  function FullAccess(ways: nat, s: State, line: nat, store: bool): (State, seq<Event>)
    requires Ordered(s.tags) && 0 < ways && |s.tags| <= ways
  {
    var done := if store then [Stored(line)] else [];
    var n := Position(s.tags, line, 0);
    if Resident(s.tags, line) then (if store then s.(tags := MarkDirty(s.tags, n)) else s, done)
    else if |s.tags| == ways then
      var reg := NextReg(s.reg);
      var k := reg % ways;
      var out := if s.tags[k].dirty then [WriteDown(s.tags[k].line)] else [];
      var rest := s.tags[..k] + s.tags[k + 1..];
      (State(Insert(rest, Tag(line, store)), reg), out + [ReadDown(line)] + done)
    else (s.(tags := Insert(s.tags, Tag(line, store))), [ReadDown(line)] + done)
  }

  lemma InsertContent(tags: seq<Tag>, line: nat, dirty: bool)
    requires Ordered(tags) && !Resident(tags, line)
    ensures var tags1 := Insert(tags, Tag(line, dirty));
      Ordered(tags1) && |tags1| == |tags| + 1 && ContentOf(tags1) == ContentOf(tags)[line := dirty]
  {
    hide ContentOf;
    var n := Position(tags, line, 0);
    InsertedOrdered(tags, line, dirty);
    ContentLines(tags);
    WithNewLine(tags, n, line, dirty, Insert(tags, Tag(line, dirty)), ContentOf(tags));
  }

  lemma InsertedOrdered(tags: seq<Tag>, line: nat, dirty: bool)
    requires Ordered(tags) && !Resident(tags, line)
    ensures Ordered(Insert(tags, Tag(line, dirty)))
  {
  }

  lemma WithNewLine(tags: seq<Tag>, n: nat, line: nat, dirty: bool, tags1: seq<Tag>, m: Content)
    requires Ordered(tags) && Ordered(tags1) && n <= |tags| && tags1 == tags[..n] + [Tag(line, dirty)] + tags[n..]
    requires forall l: nat :: l in m <==> HasLine(tags, l)
    requires forall i :: 0 <= i < |tags| ==> tags[i].line in m && m[tags[i].line] == tags[i].dirty
    ensures ContentOf(tags1) == m[line := dirty]
  {
    hide ContentOf;
    assert forall i :: 0 <= i < |tags1| ==>
      tags1[i] == if i < n then tags[i] else if i == n then Tag(line, dirty) else tags[i - 1];
    assert tags1[n].line == line;
    NewLines(tags, n, line, tags1, m[line := dirty]);
    ContentIs(tags1, m[line := dirty]);
  }

  lemma NewLines(tags: seq<Tag>, n: nat, line: nat, tags1: seq<Tag>, m: Content)
    requires n <= |tags| && |tags1| == |tags| + 1 && tags1[n].Tag? && tags1[n].line == line
    requires forall i {:trigger tags1[i]} :: 0 <= i < |tags1| && i != n ==>
      tags1[i] == (if i < n then tags[i] else tags[i - 1])
    requires forall l: nat :: l in m && l != line ==> HasLine(tags, l)
    ensures forall l: nat :: l in m ==> HasLine(tags1, l)
  {
    forall l: nat | l in m ensures HasLine(tags1, l) {
      if l != line {
        var i :| 0 <= i < |tags| && tags[i].Tag? && tags[i].line == l;
        var j := if i < n then i else i + 1;
        assert tags1[j] == if j < n then tags[j] else tags[j - 1];
      }
    }
  }

  lemma EraseContent(tags: seq<Tag>, k: nat)
    requires Ordered(tags) && k < |tags|
    ensures var rest := tags[..k] + tags[k + 1..]; Ordered(rest) && ContentOf(rest) == ContentOf(tags) - {tags[k].line}
  {
    hide ContentOf;
    ContentLines(tags);
    WithoutLine(tags, k, tags[..k] + tags[k + 1..], ContentOf(tags));
  }

  lemma WithoutLine(tags: seq<Tag>, k: nat, rest: seq<Tag>, m: Content)
    requires Ordered(tags) && k < |tags| && rest == tags[..k] + tags[k + 1..]
    requires forall l: nat :: l in m <==> HasLine(tags, l)
    requires forall i :: 0 <= i < |tags| ==> tags[i].line in m && m[tags[i].line] == tags[i].dirty
    ensures Ordered(rest) && ContentOf(rest) == m - {tags[k].line}
  {
    hide ContentOf;
    RestLines(tags, k, rest);
    forall l: nat | l in m - {tags[k].line} ensures HasLine(rest, l) {
    }
    forall i | 0 <= i < |rest| ensures rest[i].line in m - {tags[k].line} && m[rest[i].line] == rest[i].dirty {
    }
    ContentIs(rest, m - {tags[k].line});
  }

  /** The tags left after one is taken out hold the other lines. */
  lemma RestLines(tags: seq<Tag>, k: nat, rest: seq<Tag>)
    requires Ordered(tags) && k < |tags| && rest == tags[..k] + tags[k + 1..]
    ensures forall i :: 0 <= i < |rest| ==> rest[i] == tags[if i < k then i else i + 1]
    ensures Ordered(rest) && forall l: nat :: HasLine(rest, l) <==> HasLine(tags, l) && l != tags[k].line
  {
    forall l: nat | HasLine(tags, l) && l != tags[k].line ensures HasLine(rest, l) {
      var i :| 0 <= i < |tags| && tags[i].line == l;
      assert rest[if i < k then i else i - 1] == tags[i];
    }
  }

  lemma ResidentContent(tags: seq<Tag>, line: nat)
    requires Ordered(tags)
    ensures Resident(tags, line) <==> line in ContentOf(tags)
  {
    var n := Position(tags, line, 0);
    if line in ContentOf(tags) {
      var i :| 0 <= i < |tags| && tags[i].line == line;
      assert n <= i;
    }
  }

  /** The fully associative cache is an abstract cache of at most that many lines. */
  lemma FullAccessRefines(ways: nat, s: State, line: nat, store: bool)
    requires Ordered(s.tags) && 0 < ways && |s.tags| <= ways
    ensures var (s1, out) := FullAccess(ways, s, line, store);
      && Ordered(s1.tags) && |s1.tags| <= ways
      && exists victim: Option<nat> :: AccessOf(ContentOf(s.tags), line, store, victim, ContentOf(s1.tags), out)
  {
    ResidentContent(s.tags, line);
    var (s1, out) := FullAccess(ways, s, line, store);
    var n := Position(s.tags, line, 0);
    if Resident(s.tags, line) {
      if store {
        DirtyContent(s.tags, n);
      }
      assert AccessOf(ContentOf(s.tags), line, store, None, ContentOf(s1.tags), out);
    } else if |s.tags| == ways {
      var k := NextReg(s.reg) % ways;
      EraseContent(s.tags, k);
      var rest := s.tags[..k] + s.tags[k + 1..];
      ContentHas(s.tags, k);
      ResidentContent(rest, line);
      InsertContent(rest, line, store);
      assert AccessOf(ContentOf(s.tags), line, store, Some(s.tags[k].line), ContentOf(s1.tags), out);
    } else {
      InsertContent(s.tags, line, store);
      assert [] + [ReadDown(line)] == [ReadDown(line)];
      assert AccessOf(ContentOf(s.tags), line, store, None, ContentOf(s1.tags), out);
    }
  }

  lemma DirtyContent(tags: seq<Tag>, n: nat)
    requires Ordered(tags) && n < |tags|
    ensures Ordered(MarkDirty(tags, n)) && ContentOf(MarkDirty(tags, n)) == ContentOf(tags)[tags[n].line := true]
  {
    hide ContentOf;
    var tags1 := MarkDirty(tags, n);
    ContentLines(tags);
    var m := ContentOf(tags)[tags[n].line := true];
    forall l: nat | l in m ensures HasLine(tags1, l) {
      var i :| 0 <= i < |tags| && tags[i].line == l;
      assert tags1[i].line == l;
    }
    ContentIs(tags1, m);
  }

  function FullRun(ways: nat, s: State, log: seq<Event>, lines: seq<(nat, bool)>): (r: (State, seq<Event>))
    requires Ordered(s.tags) && 0 < ways && |s.tags| <= ways
    decreases |lines|
  {
    if lines == [] then (s, log)
    else
      FullAccessRefines(ways, s, lines[0].0, lines[0].1);
      var (s1, out) := FullAccess(ways, s, lines[0].0, lines[0].1);
      FullRun(ways, s1, log + out, lines[1..])
  }

  /** A miss in a full cache takes the line that the register picks in the order of lines, and no other. */
  lemma FullMissTakes(ways: nat, s: State, line: nat, store: bool)
    requires Ordered(s.tags) && 0 < ways == |s.tags| && !HasLine(s.tags, line)
    ensures var s1 := FullAccess(ways, s, line, store).0;
      && s1.reg == NextReg(s.reg) && Ordered(s1.tags)
      && ContentOf(s1.tags) == (ContentOf(s.tags) - {s.tags[NextReg(s.reg) % ways].line})[line := store]
  {
    hide ContentOf, NextReg, Insert;
    var k := NextReg(s.reg) % ways;
    var rest := s.tags[..k] + s.tags[k + 1..];
    ContentLines(s.tags);
    ResidentContent(s.tags, line);
    EraseContent(s.tags, k);
    ResidentContent(rest, line);
    InsertContent(rest, line, store);
  }

  /** The same holds of runs of the fully associative cache, and an accessed line is resident afterwards. */
  lemma {:induction false} FullRunSound(ways: nat, s: State, log: seq<Event>, lines: seq<(nat, bool)>)
    requires Ordered(s.tags) && 0 < ways && |s.tags| <= ways && Exact(ContentOf(s.tags), log) && Justified(log)
    ensures var (s1, log1) := FullRun(ways, s, log, lines);
      && Ordered(s1.tags) && |s1.tags| <= ways && Exact(ContentOf(s1.tags), log1) && Justified(log1)
      && (lines != [] ==> Resident(s1.tags, lines[|lines| - 1].0))
    decreases |lines|
  {
    hide Exact, Justified, FullAccess, ContentOf;
    if lines != [] {
      var (line, store) := lines[0];
      FullAccessRefines(ways, s, line, store);
      var (s1, out) := FullAccess(ways, s, line, store);
      var victim :| AccessOf(ContentOf(s.tags), line, store, victim, ContentOf(s1.tags), out);
      AccessExact(ContentOf(s.tags), log, line, store, victim);
      ResidentContent(s1.tags, line);
      FullRunSound(ways, s1, log + out, lines[1..]);
    }
  }

  /** How many reads and writes were sent down. */
  function Reads(log: seq<Event>): nat {
    if log == [] then 0 else Reads(log[..|log| - 1]) + if log[|log| - 1].ReadDown? then 1 else 0
  }
  function Writes(log: seq<Event>): nat {
    if log == [] then 0 else Writes(log[..|log| - 1]) + if log[|log| - 1].WriteDown? then 1 else 0
  }

  lemma CountPush(log: seq<Event>, e: Event)
    ensures Reads(log + [e]) == Reads(log) + if e.ReadDown? then 1 else 0
    ensures Writes(log + [e]) == Writes(log) + if e.WriteDown? then 1 else 0
  {
    assert (log + [e])[..|log|] == log;
  }

  /** The set-associative cache as an object: the tag array, the counters, and what it has sent to the next level. */
  class CacheSim {
    const c: Config
    const tags: array<Tag>
    var reg: nat
    var misses: nat
    var writebacks: nat
    /** Everything that happened, in order. */
    var log: seq<Event>

    function Contents(): State reads this, tags { State(tags[..], reg) }

    /** The counters say how many reads and writes the next level has seen. */
    ghost predicate Valid() reads this, tags {
      && c.Ok() && tags.Length == c.sets * c.ways && Sound(c, Contents(), log)
      && misses == Reads(log) && writebacks == Writes(log)
    }

    constructor (c: Config)
      requires c.Ok()
      ensures this.c == c && fresh(tags) && Valid() && log == [] && reg == 1
    {
      this.c := c;
      MulNonNegative(c.sets, c.ways);
      tags := new Tag[c.sets * c.ways](_ => Invalid);
      reg, misses, writebacks, log := 1, 0, 0, [];
      new;
      NothingOwed(tags[..]);
    }

    /** The place of the line in its set, if it is there. */
    method CheckTag(line: nat) returns (way: nat)
      requires c.Ok() && tags.Length == c.sets * c.ways
      ensures way == FindWay(c, tags[..], line, 0)
    {
      way := 0;
      var set_ := line % c.sets;
      while way < c.ways
        invariant way <= c.ways && FindWay(c, tags[..], line, 0) == FindWay(c, tags[..], line, way)
      {
        var t := tags[Place(c, set_, way)];
        if t.Tag? && t.line == line {
          return;
        }
        way := way + 1;
      }
    }

    /** Puts the line into a way chosen by the shift register; the old tag is returned. */
    method Victimize(line: nat) returns (victim: Tag)
      requires c.Ok() && tags.Length == c.sets * c.ways
      modifies this`reg, tags
      ensures reg == NextReg(old(reg))
      ensures var p := Place(c, line % c.sets, reg % c.ways);
        victim == old(tags[p]) && tags[..] == old(tags[..])[p := Tag(line, false)]
    {
      reg := NextReg(reg);
      var p := Place(c, line % c.sets, reg % c.ways);
      victim := tags[p];
      tags[p] := Tag(line, false);
    }

    /** A miss: the victim is written down if it is dirty, the line is read, and a store makes it dirty. */
    method Miss(line: nat, store: bool)
      requires c.Ok() && tags.Length == c.sets * c.ways && FindWay(c, tags[..], line, 0) == c.ways
      modifies this, tags
      ensures var (s, out) := SetAccess(c, old(Contents()), line, store); Contents() == s && log == old(log) + out
      ensures misses == old(misses) + 1 && Reads(log) == old(Reads(log)) + 1
      ensures writebacks - old(writebacks) == Writes(log) - old(Writes(log))
    {
      hide Reads, Writes, FindWay, NextReg;
      misses := misses + 1;
      ghost var before, log0 := tags[..], log;
      var victim := Victimize(line);
      ghost var out := [];
      if victim.Tag? && victim.dirty {
        CountPush(log, WriteDown(victim.line));
        log := log + [WriteDown(victim.line)];
        out := [WriteDown(victim.line)];
        writebacks := writebacks + 1;
      }
      CountPush(log, ReadDown(line));
      log := log + [ReadDown(line)];
      FoundAfterMiss(c, before, line, reg % c.ways);
      var p := Place(c, line % c.sets, reg % c.ways);
      if store {
        CountPush(log, Stored(line));
        log := log + [Stored(line)];
        var way := CheckTag(line);
        tags[Place(c, line % c.sets, way)] := tags[Place(c, line % c.sets, way)].(dirty := true);
        assert log == log0 + (out + [ReadDown(line)] + [Stored(line)]);
      } else {
        assert log == log0 + (out + [ReadDown(line)] + []);
      }
      assert tags[..] == before[p := Tag(line, store)];
    }

    method AccessLine(line: nat, store: bool)
      requires Valid()
      modifies this, tags
      ensures Valid()
      ensures var (s, out) := SetAccess(c, old(Contents()), line, store); Contents() == s && log == old(log) + out
      ensures FindWay(c, tags[..], line, 0) < c.ways
    {
      hide Reads, Writes, Exact, Justified, Proper;
      SetAccessRefines(c, Contents(), line, store);
      ghost var before, log0 := Contents(), log;
      SoundStep(c, before, log0, line, store);
      var way := CheckTag(line);
      if way < c.ways {
        if store {
          var p := Place(c, line % c.sets, way);
          tags[p] := tags[p].(dirty := true);
          CountPush(log, Stored(line));
          log := log + [Stored(line)];
        } else {
          assert log + [] == log;
        }
      } else {
        Miss(line, store);
      }
    }
  }

  lemma SoundStep(c: Config, s: State, log: seq<Event>, line: nat, store: bool)
    requires c.Ok() && Sound(c, s, log)
    ensures var (s1, out) := SetAccess(c, s, line, store); Sound(c, s1, log + out)
  {
    hide Exact, Justified, SetAccess;
    SetAccessRefines(c, s, line, store);
    var (s1, out) := SetAccess(c, s, line, store);
    var victim :| AccessOf(ContentOf(s.tags), line, store, victim, ContentOf(s1.tags), out);
    AccessExact(ContentOf(s.tags), log, line, store, victim);
  }

  /** After the line has taken a way, the search finds it there. */
  lemma FoundAfterMiss(c: Config, tags: seq<Tag>, line: nat, way: nat)
    requires c.Ok() && |tags| == c.sets * c.ways && FindWay(c, tags, line, 0) == c.ways && way < c.ways
    ensures var tags1 := tags[Place(c, line % c.sets, way) := Tag(line, false)]; FindWay(c, tags1, line, 0) == way
  {
    var tags1 := tags[Place(c, line % c.sets, way) := Tag(line, false)];
    var n := FindWay(c, tags1, line, 0);
    PlaceUnique(c, line % c.sets, way);
    if n < c.ways {
      PlaceUnique(c, line % c.sets, n);
    }
  }
}
