/**
 Instruction decoding: a direct-mapped cache in front of a linear search through a table that moves
 hits to its front.  Whatever has been decoded before, the result for a nonzero word is the first match
 in the table as it was sorted at the start; for the zero word this depends on the history.
*/
module Opcode {

  /** A machine word, as the number it stands for. */
  type Word = nat

  /** Bitwise and. */
  function And(a: Word, b: Word): Word {
    if a == 0 || b == 0 then 0 else 2 * And(a / 2, b / 2) + (if a % 2 == 1 && b % 2 == 1 then 1 else 0)
  }

  /** A table entry; the two handlers stand for the functions for the two register widths. */
  datatype Desc = Desc(pattern: Word, mask: Word, rv32: nat, rv64: nat)

  const CACHE_SIZE: nat := 8191

  predicate Matches(w: Word, d: Desc) { And(w, d.mask) == d.pattern }

  function Index(w: Word): (i: nat)
    ensures i < CACHE_SIZE
  {
    w % CACHE_SIZE
  }

  /** The entry that matches everything. */
  predicate CatchAll(d: Desc) { d.pattern == 0 && d.mask == 0 }

  lemma CatchAllMatches(w: Word, d: Desc)
    requires CatchAll(d)
    ensures Matches(w, d)
  {
  }

  // ---- the table ----

  /** The order the table is sorted by: larger match values first, and larger masks first among equal ones. */
  predicate Before(a: Desc, b: Desc) { if a.pattern == b.pattern then a.mask > b.mask else a.pattern > b.pattern }

  /** What sorting leaves behind. */
  predicate Sorted(t: seq<Desc>) { forall i, j :: 0 <= i < j < |t| ==> !Before(t[j], t[i]) }

  /** The only entry with an empty mask is the catch-all, at the end. */
  predicate Closed(t: seq<Desc>) {
    |t| > 0 && CatchAll(t[|t| - 1]) && forall i :: 0 <= i < |t| - 1 ==> t[i].mask != 0
  }

  /** Entries with equal match values stand together. */
  predicate Contiguous(t: seq<Desc>) {
    forall i, j, k :: 0 <= i < j < k < |t| && t[i].pattern == t[k].pattern ==> t[j].pattern == t[i].pattern
  }

  /** Two entries, other than the catch-all, that match a common word have the same match value. */
  ghost predicate Unambiguous(t: seq<Desc>) {
    forall w: Word, i, j :: 0 <= i < |t| - 1 && 0 <= j < |t| - 1 && Matches(w, t[i]) && Matches(w, t[j]) ==>
        t[i].pattern == t[j].pattern
  }

  lemma SortedIsContiguous(t: seq<Desc>)
    requires Sorted(t)
    ensures Contiguous(t)
  {
    forall i, j, k | 0 <= i < j < k < |t| && t[i].pattern == t[k].pattern ensures t[j].pattern == t[i].pattern {
      EqualEnds(t[i], t[j], t[k]);
    }
  }

  lemma EqualEnds(a: Desc, b: Desc, c: Desc)
    requires !Before(b, a) && !Before(c, b) && a.pattern == c.pattern
    ensures b.pattern == a.pattern
  {
  }

  /** The first entry from i on that matches, or the end. */
  function FirstMatch(t: seq<Desc>, w: Word, i: nat): (n: nat)
    requires i <= |t|
    ensures i <= n <= |t| && (n < |t| ==> Matches(w, t[n]))
    ensures forall j :: i <= j < n ==> !Matches(w, t[j])
    decreases |t| - i
  {
    if i == |t| || Matches(w, t[i]) then i else FirstMatch(t, w, i + 1)
  }

  /** The search ends at the catch-all at the latest. */
  lemma SearchEnds(t: seq<Desc>, w: Word)
    requires Closed(t)
    ensures FirstMatch(t, w, 0) < |t|
  {
    CatchAllMatches(w, t[|t| - 1]);
  }

  /** What a plain first-match scan finds. */
  function Found(t: seq<Desc>, w: Word): Desc
    requires Closed(t)
  {
    SearchEnds(t, w);
    t[FirstMatch(t, w, 0)]
  }

  // ---- groups of equal match values ----

  function Group(t: seq<Desc>, m: Word): (g: seq<Desc>)
    ensures forall d :: d in g <==> d in t && d.pattern == m
  {
    if t == [] then []
    else if t[0].pattern == m then [t[0]] + Group(t[1..], m)
    else Group(t[1..], m)
  }

  lemma {:induction false} GroupAppend(s: seq<Desc>, t: seq<Desc>, m: Word)
    ensures Group(s + t, m) == Group(s, m) + Group(t, m)
  {
    if s == [] {
      assert s + t == t;
    } else {
      assert (s + t)[1..] == s[1..] + t;
      GroupAppend(s[1..], t, m);
    }
  }

  lemma {:induction false} NoGroup(t: seq<Desc>, m: Word)
    requires forall i :: 0 <= i < |t| ==> t[i].pattern != m
    ensures Group(t, m) == []
  {
    if t != [] {
      NoGroup(t[1..], m);
    }
  }

  /** The scan of a table looks at one group only. */
  lemma {:induction false} ScanOneGroup(t: seq<Desc>, w: Word, m: Word)
    requires forall i :: 0 <= i < |t| && Matches(w, t[i]) ==> t[i].pattern == m
    ensures var n := FirstMatch(t, w, 0); var g := Group(t, m); var k := FirstMatch(g, w, 0);
      (n < |t| <==> k < |g|) && (n < |t| ==> t[n] == g[k])
  {
    if t != [] && !Matches(w, t[0]) {
      assert forall i :: 0 <= i < |t[1..]| ==> t[1..][i] == t[i + 1];
      ScanOneGroup(t[1..], w, m);
      ScanTail(t, w);
      if t[0].pattern == m {
        assert Group(t, m)[1..] == Group(t[1..], m);
        ScanTail(Group(t, m), w);
      }
    }
  }

  lemma ScanTail(t: seq<Desc>, w: Word)
    requires t != [] && !Matches(w, t[0])
    ensures FirstMatch(t, w, 0) == FirstMatch(t[1..], w, 0) + 1
  {
    var n := FirstMatch(t[1..], w, 0);
    assert forall i :: 0 <= i < |t[1..]| ==> t[1..][i] == t[i + 1];
    if n < |t[1..]| {
      assert Matches(w, t[n + 1]);
    }
  }

  // ---- decoding ----

  datatype State = State(table: seq<Desc>, cache: seq<Desc>)

  predicate Shape(s: State) { Closed(s.table) && |s.cache| == CACHE_SIZE }

  /** The hit is moved to the front unless it is there, is the catch-all, or stands in a group. */
  predicate Moves(t: seq<Desc>, p: nat)
    requires Closed(t) && p < |t|
  {
    t[p].mask != 0 && p > 0 && t[p].pattern != t[p - 1].pattern && p + 1 < |t| && t[p].pattern != t[p + 1].pattern
  }

  function ToFront(t: seq<Desc>, p: nat): (r: seq<Desc>)
    requires p < |t|
    ensures |r| == |t|
  {
    [t[p]] + t[..p] + t[p + 1..]
  }

  /** One decoding: the new state and the entry found. */
  function Decode(s: State, w: Word): (r: (State, Desc))
    requires Shape(s)
    ensures Shape(r.0)
  {
    var cached := s.cache[Index(w)];
    if cached.pattern == w then (s, cached)
    else
      SearchEnds(s.table, w);
      var p := FirstMatch(s.table, w, 0);
      var table := if Moves(s.table, p) then ToFront(s.table, p) else s.table;
      FrontClosed(s.table, p);
      (State(table, s.cache[Index(w) := s.table[p].(pattern := w)]), s.table[p])
  }

  lemma FrontClosed(t: seq<Desc>, p: nat)
    requires Closed(t) && p < |t|
    ensures Moves(t, p) ==> Closed(ToFront(t, p))
  {
    if Moves(t, p) {
      var r := ToFront(t, p);
      assert r[|r| - 1] == t[|t| - 1];
      forall i | 0 <= i < |r| - 1 ensures r[i].mask != 0 {
        assert r[i] == if i == 0 then t[p] else if i <= p then t[i - 1] else t[i];
      }
    }
  }

  // ---- the invariant ----

  /** The table without the catch-all. */
  function Body(t: seq<Desc>): seq<Desc>
    requires Closed(t)
  {
    t[..|t| - 1]
  }

  ghost predicate SameBodies(b0: seq<Desc>, b: seq<Desc>) { forall m :: Group(b, m) == Group(b0, m) }

  /** The table holds the groups of the original one, each unbroken and in its order. */
  ghost predicate SameGroups(original: seq<Desc>, t: seq<Desc>) {
    && Closed(original) && Closed(t) && Contiguous(t) && t[|t| - 1] == original[|original| - 1]
    && SameBodies(Body(original), Body(t))
  }

  /** A cached entry for a nonzero word holds what the original table says of that word. */
  predicate CacheOk(original: seq<Desc>, cache: seq<Desc>)
    requires Closed(original) && |cache| == CACHE_SIZE
  {
    forall i :: 0 <= i < CACHE_SIZE ==> CachedOk(original, cache[i])
  }

  predicate CachedOk(original: seq<Desc>, d: Desc)
    requires Closed(original)
  {
    d.pattern != 0 ==> d == Found(original, d.pattern).(pattern := d.pattern)
  }

  ghost predicate Inv(original: seq<Desc>, s: State) {
    Shape(s) && SameGroups(original, s.table) && CacheOk(original, s.cache)
  }

  /** Splitting off the catch-all. */
  lemma FoundInBody(t: seq<Desc>, w: Word)
    requires Closed(t)
    ensures var body := t[..|t| - 1]; var n := FirstMatch(body, w, 0);
      Found(t, w) == if n < |body| then body[n] else t[|t| - 1]
  {
    var body := t[..|t| - 1];
    var n, k := FirstMatch(body, w, 0), FirstMatch(t, w, 0);
    SearchEnds(t, w);
    CatchAllMatches(w, t[|t| - 1]);
    assert forall i :: 0 <= i < |body| ==> body[i] == t[i];
    if n < |body| {
      assert Matches(w, t[n]) && k <= n;
      assert Matches(w, body[k]);
    } else {
      assert k == |t| - 1;
    }
  }

  /** Tables with the same groups give the same answers. */
  lemma SameAnswer(original: seq<Desc>, t: seq<Desc>, w: Word)
    requires SameGroups(original, t) && Unambiguous(original)
    ensures Found(t, w) == Found(original, w)
  {
    hide Contiguous, And, Group;
    var b0, b := original[..|original| - 1], t[..|t| - 1];
    FoundInBody(original, w);
    FoundInBody(t, w);
    var n := FirstMatch(b0, w, 0);
    if n < |b0| {
      var m := b0[n].pattern;
      OnlyPattern(original, w, n);
      SameMatches(b0, b, w, m);
      ScanOneGroup(b0, w, m);
      ScanOneGroup(b, w, m);
      assert Group(b, m) == Group(b0, m);
    } else {
      NoMatches(b0, b, w);
    }
  }

  lemma OnlyPattern(t: seq<Desc>, w: Word, n: nat)
    requires Closed(t) && Unambiguous(t) && n < |t| - 1 && Matches(w, t[n])
    ensures var b := t[..|t| - 1]; forall i :: 0 <= i < |b| && Matches(w, b[i]) ==> b[i].pattern == t[n].pattern
  {
  }

  lemma SameMatches(b0: seq<Desc>, b: seq<Desc>, w: Word, m: Word)
    requires SameBodies(b0, b)
    requires forall i :: 0 <= i < |b0| && Matches(w, b0[i]) ==> b0[i].pattern == m
    ensures forall i :: 0 <= i < |b| && Matches(w, b[i]) ==> b[i].pattern == m
  {
    forall i | 0 <= i < |b| && Matches(w, b[i]) ensures b[i].pattern == m {
      assert b[i] in Group(b, b[i].pattern);
      assert b[i] in Group(b0, b[i].pattern);
      assert b[i] in b0;
    }
  }

  lemma NoMatches(b0: seq<Desc>, b: seq<Desc>, w: Word)
    requires SameBodies(b0, b)
    requires FirstMatch(b0, w, 0) == |b0|
    ensures FirstMatch(b, w, 0) == |b|
  {
    forall i | 0 <= i < |b| ensures !Matches(w, b[i]) {
      assert b[i] in Group(b, b[i].pattern);
      assert b[i] in Group(b0, b[i].pattern);
    }
  }

  /** An entry that differs from both neighbours is alone in its group. */
  lemma Alone(t: seq<Desc>, p: nat)
    requires Closed(t) && Contiguous(t) && p < |t| && Moves(t, p)
    ensures forall i :: 0 <= i < |t| && i != p ==> t[i].pattern != t[p].pattern
  {
  }

  /** Moving such an entry to the front keeps the groups. */
  lemma MoveKeepsGroups(original: seq<Desc>, t: seq<Desc>, p: nat)
    requires SameGroups(original, t) && p < |t| && Moves(t, p)
    ensures SameGroups(original, ToFront(t, p))
  {
    var r := ToFront(t, p);
    FrontClosed(t, p);
    Alone(t, p);
    FrontContiguous(t, p);
    hide Contiguous, Moves;
    var before, after := Body(t), Body(r);
    forall m ensures Group(after, m) == Group(before, m) {
      FrontGroup(t, p, m);
    }
    assert r[|r| - 1] == t[|t| - 1];
  }

  lemma FrontContiguous(t: seq<Desc>, p: nat)
    requires Contiguous(t) && p < |t| && forall i :: 0 <= i < |t| && i != p ==> t[i].pattern != t[p].pattern
    ensures Contiguous(ToFront(t, p))
  {
    var r := ToFront(t, p);
    assert forall i :: 0 <= i < |r| ==> r[i] == t[if i == 0 then p else if i <= p then i - 1 else i];
    forall i, j, k | 0 <= i < j < k < |r| && r[i].pattern == r[k].pattern ensures r[j].pattern == r[i].pattern {
      assert i > 0;
    }
  }

  lemma FrontGroup(t: seq<Desc>, p: nat, m: Word)
    requires p < |t| - 1 && forall i :: 0 <= i < |t| && i != p ==> t[i].pattern != t[p].pattern
    ensures var r := ToFront(t, p); Group(r[..|r| - 1], m) == Group(t[..|t| - 1], m)
  {
    hide Group;
    var r := ToFront(t, p);
    var lo, x, hi := t[..p], [t[p]], t[p + 1..|t| - 1];
    assert r[..|r| - 1] == x + lo + hi && t[..|t| - 1] == lo + x + hi;
    GroupAppend(x + lo, hi, m);
    GroupAppend(x, lo, m);
    GroupAppend(lo + x, hi, m);
    GroupAppend(lo, x, m);
    if m == t[p].pattern {
      NoGroup(lo, m);
    } else {
      NoGroup(x, m);
    }
    assert [] + Group(lo, m) == Group(lo, m) + [] == Group(lo, m);
  }

  /** Decoding keeps the invariant, and for a nonzero word finds what the original table has for it. */
  lemma DecodeKeeps(original: seq<Desc>, s: State, w: Word)
    requires Inv(original, s) && Unambiguous(original)
    ensures Inv(original, Decode(s, w).0)
    ensures w != 0 ==> Decode(s, w).1.rv32 == Found(original, w).rv32 && Decode(s, w).1.rv64 == Found(original, w).rv64
  {
    hide Unambiguous, SameGroups, Moves;
    var cached := s.cache[Index(w)];
    GroupsClosed(original, s.table);
    assert CachedOk(original, cached);
    if cached.pattern != w {
      SearchEnds(s.table, w);
      SameAnswer(original, s.table, w);
      var p := FirstMatch(s.table, w, 0);
      FrontClosed(s.table, p);
      if Moves(s.table, p) {
        MoveKeepsGroups(original, s.table, p);
      }
    }
  }

  /** The state that is built: the sorted table, and a cache that knows the zero word only. */
  predicate Initial(s: State) {
    Shape(s) && Sorted(s.table) && forall i :: 0 <= i < CACHE_SIZE ==>
        s.cache[i] == Desc(0, 0, s.table[|s.table| - 1].rv32, s.table[|s.table| - 1].rv64)
  }

  lemma InitialInv(s: State)
    requires Initial(s)
    ensures Inv(s.table, s)
  {
    SortedIsContiguous(s.table);
  }

  function History(s: State, ws: seq<Word>): (r: State)
    requires Shape(s)
    ensures Shape(r)
    decreases |ws|
  {
    if ws == [] then s else History(Decode(s, ws[0]).0, ws[1..])
  }

  lemma {:induction false} HistoryKeeps(original: seq<Desc>, s: State, ws: seq<Word>)
    requires Inv(original, s) && Unambiguous(original)
    ensures Inv(original, History(s, ws))
    decreases |ws|
  {
    hide Inv, Unambiguous, Decode;
    if ws != [] {
      DecodeKeeps(original, s, ws[0]);
      InvShape(original, s);
      InvShape(original, Decode(s, ws[0]).0);
      HistoryKeeps(original, Decode(s, ws[0]).0, ws[1..]);
    }
  }

  lemma GroupsClosed(original: seq<Desc>, t: seq<Desc>)
    requires SameGroups(original, t)
    ensures Closed(original) && Closed(t)
  {
  }

  lemma InvShape(original: seq<Desc>, s: State)
    requires Inv(original, s)
    ensures Shape(s)
  {
  }

  /** After any history a nonzero word is decoded as a scan of the table as it was sorted would decode it. */
  lemma DecodesLikeSortedTable(s: State, ws: seq<Word>, w: Word)
    requires Initial(s) && Unambiguous(s.table) && w != 0
    ensures var d := Decode(History(s, ws), w).1; d.rv32 == Found(s.table, w).rv32 && d.rv64 == Found(s.table, w).rv64
  {
    InitialInv(s);
    HistoryKeeps(s.table, s, ws);
    DecodeKeeps(s.table, History(s, ws), w);
  }

  // ---- the zero word ----

  /** A nonzero word has been decoded that shares its place in the cache with the zero word. */
  predicate Displaced(ws: seq<Word>) { exists i :: 0 <= i < |ws| && Displaces(ws[i]) }

  predicate Displaces(w: Word) { w != 0 && Index(w) == Index(0) }

  /**
   The entry that answers for the zero word: the one the empty cache starts with, or, once that has been
   displaced, what the table has for it.
  */
  predicate ZeroEntry(original: seq<Desc>, d: Desc, displaced: bool)
    requires Closed(original)
  {
    if displaced then d.pattern == 0 ==> SameHandlers(d, Found(original, 0))
    else d.pattern == 0 && SameHandlers(d, original[|original| - 1])
  }

  predicate SameHandlers(d: Desc, e: Desc) { d.rv32 == e.rv32 && d.rv64 == e.rv64 }

  lemma ZeroEntryKeeps(original: seq<Desc>, s: State, w: Word, displaced: bool)
    requires Inv(original, s) && Unambiguous(original) && ZeroEntry(original, s.cache[Index(0)], displaced)
    ensures ZeroEntry(original, Decode(s, w).0.cache[Index(0)], displaced || Displaces(w))
  {
    hide Unambiguous, SameGroups, Moves;
    GroupsClosed(original, s.table);
    SearchEnds(s.table, w);
    SameAnswer(original, s.table, w);
  }

  lemma {:induction false} ZeroEntryAfter(original: seq<Desc>, s: State, ws: seq<Word>, displaced: bool)
    requires Inv(original, s) && Unambiguous(original) && ZeroEntry(original, s.cache[Index(0)], displaced)
    ensures ZeroEntry(original, History(s, ws).cache[Index(0)], displaced || Displaced(ws))
    decreases |ws|
  {
    hide Inv, Unambiguous, Decode, ZeroEntry, Displaces;
    if ws != [] {
      InvShape(original, s);
      DecodeKeeps(original, s, ws[0]);
      ZeroEntryKeeps(original, s, ws[0], displaced);
      InvShape(original, Decode(s, ws[0]).0);
      ZeroEntryAfter(original, Decode(s, ws[0]).0, ws[1..], displaced || Displaces(ws[0]));
      FirstOrLater(ws);
    }
  }

  lemma FirstOrLater(ws: seq<Word>)
    requires ws != []
    ensures Displaced(ws) <==> Displaces(ws[0]) || Displaced(ws[1..])
  {
    hide Displaces;
    if i :| 0 <= i < |ws| && Displaces(ws[i]) {
      assert i > 0 ==> Displaces(ws[1..][i - 1]);
    }
    if i :| 0 <= i < |ws[1..]| && Displaces(ws[1..][i]) {
      assert Displaces(ws[i + 1]);
    }
  }

  /** After any history the zero word gets the catch-all's handlers until its place has been used for another word. */
  lemma ZeroWordDecodes(s: State, ws: seq<Word>)
    requires Initial(s) && Unambiguous(s.table)
    ensures SameHandlers(Decode(History(s, ws), 0).1,
      if Displaced(ws) then Found(s.table, 0) else s.table[|s.table| - 1])
  {
    InitialInv(s);
    HistoryKeeps(s.table, s, ws);
    ZeroEntryAfter(s.table, s, ws, false);
    var t := History(s, ws);
    GroupsClosed(s.table, t.table);
    SearchEnds(t.table, 0);
    SameAnswer(s.table, t.table, 0);
    hide Unambiguous, SameGroups, Displaced, Initial, CacheOk;
  }

  /**
   When decoding agrees with a scan of the sorted table, for either width: always for a nonzero word, and for
   the zero word exactly when its place has been used in between, or the table has the catch-all's handler for it.
  */
  lemma DecodesExactly(s: State, ws: seq<Word>, w: Word)
    requires Initial(s) && Unambiguous(s.table)
    ensures Decode(History(s, ws), w).1.rv32 == Found(s.table, w).rv32 <==>
      w != 0 || Displaced(ws) || Found(s.table, 0).rv32 == s.table[|s.table| - 1].rv32
    ensures Decode(History(s, ws), w).1.rv64 == Found(s.table, w).rv64 <==>
      w != 0 || Displaced(ws) || Found(s.table, 0).rv64 == s.table[|s.table| - 1].rv64
  {
    if w != 0 {
      DecodesLikeSortedTable(s, ws, w);
    } else {
      ZeroWordDecodes(s, ws);
    }
    hide Displaced, Initial, Unambiguous, Decode, History, Found;
  }

  /**
   A table in which an entry other than the catch-all matches the zero word, as the compressed instructions
   have one.
  */
  lemma ZeroWordGoesWrong(s: State, d: Desc)
    requires Initial(s) && Unambiguous(s.table) && d in s.table && d.pattern == 0 && d.mask != 0
    requires forall e :: e in s.table && e != s.table[|s.table| - 1] ==> e.rv32 != s.table[|s.table| - 1].rv32
    ensures Decode(s, 0).1.rv32 != Found(s.table, 0).rv32
  {
    var i :| 0 <= i < |s.table| && s.table[i] == d;
    assert Matches(0, s.table[i]);
    SearchEnds(s.table, 0);
    assert FirstMatch(s.table, 0, 0) < |s.table| - 1;
    DecodesExactly(s, [], 0);
  }

  // ---- what the table's order and its shifts are for ----

  /** Bit i of the bitwise and is set exactly if it is set in both words. */
  lemma {:induction false} AndBit(a: Word, b: Word, i: nat)
    ensures Bit(And(a, b), i) <==> Bit(a, i) && Bit(b, i)
    decreases i
  {
    if i > 0 && a != 0 && b != 0 {
      AndBit(a / 2, b / 2, i - 1);
    } else if i > 0 {
      NoBit(i);
    }
  }

  predicate Bit(w: Word, i: nat)
    decreases i
  {
    if i == 0 then w % 2 == 1 else Bit(w / 2, i - 1)
  }

  lemma {:induction false} NoBit(i: nat)
    ensures !Bit(0, i)
    decreases i
  {
    if i > 0 {
      NoBit(i - 1);
    }
  }

  /** Of the entries that match a word, the sorted table gives one with the largest mask. */
  lemma FindsMostSpecific(t: seq<Desc>, w: Word, i: nat)
    requires Closed(t) && Sorted(t) && Unambiguous(t) && i < |t| && Matches(w, t[i])
    ensures Matches(w, Found(t, w)) && t[i].mask <= Found(t, w).mask
  {
    SearchEnds(t, w);
    var n := FirstMatch(t, w, 0);
    if i < |t| - 1 {
      assert n <= i && t[n].pattern == t[i].pattern;
      assert n < i ==> !Before(t[i], t[n]);
    }
  }

  /**
   A search moves the entry it has found to the front, and keeps the order of the others, exactly if no other entry
   has its match value and it is not the catch-all.
  */
  lemma SearchMovesExactly(original: seq<Desc>, s: State, w: Word)
    requires Inv(original, s) && s.cache[Index(w)].pattern != w
    ensures var p := FirstMatch(s.table, w, 0); var t := Decode(s, w).0.table;
      && p < |s.table|
      && t == if s.table[p].mask != 0 && forall j :: 0 <= j < |s.table| && j != p ==>
                   s.table[j].pattern != s.table[p].pattern
              then [s.table[p]] + s.table[..p] + s.table[p + 1..]
              else s.table
  {
    SearchEnds(s.table, w);
    var p := FirstMatch(s.table, w, 0);
    var t := s.table;
    if Moves(t, p) {
      Alone(t, p);
    } else if p == 0 {
      assert [t[p]] + t[..p] + t[p + 1..] == t;
    }
    hide SameGroups, CacheOk, Contiguous;
  }
}
