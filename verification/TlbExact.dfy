/**
 The condition under which the TLB cannot be noticed is exact.  Where the kinds of access disagree on a page,
 a load through the offset that a fetch has left behind reads another byte; where a root that is written
 later maps a page otherwise than an earlier one, the page is still accessed as it was cached.
*/
module TlbExact {
  import opened Words
  import opened Arith
  import opened Tlb
  import opened TlbAgrees
  import opened TlbRoots
  import opened TlbRuns

  /** Any other memory with the same page tables, as far as walks read them. */
  ghost predicate Variant(c: Config, m: Memory, m1: Memory, tables: iset<nat>) {
    Whole(c, m1) && SameTables(c, m, m1, tables)
  }

  /** Whatever else memory holds, no program that writes these roots and leaves the page tables alone notices. */
  ghost predicate Invisible(c: Config, m: Memory, later: seq<nat>, tables: iset<nat>) {
    forall m1: Memory, t: State, ops: seq<Op> :: Unnoticed(c, m, later, tables, m1, t, ops)
  }

  ghost predicate Unnoticed(c: Config, m: Memory, later: seq<nat>, tables: iset<nat>, m1: Memory, t: State,
      ops: seq<Op>)
  {
    Variant(c, m, m1, tables) && Flushed(t) && OkOps(ops) && Written(ops) == later &&
        AllAvoid(c, m1, ops, tables) ==>
      FastRun(c, m1, t, ops) == SlowRun(c, m1, ops)
  }

  // ---- stores are translated where loads are ----

  lemma {:induction false} StoreLeafIsLoadLeaf(c: Config, m: Memory, vpn: nat, base: nat, level: nat)
    requires WalkFrom(c, m, vpn, Store, base, level).Leaf?
    ensures WalkFrom(c, m, vpn, Load, base, level) == WalkFrom(c, m, vpn, Store, base, level)
    decreases level
  {
    hide PteAddr, IsTable;
    if level > 0 && WalkFrom(c, m, vpn, Store, base, level) ==
        WalkFrom(c, m, vpn, Store, U64(Ppn(c, m, PteAddr(c, vpn, base, level)) * PAGE), level - 1)
        && IsTable(Get(m, PteAddr(c, vpn, base, level))) {
      StoreLeafIsLoadLeaf(c, m, vpn, U64(Ppn(c, m, PteAddr(c, vpn, base, level)) * PAGE), level - 1);
    }
  }

  lemma StorePageIsLoadPage(c: Config, m: Memory, vpn: nat)
    requires Translate(c, m, vpn, Store).page >= 0
    ensures Translate(c, m, vpn, Load).page == Translate(c, m, vpn, Store).page
  {
    if !c.Mode(Store).Machine? {
      StoreLeafIsLoadLeaf(c, m, vpn, U64(c.sptbr * PAGE), c.scheme.Levels() - 1);
    }
  }

  /** If any kinds of access disagree on a page, fetches and loads do. */
  lemma FetchAndLoadDisagree(c: Config, m: Memory)
    requires !PagesAgree(c, m)
    ensures exists vpn: nat :: vpn < PAGES && !AgreeOn(c, m, vpn, Fetch, Load)
  {
    var vpn: nat, k1: Kind, k2: Kind :| vpn < PAGES && !AgreeOn(c, m, vpn, k1, k2);
    hide Translate;
    if k1.Store? || k2.Store? {
      StorePageIsLoadPage(c, m, vpn);
    }
    assert !AgreeOn(c, m, vpn, Fetch, Load);
  }

  // ---- the program that notices ----

  function LoadOf(vpn: nat, o: nat): Access { Access(Load, vpn * PAGE + o, 1, [0]) }

  function FetchOf(vpn: nat): Access { Access(Fetch, vpn * PAGE, 2, [0, 0]) }

  /** A load, a fetch from the same page, and the load again. */
  function Probe(vpn: nat, o: nat): (ops: seq<Op>)
    requires vpn < PAGES && o < PAGE
    ensures OkOps(ops)
  {
    [Touch(LoadOf(vpn, o)), Touch(FetchOf(vpn)), Touch(LoadOf(vpn, o))]
  }

  lemma PageOf(vpn: nat, o: nat)
    requires o < PAGE
    ensures (vpn * PAGE + o) / PAGE == vpn && (vpn * PAGE + o) % PAGE == o && vpn * PAGE % PAGE == 0 &&
      vpn * PAGE / PAGE == vpn
  {
  }

  /**
   The place in every page where a byte may change without any walk noticing: behind the flags of an entry, if
   the page is a table.
  */
  const QUIET := 1

  /** Another value of such a byte. */
  function Flipped(v: nat): (w: nat)
    ensures w != v && w / 4 == v / 4
  {
    if v % 2 == 0 then v + 1 else v - 1
  }

  /** One of the two that is not this value. */
  function Unlike(v: nat, u: nat): (w: nat)
    ensures w != u && w / 4 == v / 4
  {
    if v == u then Flipped(v) else v
  }

  /** Byte x is at such a place, for either size of entries, and v is a value no walk tells from the present one. */
  predicate QuietChange(m: Memory, x: nat, v: nat) { x % 4 == 1 && x % 8 == 1 && v / 4 == Get(m, x) / 4 }

  lemma QuietPlace(page: nat)
    requires page % PAGE == 0
    ensures (page + QUIET) % 4 == 1 && (page + QUIET) % 8 == 1
  {
    var k := page / PAGE;
    assert page == PAGE * k;
    OneBehind(512 * k);
  }

  lemma OneBehind(k: nat)
    ensures (8 * k + 1) % 4 == 1 && (8 * k + 1) % 8 == 1
  {
    QuotientUnique(8 * k + 1, 4, 2 * k);
    QuotientUnique(8 * k + 1, 8, k);
  }

  /** A mapped page may hold, at that place, something else than u. */
  lemma QuietByte(c: Config, m: Memory, vpn: nat, kind: Kind, u: nat) returns (v: nat)
    requires c.Ok() && Mapped(c, m, vpn, kind)
    ensures QuietChange(m, Translate(c, m, vpn, kind).page + QUIET, v) && v != u
  {
    TranslatedPage(c, m, vpn, kind);
    hide Translate;
    var page := Translate(c, m, vpn, kind).page;
    QuietPlace(page);
    v := Unlike(Get(m, page + QUIET), u);
  }

  lemma QuietAlike(c: Config, m: Memory, x: nat, v: nat, tables: iset<nat>)
    requires QuietChange(m, x, v)
    ensures SameTables(c, m, m[x := v], tables)
  {
  }

  /** Such a byte changes no translation, and stays as it is when bits are set. */
  lemma OtherByte(c: Config, m: Memory, x: nat, v: nat, vpn: nat, kind: Kind, tables: iset<nat>)
    requires Whole(c, m) && Protected(c, m, tables) && QuietChange(m, x, v)
    ensures var t := Translate(c, m, vpn, kind);
      Translate(c, m[x := v], vpn, kind) == Translation(t.mem[x := v], t.page) && QuietChange(t.mem, x, v)
  {
    if !c.scheme.Bare? {
      QuietWalk(c, m, x, v, vpn, kind, tables);
    }
    hide Walk, Marked;
    var w := Walk(c, m, vpn, kind);
    if !c.Mode(kind).Machine? && w.Leaf? {
      assert m[x := v][w.pte := Marked(Get(m, w.pte), kind)] == m[w.pte := Marked(Get(m, w.pte), kind)][x := v];
    }
  }

  lemma QuietWalk(c: Config, m: Memory, x: nat, v: nat, vpn: nat, kind: Kind, tables: iset<nat>)
    requires !c.scheme.Bare? && Protected(c, m, tables) && QuietChange(m, x, v)
    ensures var w := Walk(c, m, vpn, kind); Walk(c, m[x := v], vpn, kind) == w && (w.Leaf? ==> w.pte != x)
  {
    QuietAlike(c, m, x, v, tables);
    hide WalkFrom, Inside, Canonical, SameTables;
    assert WalkInside(c, m, vpn, tables);
    WalkAgrees(c, m, m[x := v], vpn, kind, c.sptbr, c.scheme.Levels() - 1, tables);
    LeafShape(c, m, vpn, kind, c.sptbr, c.scheme.Levels() - 1);
  }

  /** The two translations, in the order of the program, on memory with value v at byte x. */
  lemma ProbeTranslations(c: Config, m: Memory, tables: iset<nat>, vpn: nat, x: nat, v: nat)
    requires c.Ok() && Whole(c, m) && Protected(c, m, tables) && QuietChange(m, x, v)
    ensures var ma := Translate(c, m, vpn, Load).mem; var mb := Translate(c, ma, vpn, Fetch).mem;
      && Translate(c, m[x := v], vpn, Load) == Translation(ma[x := v], Translate(c, m, vpn, Load).page)
      && Translate(c, ma[x := v], vpn, Fetch) == Translation(mb[x := v], Translate(c, m, vpn, Fetch).page)
      && Get(Translate(c, mb[x := v], vpn, Load).mem, x) == v
      && Translate(c, mb[x := v], vpn, Load).page == Translate(c, m, vpn, Load).page
  {
    hide Translate, Protected, QuietChange;
    var ma := Translate(c, m, vpn, Load).mem;
    OtherByte(c, m, x, v, vpn, Load, tables);
    AfterTranslate(c, c, m, vpn, Load, vpn, Fetch);
    AfterTranslate(c, c, m, vpn, Load, vpn, Load);
    ProtectedAfterTranslate(c, c, m, vpn, Load, tables);
    var mb := Translate(c, ma, vpn, Fetch).mem;
    OtherByte(c, ma, x, v, vpn, Fetch, tables);
    AfterTranslate(c, c, ma, vpn, Fetch, vpn, Load);
    ProtectedAfterTranslate(c, c, ma, vpn, Fetch, tables);
    OtherByte(c, mb, x, v, vpn, Load, tables);
  }

  /** What the program reads in the end: with the TLB from the fetched page, without it from the loaded one. */
  lemma ProbeResults(c: Config, m1: Memory, t: State, vpn: nat, o: nat)
    requires c.Ok() && Flushed(t) && vpn < PAGES && o < PAGE
    requires Mapped(c, m1, vpn, Load)
    requires Mapped(c, Translate(c, m1, vpn, Load).mem, vpn, Fetch)
    requires var mb := Translate(c, Translate(c, m1, vpn, Load).mem, vpn, Fetch).mem;
      Translate(c, mb, vpn, Load).page == Translate(c, m1, vpn, Load).page
    ensures var ma := Translate(c, m1, vpn, Load).mem; var mb := Translate(c, ma, vpn, Fetch).mem;
      && |FastRun(c, m1, t, Probe(vpn, o)).1| == 3 && |SlowRun(c, m1, Probe(vpn, o)).1| == 3
      && FastRun(c, m1, t, Probe(vpn, o)).1[2] == Data([Get(mb, Translate(c, ma, vpn, Fetch).page + o)])
      && SlowRun(c, m1, Probe(vpn, o)).1[2] ==
          Data([Get(Translate(c, mb, vpn, Load).mem, Translate(c, m1, vpn, Load).page + o)])
  {
    hide Translate;
    var load, fetch := LoadOf(vpn, o), FetchOf(vpn);
    PageOf(vpn, o);
    PageOf(vpn, 0);
    var ma, pd := Translate(c, m1, vpn, Load).mem, Translate(c, m1, vpn, Load).page;
    var mb, pf := Translate(c, ma, vpn, Fetch).mem, Translate(c, ma, vpn, Fetch).page;
    PagesWhole(c, m1, vpn, Load, o);
    PagesWhole(c, ma, vpn, Fetch, 0);
    var t1 := Refill(t, load.addr, pd + o, Load);
    var t2 := Refill(t1, fetch.addr, pf, Fetch);
    RefilledTags(t, load.addr, fetch.addr, pd + o, pf, vpn);
    hide Refill;
    assert !Hit(t, load) && Fast(c, m1, t, load) == (ma, t1, Data(ReadBytes(ma, pd + o, 1)));
    assert !Hit(t1, fetch) && Fast(c, ma, t1, fetch) == (mb, t2, Data(ReadBytes(mb, pf, 2)));
    assert Hit(t2, load) && Fast(c, mb, t2, load) == (mb, t2, Data(ReadBytes(mb, pf + o, 1)));
    assert Slow(c, m1, load).0 == ma && Slow(c, ma, fetch).0 == mb;
    assert Slow(c, mb, load).1 == Data(ReadBytes(Translate(c, mb, vpn, Load).mem, pd + o, 1));
    hide Fast, Slow;
    ThreeRuns(c, m1, t, load, fetch);
  }

  lemma ThreeRuns(c: Config, m: Memory, t: State, x: Access, y: Access)
    requires t.Shape() && OkAccess(x) && OkAccess(y)
    ensures var (m1, t1, r1) := Fast(c, m, t, x); var (m2, t2, r2) := Fast(c, m1, t1, y);
      FastRun(c, m, t, [Touch(x), Touch(y), Touch(x)]).1 == [r1, r2, Fast(c, m2, t2, x).2]
    ensures var (m1, r1) := Slow(c, m, x); var (m2, r2) := Slow(c, m1, y);
      SlowRun(c, m, [Touch(x), Touch(y), Touch(x)]).1 == [r1, r2, Slow(c, m2, x).1]
  {
    hide Fast, Slow;
    var (m1, t1, r1) := Fast(c, m, t, x);
    var (m2, t2, r2) := Fast(c, m1, t1, y);
    RunsUnfold(c, m, t, x, [Touch(y), Touch(x)]);
    RunsUnfold(c, m1, t1, y, [Touch(x)]);
    RunsUnfold(c, m2, t2, x, []);
    var (n1, s1) := Slow(c, m, x);
    var (n2, s2) := Slow(c, n1, y);
    RunsUnfold(c, n1, t, y, [Touch(x)]);
    RunsUnfold(c, n2, t, x, []);
    hide FastRun, SlowRun;
    assert [Touch(x)] + [Touch(y), Touch(x)] == [Touch(x), Touch(y), Touch(x)];
    assert [Touch(y)] + [Touch(x)] == [Touch(y), Touch(x)] && [Touch(x)] + [] == [Touch(x)];
  }

  lemma RunsUnfold(c: Config, m: Memory, t: State, x: Access, ops: seq<Op>)
    requires t.Shape() && OkAccess(x) && OkOps(ops)
    ensures OkOps([Touch(x)] + ops)
    ensures var (m1, t1, r1) := Fast(c, m, t, x); var rest := FastRun(c, m1, t1, ops);
      FastRun(c, m, t, [Touch(x)] + ops) == (rest.0, [r1] + rest.1)
    ensures var (m1, r1) := Slow(c, m, x); var rest := SlowRun(c, m1, ops);
      SlowRun(c, m, [Touch(x)] + ops) == (rest.0, [r1] + rest.1)
    ensures ops == [] ==> FastRun(c, m, t, ops) == (m, []) && SlowRun(c, m, ops) == (m, [])
  {
    hide Fast, Slow, OkAccess;
    assert ([Touch(x)] + ops)[0] == Touch(x) && ([Touch(x)] + ops)[1..] == ops;
  }

  lemma PagesWhole(c: Config, m: Memory, vpn: nat, kind: Kind, o: nat)
    requires c.Ok() && Mapped(c, m, vpn, kind) && o < PAGE
    ensures c.IsMem(Translate(c, m, vpn, kind).page + o)
  {
    TranslatedPage(c, m, vpn, kind);
    hide Translate;
    PageOf(vpn, o);
    WholePage(c, Translate(c, m, vpn, kind).page, vpn * PAGE + o);
  }

  lemma RefilledTags(t: State, a: nat, b: nat, p: nat, q: nat, vpn: nat)
    requires Flushed(t) && vpn < PAGES && a / PAGE == vpn && b / PAGE == vpn
    ensures var i := vpn % TLB_ENTRIES; var t1 := Refill(t, a, p, Load); var t2 := Refill(t1, b, q, Fetch);
      && t.Tag(Load, i) == t1.Tag(Fetch, i) == NO_TAG && t2.Tag(Load, i) == vpn && t2.offset[i] == q - b
  {
    var t1 := Refill(t, a, p, Load);
    RefilledTag(t, a, p, Load, vpn % TLB_ENTRIES, Load);
    RefilledTag(t, a, p, Load, vpn % TLB_ENTRIES, Fetch);
    RefilledTag(t1, b, q, Fetch, vpn % TLB_ENTRIES, Load);
  }

  /** The probe reads different bytes if the loaded page holds at o what the fetched one does not. */
  lemma ProbeShows(c: Config, m: Memory, tables: iset<nat>, t: State, vpn: nat, o: nat, v: nat)
    requires c.Ok() && Whole(c, m) && Protected(c, m, tables) && Flushed(t) && vpn < PAGES && o < PAGE &&
      !AgreeOn(c, m, vpn, Fetch, Load)
    requires QuietChange(m, Translate(c, m, vpn, Load).page + o, v)
    requires v != Get(Translate(c, Translate(c, m, vpn, Load).mem, vpn, Fetch).mem,
      Translate(c, m, vpn, Fetch).page + o)
    ensures var m1 := m[Translate(c, m, vpn, Load).page + o := v];
      Variant(c, m, m1, tables) && FastRun(c, m1, t, Probe(vpn, o)).1 != SlowRun(c, m1, Probe(vpn, o)).1
  {
    hide Translate, FastRun, SlowRun, Protected, QuietChange, SameTables;
    var x: nat := Translate(c, m, vpn, Load).page + o;
    var mb := Translate(c, Translate(c, m, vpn, Load).mem, vpn, Fetch).mem;
    var pf := Translate(c, m, vpn, Fetch).page;
    var m1 := m[x := v];
    ProbeTranslations(c, m, tables, vpn, x, v);
    ProbeResults(c, m1, t, vpn, o);
    QuietAlike(c, m, x, v, tables);
    assert Get(mb[x := v], pf + o) == Get(mb, pf + o) != v;
    assert FastRun(c, m1, t, Probe(vpn, o)).1[2] != SlowRun(c, m1, Probe(vpn, o)).1[2];
  }

  /** Where fetches and loads disagree on a page, the probe reads different bytes in some memory. */
  lemma DisagreementShows(c: Config, m: Memory, tables: iset<nat>, t: State, vpn: nat) returns (m1: Memory)
    requires c.Ok() && Whole(c, m) && Protected(c, m, tables) && Flushed(t) && vpn < PAGES &&
      !AgreeOn(c, m, vpn, Fetch, Load)
    ensures Variant(c, m, m1, tables)
    ensures FastRun(c, m1, t, Probe(vpn, QUIET)).1 != SlowRun(c, m1, Probe(vpn, QUIET)).1
  {
    hide Translate, FastRun, SlowRun, Protected, SameTables, QuietChange, Probe;
    var pd, pf := Translate(c, m, vpn, Load).page, Translate(c, m, vpn, Fetch).page;
    var u := Get(Translate(c, Translate(c, m, vpn, Load).mem, vpn, Fetch).mem, pf + QUIET);
    var v := QuietByte(c, m, vpn, Load, u);
    ProbeShows(c, m, tables, t, vpn, QUIET, v);
    m1 := m[pd + QUIET := v];
  }

  lemma ProbeAvoids(c: Config, m: Memory, tables: iset<nat>, vpn: nat, o: nat)
    requires vpn < PAGES && o < PAGE
    ensures AllAvoid(c, m, Probe(vpn, o), tables)
  {
    hide Slow, Translate;
    var x, y := LoadOf(vpn, o), FetchOf(vpn);
    AvoidsFirst(c, m, x, [Touch(y), Touch(x)], tables);
    AvoidsFirst(c, Slow(c, m, x).0, y, [Touch(x)], tables);
    AvoidsFirst(c, Slow(c, Slow(c, m, x).0, y).0, x, [], tables);
    assert [Touch(x)] + [Touch(y), Touch(x)] == Probe(vpn, o);
    assert [Touch(y)] + [Touch(x)] == [Touch(y), Touch(x)] && [Touch(x)] + [] == [Touch(x)];
    hide AllAvoid;
  }

  lemma AvoidsFirst(c: Config, m: Memory, x: Access, ops: seq<Op>, tables: iset<nat>)
    requires OkAccess(x) && OkOps(ops)
    ensures OkOps([Touch(x)] + ops)
    ensures AllAvoid(c, m, [Touch(x)] + ops, tables) <==>
      Avoids(c, m, x, tables) && AllAvoid(c, Slow(c, m, x).0, ops, tables)
    ensures AllAvoid(c, m, [], tables)
  {
    hide Slow, Avoids, OkAccess;
    assert ([Touch(x)] + ops)[0] == Touch(x) && ([Touch(x)] + ops)[1..] == ops;
  }

  // ---- the program that notices another root ----

  /** The access that is made under both roots. */
  function Twice(vpn: nat, kind: Kind, o: nat): (x: Access)
    requires vpn < PAGES && o < PAGE
    ensures OkAccess(x) && x.kind == kind
  {
    if kind.Fetch? then Access(Fetch, vpn * PAGE + o / 2 * 2, 2, [0, 0]) else Access(kind, vpn * PAGE + o, 1, [0])
  }

  /** Where in its page the access goes. */
  function Place(kind: Kind, o: nat): nat { if kind.Fetch? then o / 2 * 2 else o }

  lemma TwicePlace(vpn: nat, kind: Kind, o: nat)
    requires vpn < PAGES && o < PAGE
    ensures var x := Twice(vpn, kind, o);
      x.addr / PAGE == vpn && x.addr % PAGE == Place(kind, o) && Place(kind, o) <= o < Place(kind, o) + x.len
    ensures Place(kind, o) < PAGE && (kind.Fetch? || Twice(vpn, kind, o).addr % Twice(vpn, kind, o).len == 0)
  {
    PageOf(vpn, Place(kind, o));
  }

  /** The access under the first root, as a miss, and again, as a hit. */
  lemma CachedAccess(c: Config, d: Config, m: Memory, t: State, vpn: nat, kind: Kind, o: nat)
    requires c.Ok() && Flushed(t) && vpn < PAGES && o < PAGE && Mapped(c, m, vpn, kind)
    ensures var x := Twice(vpn, kind, o); var tr := Translate(c, m, vpn, kind); var p := tr.page + Place(kind, o);
      var n := Perform(c, tr.mem, x, p).0; var t1 := Refill(t, x.addr, p, kind);
      && c.IsMem(p) && Physical(tr.page, x.addr) == p
      && Fast(c, m, t, x) == (n, t1, Perform(c, tr.mem, x, p).1)
      && Slow(c, m, x) == Perform(c, tr.mem, x, p)
      && Fast(d, n, t1, x) == (Through(n, x, p).0, t1, Through(n, x, p).1)
  {
    var x := Twice(vpn, kind, o);
    TwicePlace(vpn, kind, o);
    PagesWhole(c, m, vpn, kind, Place(kind, o));
    var tr := Translate(c, m, vpn, kind);
    var p := tr.page + Place(kind, o);
    RefilledTag(t, x.addr, p, kind, vpn % TLB_ENTRIES, kind);
    hide Translate, Refill;
  }

  /** Under the second root without the TLB. */
  lemma WalkedAccess(d: Config, n: Memory, vpn: nat, kind: Kind, o: nat)
    requires vpn < PAGES && o < PAGE
    ensures var x := Twice(vpn, kind, o); var tr := Translate(d, n, vpn, kind);
      Slow(d, n, x) == Perform(d, tr.mem, x, if tr.page < 0 then W64 - 1 else tr.page + Place(kind, o))
  {
    TwicePlace(vpn, kind, o);
    hide Translate, Perform;
  }

  /** What two accesses leave and give, the second one under the root of d. */
  predicate SwitchShows(c: Config, d: Config, m: Memory, t: State, x: Access)
    requires t.Shape() && OkAccess(x)
  {
    var (n, t1, _) := Fast(c, m, t, x);
    var (m1, _, r) := Fast(d, n, t1, x);
    var (n2, _) := Slow(c, m, x);
    n2 == n && Slow(d, n, x) != (m1, r)
  }

  /** The page is not there under the second root. */
  lemma MissingShows(c: Config, d: Config, m: Memory, t: State, vpn: nat, kind: Kind, o: nat)
    requires c.Ok() && SameButRoot(c, d) && Flushed(t) && vpn < PAGES && o < PAGE && Mapped(c, m, vpn, kind)
    requires var tr := Translate(c, m, vpn, kind);
      !Mapped(d, Perform(c, tr.mem, Twice(vpn, kind, o), tr.page + Place(kind, o)).0, vpn, kind)
    ensures SwitchShows(c, d, m, t, Twice(vpn, kind, o))
  {
    CachedAccess(c, d, m, t, vpn, kind, o);
    var x := Twice(vpn, kind, o);
    var n := Slow(c, m, x).0;
    WalkedAccess(d, n, vpn, kind, o);
    TwicePlace(vpn, kind, o);
    TranslatedPage(d, n, vpn, kind);
    hide Translate, Refill, Fast, Slow;
    UnmappedIsNoMemory(d);
    if Translate(d, n, vpn, kind).page >= 0 {
      WholePage(d, Translate(d, n, vpn, kind).page, x.addr);
    }
  }

  /** A bit has to be set under the second root. */
  lemma UnsetShows(c: Config, d: Config, m: Memory, t: State, vpn: nat, kind: Kind, o: nat, q: nat)
    requires c.Ok() && Flushed(t) && vpn < PAGES && o < PAGE && Mapped(c, m, vpn, kind)
    requires var x := Twice(vpn, kind, o); var tr := Translate(c, m, vpn, kind); var p := tr.page + Place(kind, o);
      var n := Perform(c, tr.mem, x, p).0;
      Translate(d, n, vpn, kind).page == tr.page && d.IsMem(p) && (kind.Store? ==> q != p) &&
      Get(Translate(d, n, vpn, kind).mem, q) != Get(n, q)
    ensures SwitchShows(c, d, m, t, Twice(vpn, kind, o))
  {
    CachedAccess(c, d, m, t, vpn, kind, o);
    var x := Twice(vpn, kind, o);
    var n := Slow(c, m, x).0;
    WalkedAccess(d, n, vpn, kind, o);
    hide Translate, Refill, Fast, Slow;
    assert Get(Slow(d, n, x).0, q) != Get(n, q);
  }

  /** Another byte is read under the second root. */
  lemma OtherByteShows(c: Config, d: Config, m: Memory, t: State, vpn: nat, kind: Kind, o: nat)
    requires c.Ok() && Flushed(t) && vpn < PAGES && o < PAGE && Mapped(c, m, vpn, kind) && !kind.Store?
    requires var tr := Translate(c, m, vpn, kind); var t2 := Translate(d, tr.mem, vpn, kind);
      t2.page >= 0 && d.IsMem(t2.page + Place(kind, o)) && Get(t2.mem, t2.page + o) != Get(tr.mem, tr.page + o)
    ensures SwitchShows(c, d, m, t, Twice(vpn, kind, o))
  {
    hide Translate, Refill, Fast, Slow, ReadBytes, Mapped, Twice, Place, Perform, Through;
    CachedAccess(c, d, m, t, vpn, kind, o);
    var x := Twice(vpn, kind, o);
    TwicePlace(vpn, kind, o);
    var tr := Translate(c, m, vpn, kind);
    var n := tr.mem;
    WalkedAccess(d, n, vpn, kind, o);
    var t2 := Translate(d, n, vpn, kind);
    var p, p2 := tr.page + Place(kind, o), t2.page + Place(kind, o);
    ReadOnly(c, n, x, p);
    ReadOnly(d, t2.mem, x, p2);
    DifferentBytes(n, t2.mem, p, p2, x.len, o - Place(kind, o));
  }

  lemma ReadOnly(c: Config, m: Memory, x: Access, p: nat)
    requires !x.kind.Store? && c.IsMem(p)
    ensures Perform(c, m, x, p) == Through(m, x, p) == (m, Data(ReadBytes(m, p, x.len)))
  {
  }

  lemma DifferentBytes(m: Memory, m1: Memory, p: nat, p1: nat, len: nat, i: nat)
    requires i < len && Get(m, p + i) != Get(m1, p1 + i)
    ensures ReadBytes(m, p, len) != ReadBytes(m1, p1, len)
  {
    assert ReadBytes(m, p, len)[i] == Get(m, p + i) && ReadBytes(m1, p1, len)[i] == Get(m1, p1 + i);
  }

  /** A program that touches the page under both roots, in memory m1, notices; its stores avoid the tables. */
  ghost predicate Noticed(c: Config, d: Config, m: Memory, tables: iset<nat>, t: State, m1: Memory, x: Access) {
    && Variant(c, m, m1, tables) && t.Shape() && OkAccess(x) && SwitchShows(c, d, m1, t, x)
    && Avoids(c, m1, x, tables) && Avoids(d, Slow(c, m1, x).0, x, tables)
  }

  lemma TwiceAvoids(c: Config, m: Memory, vpn: nat, kind: Kind, o: nat, tables: iset<nat>)
    requires c.Ok() && vpn < PAGES && o < PAGE
    requires kind.Store? && Mapped(c, m, vpn, kind) ==> Free(Translate(c, m, vpn, kind).page, o, tables)
    ensures Avoids(c, m, Twice(vpn, kind, o), tables)
  {
    hide Translate, Twice, Place, Free;
    TwicePlace(vpn, kind, o);
    if kind.Store? {
      StorePlace(vpn, o);
      TranslatedPage(c, m, vpn, kind);
      UnmappedIsNoMemory(c);
      var page := Translate(c, m, vpn, kind).page;
      if page >= 0 {
        WholePage(c, page, Twice(vpn, kind, o).addr);
        if c.IsMem(page) {
          FreeByte(page, o, tables);
        }
      }
    }
  }

  lemma StorePlace(vpn: nat, o: nat)
    requires vpn < PAGES && o < PAGE
    ensures Place(Store, o) == o && Twice(vpn, Store, o).len == 1
  {
  }

  lemma FreeByte(page: nat, o: nat, tables: iset<nat>)
    requires Free(page, o, tables)
    ensures forall a: nat :: page + o <= a < page + o + 1 ==> a !in tables
  {
  }

  lemma MissingIsNoticed(c: Config, d: Config, m: Memory, tables: iset<nat>, t: State, vpn: nat, kind: Kind, o: nat)
    requires c.Ok() && Whole(c, m) && SameButRoot(c, d) && Protected(d, m, tables) && Flushed(t) && vpn < PAGES
    requires o < PAGE && Mapped(c, m, vpn, kind) && !Mapped(d, m, vpn, kind)
    requires kind.Store? ==> Free(Translate(c, m, vpn, kind).page, o, tables)
    ensures Noticed(c, d, m, tables, t, m, Twice(vpn, kind, o))
  {
    hide Translate, Protected, Avoids, SwitchShows, Slow;
    var x := Twice(vpn, kind, o);
    TwiceAvoids(c, m, vpn, kind, o, tables);
    TwicePlace(vpn, kind, o);
    AccessedMemory(c, d, m, x, tables);
    CachedAccess(c, d, m, t, vpn, kind, o);
    MissingShows(c, d, m, t, vpn, kind, o);
    TwiceAvoids(d, Slow(c, m, x).0, vpn, kind, o, tables);
  }

  lemma UnsetIsNoticed(c: Config, d: Config, m: Memory, tables: iset<nat>, t: State, vpn: nat, kind: Kind, o: nat)
    requires c.Ok() && Whole(c, m) && SameButRoot(c, d) && Protected(d, m, tables) && Flushed(t) && vpn < PAGES
    requires o < PAGE && Mapped(c, m, vpn, kind) && !c.Mode(kind).Machine? && Walk(d, m, vpn, kind).Leaf?
    requires var w, v := Walk(c, m, vpn, kind), Walk(d, m, vpn, kind);
      v.page == w.page && v.pte != w.pte && Marked(Get(m, v.pte), kind) != Get(m, v.pte)
    requires kind.Store? ==> Free(Translate(c, m, vpn, kind).page, o, tables)
    ensures Noticed(c, d, m, tables, t, m, Twice(vpn, kind, o))
  {
    var x := Twice(vpn, kind, o);
    TwiceAvoids(c, m, vpn, kind, o, tables);
    TwicePlace(vpn, kind, o);
    AccessedMemory(c, d, m, x, tables);
    CachedAccess(c, d, m, t, vpn, kind, o);
    UnsetAfter(c, d, m, tables, vpn, kind, o);
    hide Translate, Protected, Avoids, SwitchShows, Slow, Walk, Marked;
    UnsetShows(c, d, m, t, vpn, kind, o, Walk(d, m, vpn, kind).pte);
    TwiceAvoids(d, Slow(c, m, x).0, vpn, kind, o, tables);
  }

  /** The bit is still to be set after the first access. */
  lemma UnsetAfter(c: Config, d: Config, m: Memory, tables: iset<nat>, vpn: nat, kind: Kind, o: nat)
    requires c.Ok() && Whole(c, m) && SameButRoot(c, d) && Protected(d, m, tables) && vpn < PAGES
    requires o < PAGE && Mapped(c, m, vpn, kind) && !c.Mode(kind).Machine? && Walk(d, m, vpn, kind).Leaf?
    requires var w, v := Walk(c, m, vpn, kind), Walk(d, m, vpn, kind);
      v.pte != w.pte && Marked(Get(m, v.pte), kind) != Get(m, v.pte)
    requires kind.Store? ==> Free(Translate(c, m, vpn, kind).page, o, tables)
    ensures var q := Walk(d, m, vpn, kind).pte; var tr := Translate(c, m, vpn, kind);
      var p := tr.page + Place(kind, o); var n := Perform(c, tr.mem, Twice(vpn, kind, o), p).0;
      && (kind.Store? ==> q != p) && Get(Translate(d, n, vpn, kind).mem, q) != Get(n, q)
  {
    hide Marked, WalkFrom, Canonical, Inside, PteAddr;
    var w, q := Walk(c, m, vpn, kind), Walk(d, m, vpn, kind).pte;
    var tr := Translate(c, m, vpn, kind);
    var x, p := Twice(vpn, kind, o), tr.page + Place(kind, o);
    var n := Perform(c, tr.mem, x, p).0;
    LeafShape(c, m, vpn, kind, c.sptbr, c.scheme.Levels() - 1);
    MarkedWalk(d, m, w.pte, kind, vpn, kind);
    ProtectedAfterTranslate(c, d, m, vpn, kind, tables);
    WalkKept(d, tr.mem, tr.mem, vpn, kind, tables);
    assert WalkInside(d, m, vpn, tables);
    LeafInside(d, m, vpn, kind, U64(d.sptbr * PAGE), d.scheme.Levels() - 1, tables);
    WalkKept(d, tr.mem, n, vpn, kind, tables);
  }

  /** Where the second root leads to another page, that page holds another byte in some memory. */
  lemma ElsewhereShows(c: Config, d: Config, m: Memory, tables: iset<nat>, t: State, vpn: nat, kind: Kind, o: nat,
      v: nat)
    requires c.Ok() && Whole(c, m) && SameButRoot(c, d) && Protected(c, m, tables) && Protected(d, m, tables)
    requires Flushed(t) && vpn < PAGES && o < PAGE && !kind.Store?
    requires Mapped(c, m, vpn, kind) && Mapped(d, m, vpn, kind)
    requires Translate(d, m, vpn, kind).page != Translate(c, m, vpn, kind).page
    requires QuietChange(m, Translate(c, m, vpn, kind).page + o, v)
    requires v != Get(Translate(d, Translate(c, m, vpn, kind).mem, vpn, kind).mem, Translate(d, m, vpn, kind).page + o)
    ensures Noticed(c, d, m, tables, t, m[Translate(c, m, vpn, kind).page + o := v], Twice(vpn, kind, o))
  {
    hide Translate, Protected, SwitchShows, Slow, QuietChange, SameTables;
    var tr := Translate(c, m, vpn, kind);
    var x: nat := tr.page + o;
    AfterTranslate(c, d, m, vpn, kind, vpn, kind);
    ProtectedAfterTranslate(c, d, m, vpn, kind, tables);
    OtherByte(c, m, x, v, vpn, kind, tables);
    OtherByte(d, tr.mem, x, v, vpn, kind, tables);
    TwicePlace(vpn, kind, o);
    PagesWhole(d, m, vpn, kind, Place(kind, o));
    QuietAlike(c, m, x, v, tables);
    OtherByteShows(c, d, m[x := v], t, vpn, kind, o);
  }

  lemma ElsewhereIsNoticed(c: Config, d: Config, m: Memory, tables: iset<nat>, t: State, vpn: nat, kind: Kind)
      returns (m1: Memory)
    requires c.Ok() && Whole(c, m) && SameButRoot(c, d) && Protected(c, m, tables) && Protected(d, m, tables)
    requires Flushed(t) && vpn < PAGES && !kind.Store?
    requires Mapped(c, m, vpn, kind) && Mapped(d, m, vpn, kind)
    requires Translate(d, m, vpn, kind).page != Translate(c, m, vpn, kind).page
    ensures Noticed(c, d, m, tables, t, m1, Twice(vpn, kind, QUIET))
  {
    hide Translate, Protected, Noticed, QuietChange, Twice;
    var p, q := Translate(c, m, vpn, kind).page, Translate(d, m, vpn, kind).page;
    var u := Get(Translate(d, Translate(c, m, vpn, kind).mem, vpn, kind).mem, q + QUIET);
    var v := QuietByte(c, m, vpn, kind, u);
    ElsewhereShows(c, d, m, tables, t, vpn, kind, QUIET, v);
    m1 := m[p + QUIET := v];
  }

  /** Where to access the page: a store stays outside the tables. */
  lemma Spot(c: Config, m: Memory, tables: iset<nat>, vpn: nat, kind: Kind) returns (o: nat)
    requires Touchable(c, m, vpn, kind, tables)
    ensures o < PAGE && (kind.Store? ==>
        var page := Translate(c, m, vpn, kind).page; page >= 0 && Free(page, o, tables))
  {
    hide Translate;
    o := QUIET;
    if kind.Store? {
      o :| Free(Translate(c, m, vpn, kind).page, o, tables);
    }
  }

  /** A store that is led elsewhere is led where a load is. */
  lemma LoadElsewhere(c: Config, d: Config, m: Memory, vpn: nat)
    requires SameButRoot(c, d) && Mapped(c, m, vpn, Store) && Mapped(d, m, vpn, Store)
    ensures Mapped(c, m, vpn, Load) && Mapped(d, m, vpn, Load)
    ensures Translate(c, m, vpn, Load).page == Translate(c, m, vpn, Store).page
    ensures Translate(d, m, vpn, Load).page == Translate(d, m, vpn, Store).page
  {
    StorePageIsLoadPage(c, m, vpn);
    StorePageIsLoadPage(d, m, vpn);
    hide Translate;
  }

  /** Where two roots do not agree on a page, some program notices. */
  lemma RootIsNoticed(c: Config, d: Config, m: Memory, tables: iset<nat>, t: State, vpn: nat, kind: Kind)
      returns (x: Access, m1: Memory)
    requires c.Ok() && Whole(c, m) && SameButRoot(c, d) && Protected(c, m, tables) && Protected(d, m, tables)
    requires Flushed(t) && vpn < PAGES && Touchable(c, m, vpn, kind, tables) && !SameFor(c, d, m, vpn, kind)
    ensures Noticed(c, d, m, tables, t, m1, x)
  {
    var o := Spot(c, m, tables, vpn, kind);
    TranslateOfWalk(c, m, vpn, kind);
    if Mapped(d, m, vpn, kind) {
      TranslateOfWalk(d, m, vpn, kind);
    }
    hide Protected, Noticed, Walk, Marked, Touchable, Mapped, Translate;
    if !Mapped(d, m, vpn, kind) {
      x, m1 := Twice(vpn, kind, o), m;
      MissingIsNoticed(c, d, m, tables, t, vpn, kind, o);
    } else if Translate(d, m, vpn, kind).page == Translate(c, m, vpn, kind).page {
      x, m1 := Twice(vpn, kind, o), m;
      UnsetIsNoticed(c, d, m, tables, t, vpn, kind, o);
    } else if kind.Store? {
      LoadElsewhere(c, d, m, vpn);
      x := Twice(vpn, Load, QUIET);
      m1 := ElsewhereIsNoticed(c, d, m, tables, t, vpn, Load);
    } else {
      x := Twice(vpn, kind, QUIET);
      m1 := ElsewhereIsNoticed(c, d, m, tables, t, vpn, kind);
    }
  }

  lemma TranslateOfWalk(c: Config, m: Memory, vpn: nat, kind: Kind)
    requires !c.Mode(kind).Machine? && Mapped(c, m, vpn, kind)
    ensures Walk(c, m, vpn, kind).Leaf? && Walk(c, m, vpn, kind).page == Translate(c, m, vpn, kind).page
  {
    hide Walk, Marked;
  }

  // ---- programs that write roots ----

  function Lead(l: seq<nat>): (ops: seq<Op>)
    ensures OkOps(ops) && |ops| == |l| && forall i :: 0 <= i < |l| ==> ops[i] == Root(l[i])
  {
    seq(|l|, i requires 0 <= i < |l| => Root(l[i]))
  }

  /** The settings after these roots were written. */
  function Last(c: Config, l: seq<nat>): Config { if l == [] then c else Rooted(c, l[|l| - 1]) }

  /** Roots that are written first. */
  lemma {:induction false} Leads(c: Config, m: Memory, t: State, l: seq<nat>, ops: seq<Op>, tables: iset<nat>)
    requires t.Shape() && OkOps(ops)
    ensures OkOps(Lead(l) + ops) && Written(Lead(l) + ops) == l + Written(ops)
    ensures FastRun(c, m, t, Lead(l) + ops) == FastRun(Last(c, l), m, t, ops)
    ensures SlowRun(c, m, Lead(l) + ops) == SlowRun(Last(c, l), m, ops)
    ensures AllAvoid(c, m, Lead(l) + ops, tables) <==> AllAvoid(Last(c, l), m, ops, tables)
    decreases |l|
  {
    hide Fast, Slow, Avoids;
    if l == [] {
      assert Lead(l) + ops == ops;
    } else {
      var all := Lead(l) + ops;
      assert all[0] == Root(l[0]) && all[1..] == Lead(l[1..]) + ops;
      assert [l[0]] + (l[1..] + Written(ops)) == l + Written(ops);
      Leads(Rooted(c, l[0]), m, t, l[1..], ops, tables);
    }
  }

  /** Roots that are written last. */
  lemma {:induction false} Trails(c: Config, m: Memory, t: State, ops: seq<Op>, l: seq<nat>, tables: iset<nat>)
    requires t.Shape() && OkOps(ops)
    ensures OkOps(ops + Lead(l)) && Written(ops + Lead(l)) == Written(ops) + l
    ensures FastRun(c, m, t, ops + Lead(l)) == FastRun(c, m, t, ops)
    ensures SlowRun(c, m, ops + Lead(l)) == SlowRun(c, m, ops)
    ensures AllAvoid(c, m, ops + Lead(l), tables) <==> AllAvoid(c, m, ops, tables)
    decreases |ops|
  {
    hide Fast, Slow, Avoids;
    if ops == [] {
      Leads(c, m, t, l, [], tables);
      assert ops + Lead(l) == Lead(l) + [] && l + Written([]) == Written(ops) + l;
    } else {
      var all := ops + Lead(l);
      assert all[0] == ops[0] && all[1..] == ops[1..] + Lead(l);
      match ops[0] {
        case Root(r) =>
          Trails(Rooted(c, r), m, t, ops[1..], l, tables);
          assert [r] + (Written(ops[1..]) + l) == ([r] + Written(ops[1..])) + l;
        case Touch(x) =>
          assert OkAccess(ops[0].x);
          Trails(c, Fast(c, m, t, x).0, Fast(c, m, t, x).1, ops[1..], l, tables);
          Trails(c, Slow(c, m, x).0, t, ops[1..], l, tables);
      }
    }
  }

  /** Two accesses with roots written in between. */
  function Across(x: Access, l: seq<nat>): seq<Op> { [Touch(x)] + (Lead(l) + [Touch(x)]) }

  lemma AcrossRun(c: Config, m: Memory, t: State, x: Access, l: seq<nat>, tables: iset<nat>)
    requires t.Shape() && OkAccess(x) && SwitchShows(c, Last(c, l), m, t, x)
    ensures OkOps(Across(x, l)) && Written(Across(x, l)) == l
    ensures FastRun(c, m, t, Across(x, l)) != SlowRun(c, m, Across(x, l))
    ensures Avoids(c, m, x, tables) && Avoids(Last(c, l), Slow(c, m, x).0, x, tables) ==>
      AllAvoid(c, m, Across(x, l), tables)
  {
    hide Fast, Slow, Avoids, Lead;
    var d := Last(c, l);
    var (n, t1, _) := Fast(c, m, t, x);
    Leads(c, n, t1, l, [Touch(x)], tables);
    RunsUnfold(c, m, t, x, Lead(l) + [Touch(x)]);
    RunsUnfold(d, n, t1, x, []);
    AvoidsFirst(c, m, x, Lead(l) + [Touch(x)], tables);
    AvoidsFirst(d, n, x, [], tables);
    assert [Touch(x)] + [] == [Touch(x)];
    WrittenTouch(x, Lead(l) + [Touch(x)]);
    WrittenTouch(x, []);
    RunsUnfold(d, Fast(d, n, t1, x).0, Fast(d, n, t1, x).1, x, []);
    RunsUnfold(d, Slow(d, n, x).0, t1, x, []);
    hide FastRun, SlowRun, AllAvoid, Written;
    var (m1, _, r1) := Fast(d, n, t1, x);
    var (m2, s1) := Slow(d, n, x);
    SecondDiffers(m1, Fast(c, m, t, x).2, r1, m2, Slow(c, m, x).1, s1);
  }

  lemma SecondDiffers(m1: Memory, r: Result, r1: Result, m2: Memory, s: Result, s1: Result)
    requires (m2, s1) != (m1, r1)
    ensures (m1, [r] + ([r1] + [])) != (m2, [s] + ([s1] + []))
  {
    assert ([r] + ([r1] + []))[1] == r1 && ([s] + ([s1] + []))[1] == s1;
  }

  lemma WrittenTouch(x: Access, ops: seq<Op>)
    ensures Written([Touch(x)] + ops) == Written(ops)
  {
    assert ([Touch(x)] + ops)[1..] == ops;
    assert [] + Written(ops) == Written(ops);
  }

  // ---- the main result ----

  /** All roots: the present one, and those that are written later. */
  function AllRoots(c: Config, later: seq<nat>): seq<nat> { [c.sptbr] + later }

  lemma ProbeFails(c: Config, m: Memory, later: seq<nat>, tables: iset<nat>, i: nat)
    requires c.Ok() && Whole(c, m) && i <= |later| && AllProtected(c, m, AllRoots(c, later), tables)
    requires !PagesAgree(Rooted(c, AllRoots(c, later)[i]), m)
    ensures !Invisible(c, m, later, tables)
  {
    hide Translate, FastRun, SlowRun, Protected, AllAvoid, PagesAgree, Whole;
    var d := Rooted(c, AllRoots(c, later)[i]);
    var l0, l1 := later[..i], later[i..];
    assert Last(c, l0) == d;
    SameWhole(c, d, m);
    FetchAndLoadDisagree(d, m);
    var vpn: nat :| vpn < PAGES && !AgreeOn(d, m, vpn, Fetch, Load);
    var t := EmptyTlb();
    var m1 := DisagreementShows(d, m, tables, t, vpn);
    ProbeAvoids(d, m1, tables, vpn, QUIET);
    ProbeWrites(vpn, QUIET);
    assert l0 + ([] + l1) == later;
    FailsBetween(c, m, later, tables, m1, t, l0, Probe(vpn, QUIET), l1);
  }

  lemma SameWhole(c: Config, d: Config, m: Memory)
    requires SameButRoot(c, d)
    ensures Whole(c, m) <==> Whole(d, m)
  {
  }

  /** A program that notices does so whatever roots are written before and after it. */
  lemma FailsBetween(c: Config, m: Memory, later: seq<nat>, tables: iset<nat>, m1: Memory, t: State, l0: seq<nat>,
      ops: seq<Op>, l1: seq<nat>)
    requires Variant(Last(c, l0), m, m1, tables) && Flushed(t) && OkOps(ops) && l0 + (Written(ops) + l1) == later
    requires AllAvoid(Last(c, l0), m1, ops, tables)
    requires FastRun(Last(c, l0), m1, t, ops) != SlowRun(Last(c, l0), m1, ops)
    ensures !Invisible(c, m, later, tables)
  {
    SameWhole(c, Last(c, l0), m1);
    hide FastRun, SlowRun, AllAvoid, Whole, Lead;
    Leads(c, m1, t, l0, ops + Lead(l1), tables);
    Trails(Last(c, l0), m1, t, ops, l1, tables);
    assert !Unnoticed(c, m, later, tables, m1, t, Lead(l0) + (ops + Lead(l1)));
  }

  lemma ProbeWrites(vpn: nat, o: nat)
    requires vpn < PAGES && o < PAGE
    ensures Written(Probe(vpn, o)) == []
  {
    var x, y := LoadOf(vpn, o), FetchOf(vpn);
    WrittenTouch(x, [Touch(y), Touch(x)]);
    WrittenTouch(y, [Touch(x)]);
    WrittenTouch(x, []);
    assert [Touch(x)] + [Touch(y), Touch(x)] == Probe(vpn, o);
    assert [Touch(y)] + [Touch(x)] == [Touch(y), Touch(x)] && [Touch(x)] + [] == [Touch(x)];
  }

  lemma SwitchFails(c: Config, m: Memory, later: seq<nat>, tables: iset<nat>, i: nat, j: nat)
    requires c.Ok() && Whole(c, m) && i < j <= |later| && AllProtected(c, m, AllRoots(c, later), tables)
    requires var rs := AllRoots(c, later); !RootsAgree(Rooted(c, rs[i]), Rooted(c, rs[j]), m, tables)
    ensures !Invisible(c, m, later, tables)
  {
    hide RootsAgree, FastRun, SlowRun, AllProtected, Protected, AllAvoid, Whole, Variant, Invisible,
      Across, Written, OkOps;
    var l0, l1, l2 := later[..i], later[i..j], later[j..];
    Between(c, later, i, j);
    ProtectedAt(c, m, AllRoots(c, later), tables, i);
    ProtectedAt(c, m, AllRoots(c, later), tables, j);
    var d := Last(c, l0);
    SameWhole(c, d, m);
    var t := EmptyTlb();
    var x, m1 := SwitchIsSeen(d, m, tables, t, l1);
    FailsBetween(c, m, later, tables, m1, t, l0, Across(x, l1), l2);
  }

  lemma ProtectedAt(c: Config, m: Memory, rs: seq<nat>, tables: iset<nat>, i: nat)
    requires AllProtected(c, m, rs, tables) && i < |rs|
    ensures Protected(Rooted(c, rs[i]), m, tables)
  {
  }

  lemma Between(c: Config, later: seq<nat>, i: nat, j: nat)
    requires i < j <= |later|
    ensures later[..i] + (later[i..j] + later[j..]) == later
    ensures Last(c, later[..i]) == Rooted(c, AllRoots(c, later)[i])
    ensures Last(Last(c, later[..i]), later[i..j]) == Rooted(c, AllRoots(c, later)[j])
    ensures SameButRoot(c, Last(c, later[..i]))
  {
  }

  lemma SwitchIsSeen(c: Config, m: Memory, tables: iset<nat>, t: State, l: seq<nat>) returns (x: Access, m1: Memory)
    requires c.Ok() && Whole(c, m) && Protected(c, m, tables) && Protected(Last(c, l), m, tables)
    requires Flushed(t) && !RootsAgree(c, Last(c, l), m, tables)
    ensures Variant(c, m, m1, tables) && OkOps(Across(x, l)) && Written(Across(x, l)) == l
    ensures AllAvoid(c, m1, Across(x, l), tables) && FastRun(c, m1, t, Across(x, l)) != SlowRun(c, m1, Across(x, l))
  {
    var d := Last(c, l);
    var vpn: nat, kind: Kind :| vpn < PAGES && Touchable(c, m, vpn, kind, tables) && !SameFor(c, d, m, vpn, kind);
    hide SameFor, Touchable, FastRun, SlowRun, Protected, AllAvoid, SwitchShows, Avoids, Slow, Lead, Across;
    x, m1 := RootIsNoticed(c, d, m, tables, t, vpn, kind);
    AcrossRun(c, m1, t, x, l, tables);
  }

  lemma OtherMemory(c: Config, m: Memory, m1: Memory, rs: seq<nat>, tables: iset<nat>)
    requires Whole(c, m) && AllProtected(c, m, rs, tables) && Variant(c, m, m1, tables) && Agreeing(c, m, rs, tables)
    ensures AllProtected(c, m1, rs, tables) && Agreeing(c, m1, rs, tables)
  {
    hide Translate, Protected, PagesAgree, RootsAgree;
    forall i | 0 <= i < |rs|
      ensures Protected(Rooted(c, rs[i]), m1, tables) && PagesAgree(Rooted(c, rs[i]), m1)
    {
      var d := Rooted(c, rs[i]);
      ProtectedAfterWrite(d, m, m1, tables);
      forall v: nat, k: Kind ensures Translate(d, m1, v, k).page == Translate(d, m, v, k).page {
        TranslateAgrees(d, m, m1, v, k, tables);
      }
      StillAgree(d, m, m1);
    }
    forall i, j | 0 <= i < j < |rs| ensures RootsAgree(Rooted(c, rs[i]), Rooted(c, rs[j]), m1, tables) {
      RootsAgreeAfterWrite(Rooted(c, rs[i]), Rooted(c, rs[j]), m, m1, tables);
    }
  }

  lemma AgreeingIsInvisible(c: Config, m: Memory, later: seq<nat>, tables: iset<nat>)
    requires c.Ok() && Whole(c, m) && AllProtected(c, m, AllRoots(c, later), tables)
    requires Agreeing(c, m, AllRoots(c, later), tables)
    ensures Invisible(c, m, later, tables)
  {
    hide FastRun, SlowRun, AllAvoid, Agreeing, AllProtected;
    forall m1: Memory, t: State, ops: seq<Op> ensures Unnoticed(c, m, later, tables, m1, t, ops) {
      if Variant(c, m, m1, tables) && Flushed(t) && OkOps(ops) && Written(ops) == later &&
         AllAvoid(c, m1, ops, tables)
      {
        OtherMemory(c, m, m1, AllRoots(c, later), tables);
        TlbIsInvisible(c, m1, t, ops, tables);
      }
    }
  }

  /**
   Between two flushes, the TLB goes unnoticed by every program that writes these roots if and only if under
   each root the kinds of access agree on the pages, and every page that may be accessed under one of the roots
   is mapped alike under all that are written after it.
  */
  lemma InvisibleExactly(c: Config, m: Memory, later: seq<nat>, tables: iset<nat>)
    requires c.Ok() && Whole(c, m) && AllProtected(c, m, AllRoots(c, later), tables)
    ensures Invisible(c, m, later, tables) <==> Agreeing(c, m, AllRoots(c, later), tables)
  {
    hide PagesAgree, RootsAgree, Invisible, AllProtected, Whole;
    var rs := AllRoots(c, later);
    if Agreeing(c, m, rs, tables) {
      AgreeingIsInvisible(c, m, later, tables);
    } else if i: nat :| i < |rs| && !PagesAgree(Rooted(c, rs[i]), m) {
      ProbeFails(c, m, later, tables, i);
    } else {
      var i: nat, j: nat :| i < j < |rs| && !RootsAgree(Rooted(c, rs[i]), Rooted(c, rs[j]), m, tables);
      SwitchFails(c, m, later, tables, i, j);
    }
  }

  function EmptyTlb(): (t: State)
    ensures Flushed(t)
  {
    var tags := seq(TLB_ENTRIES, i => NO_TAG);
    State(tags, tags, tags, seq(TLB_ENTRIES, i => 0))
  }
}
