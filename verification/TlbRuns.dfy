/** Runs with the TLB and runs without it: the same results and the same memory. */
module TlbRuns {
  import opened Words
  import opened Arith
  import opened Tlb
  import opened TlbAgrees
  import opened TlbRoots

  /** A valid tag: the page is mapped, its bits are set already, and the offset leads to it. */
  ghost predicate EntryOk(c: Config, m: Memory, t: State, i: nat, kind: Kind)
    requires t.Shape() && i < TLB_ENTRIES
  {
    var v := t.Tag(kind, i);
    v != NO_TAG ==>
      && v % TLB_ENTRIES == i
      && var tr := Translate(c, m, v, kind);
         tr.mem == m && tr.page >= 0 && c.IsMem(tr.page) && t.offset[i] == tr.page - v * PAGE
  }

  /** Valid tags in one place are tags of one page. */
  predicate OnePage(t: State, i: nat)
    requires t.Shape() && i < TLB_ENTRIES
  {
    forall k1: Kind, k2: Kind :: t.Tag(k1, i) != NO_TAG && t.Tag(k2, i) != NO_TAG ==> t.Tag(k1, i) == t.Tag(k2, i)
  }

  ghost predicate Inv(c: Config, m: Memory, t: State) {
    && t.Shape() && Whole(c, m)
    && (forall i :: 0 <= i < TLB_ENTRIES ==> OnePage(t, i))
    && (forall i, kind: Kind :: 0 <= i < TLB_ENTRIES ==> EntryOk(c, m, t, i, kind))
  }

  /** A flush establishes the invariant, whatever has changed. */
  lemma FlushedInv(c: Config, m: Memory, t: State)
    requires Flushed(t) && Whole(c, m)
    ensures Inv(c, m, t)
  {
  }

  // ---- how the entries survive changes of memory ----

  lemma EntriesAfterTranslate(c: Config, d: Config, m: Memory, t: State, vpn: nat, kind: Kind)
    requires c.Ok() && SameButRoot(c, d) && Inv(d, m, t)
    ensures Inv(d, Translate(c, m, vpn, kind).mem, t)
  {
    var m1 := Translate(c, m, vpn, kind).mem;
    AfterTranslate(c, d, m, vpn, kind, vpn, kind);
    hide Translate;
    forall i, k: Kind | 0 <= i < TLB_ENTRIES ensures EntryOk(d, m1, t, i, k) {
      assert EntryOk(d, m, t, i, k);
      AfterTranslate(c, d, m, vpn, kind, t.Tag(k, i), k);
    }
  }

  lemma EntriesAfterWrite(c: Config, m: Memory, m1: Memory, t: State, tables: iset<nat>)
    requires Inv(c, m, t) && Protected(c, m, tables) && Whole(c, m1) && SameTables(c, m, m1, tables)
    ensures Inv(c, m1, t)
  {
    hide Translate, Protected, SameTables;
    forall i, k: Kind | 0 <= i < TLB_ENTRIES ensures EntryOk(c, m1, t, i, k) {
      assert EntryOk(c, m, t, i, k);
      TranslateAgrees(c, m, m1, t.Tag(k, i), k, tables);
    }
  }

  /** Two kinds of access agree on a page: if it is there for both of them, it is the same. */
  predicate AgreeOn(c: Config, m: Memory, vpn: nat, k1: Kind, k2: Kind) {
    Mapped(c, m, vpn, k1) && Mapped(c, m, vpn, k2) ==> Translate(c, m, vpn, k1).page == Translate(c, m, vpn, k2).page
  }

  /** The kinds of access, which share one offset for a page, agree on every page. */
  ghost predicate PagesAgree(c: Config, m: Memory) {
    forall vpn: nat, k1: Kind, k2: Kind :: vpn < PAGES ==> AgreeOn(c, m, vpn, k1, k2)
  }

  /** Memory with the same translations. */
  lemma StillAgree(c: Config, m: Memory, m1: Memory)
    requires PagesAgree(c, m)
    requires forall vpn: nat, k: Kind :: Translate(c, m1, vpn, k).page == Translate(c, m, vpn, k).page
    ensures PagesAgree(c, m1)
  {
    hide Translate;
    forall vpn: nat, k1: Kind, k2: Kind | vpn < PAGES ensures AgreeOn(c, m1, vpn, k1, k2) {
      assert AgreeOn(c, m, vpn, k1, k2);
    }
  }

  /** Refilling adds a good entry and keeps the others good. */
  lemma RefillKeeps(c: Config, m: Memory, t: State, addr: nat, kind: Kind)
    requires c.Ok() && PagesAgree(c, m) && Inv(c, m, t) && addr < W64
    requires var tr := Translate(c, m, addr / PAGE, kind); tr.mem == m && tr.page >= 0 && c.IsMem(tr.page)
    ensures Inv(c, m, Refill(t, addr, Physical(Translate(c, m, addr / PAGE, kind).page, addr), kind))
  {
    hide Translate;
    var vpn, page := addr / PAGE, Translate(c, m, addr / PAGE, kind).page;
    var t1 := Refill(t, addr, Physical(page, addr), kind);
    forall i, k: Kind | 0 <= i < TLB_ENTRIES ensures EntryOk(c, m, t1, i, k) {
      assert EntryOk(c, m, t, i, k);
      RefilledTag(t, addr, Physical(page, addr), kind, i, k);
      if i == vpn % TLB_ENTRIES && t1.Tag(k, i) != NO_TAG && k != kind {
        assert AgreeOn(c, m, vpn, kind, k);
      }
    }
    forall i | 0 <= i < TLB_ENTRIES ensures OnePage(t1, i) {
      assert OnePage(t, i);
      forall k: Kind ensures i == vpn % TLB_ENTRIES && t1.Tag(k, i) != NO_TAG ==> t1.Tag(k, i) == vpn
        ensures i != vpn % TLB_ENTRIES ==> t1.Tag(k, i) == t.Tag(k, i)
      {
        RefilledTag(t, addr, Physical(page, addr), kind, i, k);
      }
    }
  }

  lemma RefilledTag(t: State, addr: nat, paddr: nat, kind: Kind, i: nat, k: Kind)
    requires t.Shape() && i < TLB_ENTRIES
    ensures var vpn := addr / PAGE; var t1 := Refill(t, addr, paddr, kind);
      && (i != vpn % TLB_ENTRIES ==> t1.Tag(k, i) == t.Tag(k, i) && t1.offset[i] == t.offset[i])
      && (i == vpn % TLB_ENTRIES ==>
           && t1.offset[i] == paddr - addr
           && (k == kind ==> t1.Tag(k, i) == vpn)
           && (k != kind ==> t1.Tag(k, i) == if t.Tag(k, i) == vpn then vpn else NO_TAG))
  {
  }

  /** Refilling what is there already changes nothing. */
  lemma RefillAgain(c: Config, m: Memory, t: State, x: Access)
    requires c.Ok() && Inv(c, m, t) && OkAccess(x) && Hit(t, x)
    ensures var tr := Translate(c, m, x.addr / PAGE, x.kind);
      && tr.mem == m && tr.page >= 0 && c.IsMem(Physical(tr.page, x.addr))
      && t.offset[x.addr / PAGE % TLB_ENTRIES] + x.addr == Physical(tr.page, x.addr)
      && Refill(t, x.addr, Physical(tr.page, x.addr), x.kind) == t
  {
    hide Translate;
    var vpn := x.addr / PAGE;
    var i := vpn % TLB_ENTRIES;
    var tr := Translate(c, m, vpn, x.kind);
    assert vpn != NO_TAG && EntryOk(c, m, t, i, x.kind) && OnePage(t, i);
    TranslatedPage(c, m, vpn, x.kind);
    WholePage(c, tr.page, x.addr);
    var t1 := Refill(t, x.addr, Physical(tr.page, x.addr), x.kind);
    forall k: Kind ensures t1.Tag(k, i) == t.Tag(k, i) {
      RefilledTag(t, x.addr, Physical(tr.page, x.addr), x.kind, i, k);
    }
    assert t1.Tag(Fetch, i) == t.Tag(Fetch, i) && t1.Tag(Load, i) == t.Tag(Load, i) &&
      t1.Tag(Store, i) == t.Tag(Store, i);
  }

  // ---- one access ----

  /** A store leaves the protected page tables alone. */
  ghost predicate Avoids(c: Config, m: Memory, x: Access, tables: iset<nat>) {
    x.kind.Store? ==>
      var p := Physical(Translate(c, m, x.addr / PAGE, x.kind).page, x.addr);
      c.IsMem(p) ==> forall a: nat :: p <= a < p + x.len ==> a !in tables
  }

  /** A hit and the slow path do the same: same result, same memory, same TLB. */
  lemma HitIsSlow(c: Config, m: Memory, t: State, x: Access)
    requires c.Ok() && Inv(c, m, t) && OkAccess(x) && Hit(t, x)
    ensures Fast(c, m, t, x).0 == Slow(c, m, x).0 && Fast(c, m, t, x).2 == Slow(c, m, x).1
    ensures Fast(c, m, t, x).1 == t
  {
    RefillAgain(c, m, t, x);
    hide Translate;
  }

  lemma FastIsSlow(c: Config, m: Memory, t: State, x: Access)
    requires c.Ok() && Inv(c, m, t) && OkAccess(x)
    ensures Fast(c, m, t, x).0 == Slow(c, m, x).0 && Fast(c, m, t, x).2 == Slow(c, m, x).1
  {
    if Hit(t, x) {
      HitIsSlow(c, m, t, x);
    }
  }

  lemma PerformWhole(c: Config, m: Memory, x: Access, p: nat, tables: iset<nat>)
    requires Whole(c, m)
    requires x.kind.Store? && c.IsMem(p) ==> |x.bytes| == x.len && forall a: nat :: p <= a < p + x.len ==> a !in tables
    ensures Whole(c, Perform(c, m, x, p).0)
    ensures SameTables(c, m, Perform(c, m, x, p).0, tables)
  {
  }

  /**
   An access under the settings c keeps the invariant for settings d with another root, if the pages that it
   may cache are good for d too.
  */
  lemma FastKeeps(c: Config, d: Config, m: Memory, t: State, x: Access, tables: iset<nat>)
    requires c.Ok() && SameButRoot(c, d) && PagesAgree(d, m) && Inv(c, m, t) && Inv(d, m, t) && OkAccess(x)
    requires Protected(c, m, tables) && Protected(d, m, tables) && RootsAgree(c, d, m, tables) &&
      Avoids(c, m, x, tables)
    ensures var (m1, t1, _) := Fast(c, m, t, x); Inv(d, m1, t1) && Protected(d, m1, tables) && PagesAgree(d, m1)
  {
    var vpn := x.addr / PAGE;
    var tr := Translate(c, m, vpn, x.kind);
    var p := Physical(tr.page, x.addr);
    var m2 := Perform(c, tr.mem, x, p).0;
    AccessedMemory(c, d, m, x, tables);
    EntriesAfterTranslate(c, d, m, t, vpn, x.kind);
    ProtectedAfterTranslate(c, d, m, vpn, x.kind, tables);
    TranslatedPage(c, m, vpn, x.kind);
    UnmappedIsNoMemory(c);
    hide Translate, Inv, Protected, Refill, EntryOk, PagesAgree, Avoids, RootsAgree, Mapped;
    InvWhole(d, tr.mem, t);
    EntriesAfterWrite(d, tr.mem, m2, t, tables);
    ProtectedAfterWrite(d, tr.mem, m2, tables);
    StillAgree(d, m, m2);
    InvWhole(c, m, t);
    if Hit(t, x) {
      HitIsSlow(c, m, t, x);
    } else if c.IsMem(p) {
      WholePage(c, tr.page, x.addr);
      SeenByOther(c, d, m, m2, x, tables);
      RefillKeeps(d, m2, t, x.addr, x.kind);
    }
  }

  /** Memory after an access that was not cached: the tables are the same, and all translations. */
  lemma AccessedMemory(c: Config, d: Config, m: Memory, x: Access, tables: iset<nat>)
    requires c.Ok() && SameButRoot(c, d) && Whole(c, m) && OkAccess(x)
    requires Protected(d, m, tables) && Avoids(c, m, x, tables)
    ensures var tr := Translate(c, m, x.addr / PAGE, x.kind);
      var m2 := Perform(c, tr.mem, x, Physical(tr.page, x.addr)).0;
      && Whole(d, tr.mem) && Whole(d, m2)
      && SameTables(d, tr.mem, m2, tables)
      && forall v: nat, k: Kind :: Translate(d, m2, v, k).page == Translate(d, m, v, k).page
  {
    var vpn := x.addr / PAGE;
    var tr := Translate(c, m, vpn, x.kind);
    var p := Physical(tr.page, x.addr);
    var m2 := Perform(c, tr.mem, x, p).0;
    AfterTranslate(c, d, m, vpn, x.kind, vpn, x.kind);
    ProtectedAfterTranslate(c, d, m, vpn, x.kind, tables);
    PerformWhole(c, tr.mem, x, p, tables);
    hide Translate, Protected, Perform;
    forall v: nat, k: Kind ensures Translate(d, m2, v, k).page == Translate(d, m, v, k).page {
      AfterTranslate(c, d, m, vpn, x.kind, v, k);
      TranslateAgrees(d, tr.mem, m2, v, k, tables);
    }
  }

  lemma AvoidsTouchable(c: Config, m: Memory, x: Access, tables: iset<nat>)
    requires c.Ok() && OkAccess(x) && Avoids(c, m, x, tables) && Mapped(c, m, x.addr / PAGE, x.kind)
    ensures Touchable(c, m, x.addr / PAGE, x.kind, tables)
  {
    TranslatedPage(c, m, x.addr / PAGE, x.kind);
    hide Translate;
    var page := Translate(c, m, x.addr / PAGE, x.kind).page;
    WholePage(c, page, x.addr);
    if x.kind.Store? {
      assert Free(page, x.addr % PAGE, tables);
    }
  }

  /** The page that an access has gone to is there for the other root, with its bits set. */
  lemma SeenByOther(c: Config, d: Config, m: Memory, m2: Memory, x: Access, tables: iset<nat>)
    requires c.Ok() && SameButRoot(c, d) && Whole(c, m) && x.addr < W64 && RootsAgree(c, d, m, tables)
    requires Mapped(c, m, x.addr / PAGE, x.kind) && Whole(d, m2) && OkAccess(x) && Avoids(c, m, x, tables)
    requires var tr := Translate(c, m, x.addr / PAGE, x.kind);
      Protected(d, tr.mem, tables) && Whole(d, tr.mem) && SameTables(d, tr.mem, m2, tables)
    ensures Translate(d, m2, x.addr / PAGE, x.kind) ==
      Translation(m2, Translate(c, m, x.addr / PAGE, x.kind).page)
  {
    var vpn := x.addr / PAGE;
    hide Translate, Protected, Mapped, SameFor;
    AvoidsTouchable(c, m, x, tables);
    assert SameFor(c, d, m, vpn, x.kind);
    TranslatedAlike(c, d, m, vpn, x.kind);
    TranslateAgrees(d, Translate(c, m, vpn, x.kind).mem, m2, vpn, x.kind, tables);
  }

  /** Whatever the access, two roots that agree go on agreeing. */
  lemma RootsKeepAgreeing(e: Config, c: Config, d: Config, m: Memory, t: State, x: Access, tables: iset<nat>)
    requires e.Ok() && SameButRoot(e, c) && SameButRoot(c, d) && RootsAgree(c, d, m, tables) &&
      Inv(e, m, t) && OkAccess(x)
    requires Protected(c, m, tables) && Protected(d, m, tables) && Avoids(e, m, x, tables)
    ensures RootsAgree(c, d, Fast(e, m, t, x).0, tables)
  {
    var vpn := x.addr / PAGE;
    var tr := Translate(e, m, vpn, x.kind);
    var p := Physical(tr.page, x.addr);
    RootsAgreeAfterTranslate(e, c, d, m, vpn, x.kind, tables);
    ProtectedAfterTranslate(e, c, m, vpn, x.kind, tables);
    ProtectedAfterTranslate(e, d, m, vpn, x.kind, tables);
    AfterTranslate(e, e, m, vpn, x.kind, vpn, x.kind);
    PerformWhole(e, tr.mem, x, p, tables);
    FastIsSlow(e, m, t, x);
    hide Translate, Inv, Protected, RootsAgree, Fast, Avoids;
    RootsAgreeAfterWrite(c, d, tr.mem, Perform(e, tr.mem, x, p).0, tables);
  }

  lemma InvWhole(c: Config, m: Memory, t: State)
    requires Inv(c, m, t)
    ensures Whole(c, m) && t.Shape()
  {
  }

  // ---- runs between two flushes ----

  /** What a program does between two flushes: it accesses memory, and writes the root of the page tables. */
  datatype Op = Touch(x: Access) | Root(sptbr: nat)

  predicate OkOps(ops: seq<Op>) { forall i :: 0 <= i < |ops| && ops[i].Touch? ==> OkAccess(ops[i].x) }

  function Rooted(c: Config, sptbr: nat): Config { c.(sptbr := sptbr) }

  function FastRun(c: Config, m: Memory, t: State, ops: seq<Op>): (Memory, seq<Result>)
    requires t.Shape() && OkOps(ops)
    decreases |ops|
  {
    if ops == [] then (m, [])
    else
      match ops[0]
      case Root(r) => FastRun(Rooted(c, r), m, t, ops[1..])
      case Touch(x) =>
        var (m1, t1, r) := Fast(c, m, t, x);
        var (m2, rs) := FastRun(c, m1, t1, ops[1..]);
        (m2, [r] + rs)
  }

  function SlowRun(c: Config, m: Memory, ops: seq<Op>): (Memory, seq<Result>)
    requires OkOps(ops)
    decreases |ops|
  {
    if ops == [] then (m, [])
    else
      match ops[0]
      case Root(r) => SlowRun(Rooted(c, r), m, ops[1..])
      case Touch(x) =>
        var (m1, r) := Slow(c, m, x);
        var (m2, rs) := SlowRun(c, m1, ops[1..]);
        (m2, [r] + rs)
  }

  /** No store of the run writes to the protected page tables. */
  ghost predicate AllAvoid(c: Config, m: Memory, ops: seq<Op>, tables: iset<nat>)
    requires OkOps(ops)
    decreases |ops|
  {
    ops == [] ||
    match ops[0]
    case Root(r) => AllAvoid(Rooted(c, r), m, ops[1..], tables)
    case Touch(x) => Avoids(c, m, x, tables) && AllAvoid(c, Slow(c, m, x).0, ops[1..], tables)
  }

  /** The roots that are written, in their order. */
  function Written(ops: seq<Op>): seq<nat> {
    if ops == [] then [] else (if ops[0].Root? then [ops[0].sptbr] else []) + Written(ops[1..])
  }

  /** All roots of a run that starts under c. */
  function Roots(c: Config, ops: seq<Op>): seq<nat> { [c.sptbr] + Written(ops) }

  /**
   The condition: under each root the kinds of access agree on the pages, and every page that may be accessed
   under a root is mapped alike under the roots that are written later.
  */
  ghost predicate Agreeing(c: Config, m: Memory, rs: seq<nat>, tables: iset<nat>) {
    && (forall i :: 0 <= i < |rs| ==> PagesAgree(Rooted(c, rs[i]), m))
    && forall i, j :: 0 <= i < j < |rs| ==> RootsAgree(Rooted(c, rs[i]), Rooted(c, rs[j]), m, tables)
  }

  ghost predicate AllProtected(c: Config, m: Memory, rs: seq<nat>, tables: iset<nat>) {
    forall i :: 0 <= i < |rs| ==> Protected(Rooted(c, rs[i]), m, tables)
  }

  /** The cached pages are good for the roots to come. */
  ghost predicate GoodFor(c: Config, m: Memory, t: State, rs: seq<nat>) {
    forall i :: 0 <= i < |rs| ==> Inv(Rooted(c, rs[i]), m, t)
  }

  lemma AgreesWithItself(c: Config, m: Memory, tables: iset<nat>)
    ensures RootsAgree(c, c, m, tables)
  {
    hide Walk, Marked;
  }

  lemma TouchKeeps(c: Config, m: Memory, t: State, x: Access, rs: seq<nat>, tables: iset<nat>)
    requires c.Ok() && |rs| > 0 && rs[0] == c.sptbr && OkAccess(x) && t.Shape() && Avoids(c, m, x, tables)
    requires Agreeing(c, m, rs, tables) && AllProtected(c, m, rs, tables) && GoodFor(c, m, t, rs)
    ensures var (m1, t1, _) := Fast(c, m, t, x);
      Agreeing(c, m1, rs, tables) && AllProtected(c, m1, rs, tables) && GoodFor(c, m1, t1, rs)
  {
    hide Inv, Protected, Fast, PagesAgree, RootsAgree, Avoids;
    assert Rooted(c, rs[0]) == c;
    AgreesWithItself(c, m, tables);
    forall i | 0 <= i < |rs|
      ensures var (m1, t1, _) := Fast(c, m, t, x); var d := Rooted(c, rs[i]);
        Inv(d, m1, t1) && Protected(d, m1, tables) && PagesAgree(d, m1)
    {
      FastKeeps(c, Rooted(c, rs[i]), m, t, x, tables);
    }
    forall i, j | 0 <= i < j < |rs|
      ensures RootsAgree(Rooted(c, rs[i]), Rooted(c, rs[j]), Fast(c, m, t, x).0, tables)
    {
      RootsKeepAgreeing(c, Rooted(c, rs[i]), Rooted(c, rs[j]), m, t, x, tables);
    }
  }

  /** After a root is written, the rest of the roots is left. */
  lemma RootTaken(c: Config, m: Memory, t: State, r: nat, rs: seq<nat>, rest: seq<nat>, tables: iset<nat>)
    requires rs == [c.sptbr, r] + rest
    requires Agreeing(c, m, rs, tables) && AllProtected(c, m, rs, tables) && GoodFor(c, m, t, rs)
    ensures var d := Rooted(c, r); var rs1 := [r] + rest;
      Agreeing(d, m, rs1, tables) && AllProtected(d, m, rs1, tables) && GoodFor(d, m, t, rs1)
  {
    hide Inv, Protected, PagesAgree, RootsAgree;
    var d := Rooted(c, r);
    var rs1 := [r] + rest;
    assert forall i :: 0 <= i < |rs1| ==> rs1[i] == rs[i + 1] && Rooted(d, rs1[i]) == Rooted(c, rs[i + 1]);
  }

  lemma {:induction false} RunsAgree(c: Config, m: Memory, t: State, ops: seq<Op>, tables: iset<nat>)
    requires c.Ok() && OkOps(ops) && t.Shape() && AllAvoid(c, m, ops, tables)
    requires var rs := Roots(c, ops);
      Agreeing(c, m, rs, tables) && AllProtected(c, m, rs, tables) && GoodFor(c, m, t, rs)
    ensures FastRun(c, m, t, ops) == SlowRun(c, m, ops)
    decreases |ops|
  {
    hide Inv, Protected, Fast, Slow, Avoids, Agreeing, AllProtected;
    if ops != [] {
      var rs := Roots(c, ops);
      match ops[0] {
        case Touch(x) =>
          assert OkAccess(ops[0].x);
          assert Inv(Rooted(c, rs[0]), m, t) && Rooted(c, rs[0]) == c;
          assert Roots(c, ops[1..]) == rs;
          FastIsSlow(c, m, t, x);
          TouchKeeps(c, m, t, x, rs, tables);
          RunsAgree(c, Fast(c, m, t, x).0, Fast(c, m, t, x).1, ops[1..], tables);
        case Root(r) =>
          assert rs == [c.sptbr, r] + Written(ops[1..]);
          RootTaken(c, m, t, r, rs, Written(ops[1..]), tables);
          RunsAgree(Rooted(c, r), m, t, ops[1..], tables);
      }
    }
  }

  /**
   From a flush on, the TLB changes no result and no memory, as long as the kinds of access agree on the
   pages, the roots that are written agree with the ones before, and the program does not write to the page
   tables in use.
  */
  lemma TlbIsInvisible(c: Config, m: Memory, t: State, ops: seq<Op>, tables: iset<nat>)
    requires c.Ok() && Flushed(t) && Whole(c, m) && OkOps(ops)
    requires Agreeing(c, m, Roots(c, ops), tables) && AllProtected(c, m, Roots(c, ops), tables) &&
      AllAvoid(c, m, ops, tables)
    ensures FastRun(c, m, t, ops) == SlowRun(c, m, ops)
  {
    var rs := Roots(c, ops);
    forall i | 0 <= i < |rs| ensures Inv(Rooted(c, rs[i]), m, t) {
      FlushedInv(Rooted(c, rs[i]), m, t);
    }
    hide Inv, Agreeing, AllProtected, AllAvoid, FastRun, SlowRun;
    RunsAgree(c, m, t, ops, tables);
  }

  // ---- when the kinds of access agree ----

  /** Fetches and data accesses that are both translated, or both not, agree on every page. */
  lemma AgreeByMode(c: Config, m: Memory)
    requires c.Mode(Fetch).Machine? <==> c.Mode(Load).Machine?
    ensures PagesAgree(c, m)
  {
    forall vpn: nat, k1: Kind, k2: Kind | vpn < PAGES ensures AgreeOn(c, m, vpn, k1, k2) {
      if Mapped(c, m, vpn, k1) && Mapped(c, m, vpn, k2) {
        SamePage(c, m, vpn, k1, k2);
      }
    }
  }

  lemma SamePage(c: Config, m: Memory, vpn: nat, k1: Kind, k2: Kind)
    requires c.Mode(k1).Machine? <==> c.Mode(k2).Machine?
    requires Translate(c, m, vpn, k1).page >= 0 && Translate(c, m, vpn, k2).page >= 0
    ensures Translate(c, m, vpn, k1).page == Translate(c, m, vpn, k2).page
  {
    if !c.scheme.Bare? {
      SameLeaf(c, m, vpn, k1, k2, U64(c.sptbr * PAGE), c.scheme.Levels() - 1);
    }
  }
}
