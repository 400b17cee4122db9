/** Every access through the TLB does what the slow path does, in result and in memory. */
module TlbAgrees {
  import opened Words
  import opened Arith
  import opened Tlb

  // ---- marking ----

  /** Setting accessed and dirty bits changes no other flag, and doing it again changes nothing. */
  lemma MarkedFlags(f: nat, k: Kind, k1: Kind)
    ensures SameFlags(f, Marked(f, k))
    ensures var g := Marked(f, k); Marked(g, k) == g && (Marked(f, k1) == f ==> Marked(g, k1) == g)
  {
    AccessedBit(f);
    var f1 := if A(f) then f else f + 64;
    DirtyBit(f1);
    hide V, R, W, X, U, A, D;
  }

  predicate SameFlags(f: nat, g: nat) {
    (V(g) <==> V(f)) && (R(g) <==> R(f)) && (W(g) <==> W(f)) && (X(g) <==> X(f)) && (U(g) <==> U(f))
  }

  lemma AccessedBit(f: nat)
    ensures !A(f) ==> SameFlags(f, f + 64) && A(f + 64) && (D(f + 64) <==> D(f))
  {
    hide SameFlags;
    LowFlags(f, 64);
    Halves(f);
    Halves(f + 64);
    NextBlock(f);
    OddAfterEven(f / 64);
  }

  lemma OddAfterEven(x: int)
    ensures x % 2 != 1 ==> (x + 1) % 2 == 1 && (x + 1) / 2 == x / 2
  {
  }

  lemma Halves(f: nat)
    ensures f / 128 == f / 64 / 2
  {
  }

  lemma NextBlock(f: nat)
    ensures (f + 64) / 64 == f / 64 + 1
  {
  }

  /** Adding a multiple of 32 leaves the low flags alone. */
  lemma LowFlags(f: nat, step: nat)
    requires step == 64 || step == 128
    ensures SameFlags(f, f + step)
  {
    var j := if step == 64 then 1 else 2;
    LowBits(f, j);
    EvenSum(f / 2, 16 * j);
    EvenSum(f / 4, 8 * j);
    EvenSum(f / 8, 4 * j);
    EvenSum(f / 16, 2 * j);
    hide *;
    FlagsByBits(f, f + step);
  }

  lemma FlagsByBits(f: nat, g: nat)
    requires g % 2 == f % 2 && g / 2 % 2 == f / 2 % 2 && g / 4 % 2 == f / 4 % 2 && g / 8 % 2 == f / 8 % 2 &&
      g / 16 % 2 == f / 16 % 2
    ensures SameFlags(f, g)
  {
  }

  lemma EvenSum(x: int, k: int)
    ensures (x + 2 * k) % 2 == x % 2
  {
  }

  lemma LowBits(f: nat, j: nat)
    ensures (f + 64 * j) % 2 == f % 2 && (f + 64 * j) / 2 == f / 2 + 32 * j && (f + 64 * j) / 4 == f / 4 + 16 * j
    ensures (f + 64 * j) / 8 == f / 8 + 8 * j && (f + 64 * j) / 16 == f / 16 + 4 * j
  {
  }

  lemma DirtyBit(f: nat)
    ensures !D(f) ==> SameFlags(f, f + 128) && D(f + 128) && (A(f + 128) <==> A(f))
  {
    LowFlags(f, 128);
    hide V, R, W, X, U, SameFlags;
    UpperFlags(f);
  }

  lemma UpperFlags(f: nat)
    ensures D(f) <==> !D(f + 128)
    ensures A(f + 128) <==> A(f)
  {
    hide *;
    UpperBits(f);
    TopBits(f, f + 128);
  }

  lemma TopBits(f: nat, g: nat)
    requires g / 64 % 2 == f / 64 % 2 && g / 128 % 2 == 1 - f / 128 % 2
    ensures (D(f) <==> !D(g)) && (A(g) <==> A(f))
  {
  }

  lemma UpperBits(f: nat)
    ensures (f + 128) / 64 % 2 == f / 64 % 2 && (f + 128) / 128 % 2 == 1 - f / 128 % 2
  {
    assert (f + 128) / 64 == f / 64 + 2;
    assert (f + 128) / 128 == f / 128 + 1;
  }

  lemma AllowedMarked(c: Config, f: nat, k: Kind, kind: Kind)
    ensures IsTable(Marked(f, k)) <==> IsTable(f)
    ensures Allowed(c, Marked(f, k), kind) <==> Allowed(c, f, kind)
  {
    hide Marked, V, R, W, X, U, A, D;
    MarkedFlags(f, k, k);
  }

  lemma PteAligned(c: Config, vpn: nat, table: nat, level: nat)
    requires !c.scheme.Bare?
    ensures PteAddr(c, vpn, U64(table * PAGE), level) % c.scheme.PteSize() == 0
  {
    hide U64, Pow2;
    var i := vpn / Pow2(level * c.scheme.IndexBits()) % Pow2(c.scheme.IndexBits());
    PageMultiple(table);
    AlignedSum(U64(table * PAGE), i);
    if c.scheme.Sv32? {
      assert PteAddr(c, vpn, U64(table * PAGE), level) == U64(U64(table * PAGE) + i * 4);
    } else {
      assert PteAddr(c, vpn, U64(table * PAGE), level) == U64(U64(table * PAGE) + i * 8);
    }
  }

  lemma AlignedSum(b: nat, i: int)
    requires b % PAGE == 0
    ensures U64(b + i * 4) % 4 == 0 && U64(b + i * 8) % 8 == 0
  {
    var k := b / PAGE;
    assert b == PAGE * k;
    assert b + i * 8 == 8 * (512 * k + i) && b + i * 4 == 4 * (1024 * k + i);
    EightTimes(512 * k + i);
    FourTimes(1024 * k + i);
    MultipleMod(b + i * 8);
    MultipleMod4(b + i * 4);
  }

  lemma EightTimes(x: int)
    ensures (8 * x) % 8 == 0
  {
  }

  lemma FourTimes(x: int)
    ensures (4 * x) % 4 == 0
  {
  }

  lemma MultipleMod(x: int)
    requires x % 8 == 0
    ensures U64(x) % 8 == 0
  {
  }

  lemma MultipleMod4(x: int)
    requires x % 4 == 0
    ensures U64(x) % 4 == 0
  {
  }

  /** A marked entry is not among the bytes behind another entry's flags. */
  lemma RestSame(m: Memory, q: nat, v: nat, a: nat, n: nat)
    requires q < a || q >= a + n
    ensures Rest(m[q := v], a, n) == Rest(m, a, n)
    decreases n
  {
    if n > 0 {
      RestSame(m, q, v, a + 1, n - 1);
    }
  }

  lemma PpnSame(c: Config, m: Memory, q: nat, v: nat, pte: nat)
    requires !c.scheme.Bare? && q % c.scheme.PteSize() == 0 && pte % c.scheme.PteSize() == 0
    ensures Ppn(c, m[q := v], pte) == Ppn(c, m, pte)
  {
    RestSame(m, q, v, pte + 1, c.scheme.PteSize() - 1);
  }

  /** An entry after bits were set, in itself or in another one. */
  lemma MarkedEntry(c: Config, m: Memory, q: nat, k: Kind, kind: Kind, pte: nat)
    requires !c.scheme.Bare? && q % c.scheme.PteSize() == 0 && pte % c.scheme.PteSize() == 0
    ensures var m1 := m[q := Marked(Get(m, q), k)];
      && Ppn(c, m1, pte) == Ppn(c, m, pte) && (IsTable(Get(m1, pte)) <==> IsTable(Get(m, pte)))
      && (Allowed(c, Get(m1, pte), kind) <==> Allowed(c, Get(m, pte), kind))
  {
    PpnSame(c, m, q, Marked(Get(m, q), k), pte);
    AllowedMarked(c, Get(m, q), k, kind);
    hide Marked, Ppn, IsTable, Allowed;
  }

  /** The walk from a table does not notice bits that another walk has set. */
  lemma {:induction false} WalkAfterMark(c: Config, m: Memory, q: nat, k: Kind, vpn: nat, kind: Kind,
      table: nat, level: nat)
    requires !c.scheme.Bare? && q % c.scheme.PteSize() == 0
    ensures WalkFrom(c, m[q := Marked(Get(m, q), k)], vpn, kind, U64(table * PAGE), level) ==
      WalkFrom(c, m, vpn, kind, U64(table * PAGE), level)
    decreases level
  {
    var pte := PteAddr(c, vpn, U64(table * PAGE), level);
    PteAligned(c, vpn, table, level);
    MarkedEntry(c, m, q, k, kind, pte);
    hide Marked, PteAddr, Ppn, IsTable, Allowed, Get;
    if level > 0 {
      WalkAfterMark(c, m, q, k, vpn, kind, Ppn(c, m, pte), level - 1);
    }
  }

  /** The leaf of a walk does not depend on the kind of access. */
  lemma {:induction false} SameLeaf(c: Config, m: Memory, vpn: nat, k1: Kind, k2: Kind, base: nat, level: nat)
    ensures var w1, w2 := WalkFrom(c, m, vpn, k1, base, level), WalkFrom(c, m, vpn, k2, base, level);
      w1.Leaf? && w2.Leaf? ==> w1 == w2
    decreases level
  {
    if level > 0 {
      SameLeaf(c, m, vpn, k1, k2, U64(Ppn(c, m, PteAddr(c, vpn, base, level)) * PAGE), level - 1);
    }
  }

  /** What a leaf looks like. */
  lemma {:induction false} LeafShape(c: Config, m: Memory, vpn: nat, kind: Kind, table: nat, level: nat)
    requires !c.scheme.Bare?
    ensures var w := WalkFrom(c, m, vpn, kind, U64(table * PAGE), level);
      w.Leaf? ==> c.IsMem(w.pte) && w.pte % c.scheme.PteSize() == 0 && w.page % PAGE == 0 && w.page < W64
    decreases level
  {
    var pte := PteAddr(c, vpn, U64(table * PAGE), level);
    PteAligned(c, vpn, table, level);
    PageMultiple(Or(Ppn(c, m, pte), vpn % Pow2(level * c.scheme.IndexBits())));
    hide PteAddr, Ppn;
    if level > 0 {
      LeafShape(c, m, vpn, kind, Ppn(c, m, pte), level - 1);
    }
  }

  lemma PageMultiple(x: int)
    ensures U64(x * PAGE) % PAGE == 0
  {
  }

  // ---- translations ----

  /** Memory covers every address that counts as memory. */
  ghost predicate Whole(c: Config, m: Memory) { forall a: nat :: c.IsMem(a) ==> a in m }

  lemma MachinePage(vpn: nat, xlen: nat)
    requires xlen == 32 || xlen == 64
    ensures 0 <= vpn * PAGE % Pow2(xlen) < W64 && vpn * PAGE % Pow2(xlen) % PAGE == 0
  {
    Pow2Small();
    Pow2Add(32, 32);
    hide Pow2;
    Remainders(vpn);
  }

  lemma Remainders(vpn: nat)
    ensures 0 <= vpn * PAGE % W64 < W64 && vpn * PAGE % W64 % PAGE == 0
    ensures 0 <= vpn * PAGE % 0x1_0000_0000 < W64 && vpn * PAGE % 0x1_0000_0000 % PAGE == 0
  {
    var x := vpn * PAGE;
    var j, k := x / W64, x / 0x1_0000_0000;
    assert x % W64 == x - W64 * j && x % 0x1_0000_0000 == x - 0x1_0000_0000 * k;
    PageTimes(vpn - 0x10_0000_0000_0000 * j);
    PageTimes(vpn - 0x10_0000 * k);
  }

  lemma PageTimes(x: int)
    ensures x * PAGE % PAGE == 0
  {
  }

  lemma TranslatedPage(c: Config, m: Memory, vpn: nat, kind: Kind)
    requires c.Ok()
    ensures var t := Translate(c, m, vpn, kind); t.page >= 0 ==> t.page % PAGE == 0 && t.page < W64
  {
    hide Pow2, WalkFrom, Marked, Get;
    MachinePage(vpn, c.xlen);
    if !c.scheme.Bare? {
      LeafShape(c, m, vpn, kind, c.sptbr, c.scheme.Levels() - 1);
    }
  }

  /** A page lies in memory as a whole or not at all. */
  lemma WholePage(c: Config, page: nat, addr: nat)
    requires c.Ok() && page % PAGE == 0
    ensures c.IsMem(page + addr % PAGE) <==> c.IsMem(page)
  {
  }

  lemma UnmappedIsNoMemory(c: Config)
    requires c.Ok()
    ensures !c.IsMem(W64 - 1)
  {
  }

  /** Settings that differ in the root of the page tables at most. */
  predicate SameButRoot(c: Config, d: Config) { d == c.(sptbr := d.sptbr) }

  /**
   The memory after a translation differs in one marked flag byte at most, which no translation notices, not
   even one from another root.
  */
  lemma AfterTranslate(c: Config, d: Config, m: Memory, vpn: nat, kind: Kind, v: nat, k: Kind)
    requires c.Ok() && Whole(c, m) && SameButRoot(c, d)
    ensures var t := Translate(c, m, vpn, kind); var m1 := t.mem;
      && Whole(c, m1)
      && Translate(d, m1, v, k).page == Translate(d, m, v, k).page
      && (Translate(d, m, v, k).mem == m ==> Translate(d, m1, v, k).mem == m1)
      && Translate(c, m1, vpn, kind) == Translation(m1, t.page)
  {
    hide Marked, WalkFrom, Canonical, PteAddr;
    var w := Walk(c, m, vpn, kind);
    if !c.Mode(kind).Machine? && w.Leaf? {
      LeafShape(c, m, vpn, kind, c.sptbr, c.scheme.Levels() - 1);
      MarkedWalk(d, m, w.pte, kind, v, k);
      MarkedWalk(c, m, w.pte, kind, vpn, kind);
      MarkedItself(c, m, w.pte, kind, vpn);
      MarkedAgain(d, m, w.pte, kind, v, k);
    }
  }

  lemma MarkedWalk(c: Config, m: Memory, q: nat, kind: Kind, v: nat, k: Kind)
    requires !c.scheme.Bare? && q % c.scheme.PteSize() == 0
    ensures var m1 := m[q := Marked(Get(m, q), kind)]; Walk(c, m1, v, k) == Walk(c, m, v, k)
    ensures Walk(c, m, v, k).Leaf? ==> c.IsMem(Walk(c, m, v, k).pte)
    ensures Marked(Get(m, q), k) == Get(m, q) ==> Marked(Marked(Get(m, q), kind), k) == Marked(Get(m, q), kind)
  {
    WalkAfterMark(c, m, q, kind, v, k, c.sptbr, c.scheme.Levels() - 1);
    LeafShape(c, m, v, k, c.sptbr, c.scheme.Levels() - 1);
    MarkedFlags(Get(m, q), kind, k);
  }

  lemma MarkedItself(c: Config, m: Memory, q: nat, kind: Kind, vpn: nat)
    requires Walk(c, m[q := Marked(Get(m, q), kind)], vpn, kind) == Walk(c, m, vpn, kind) &&
      Walk(c, m, vpn, kind).Leaf? && Walk(c, m, vpn, kind).pte == q
    ensures var m1 := m[q := Marked(Get(m, q), kind)]; Translate(c, m1, vpn, kind).mem == m1
  {
    MarkedFlags(Get(m, q), kind, kind);
    hide Marked, Walk;
    var m1 := m[q := Marked(Get(m, q), kind)];
    assert m1[q := Get(m1, q)] == m1;
  }

  lemma MarkedAgain(c: Config, m: Memory, q: nat, kind: Kind, v: nat, k: Kind)
    requires c.Ok() && Whole(c, m) && c.IsMem(q) && Walk(c, m[q := Marked(Get(m, q), kind)], v, k) == Walk(c, m, v, k)
    requires Walk(c, m, v, k).Leaf? ==> c.IsMem(Walk(c, m, v, k).pte)
    requires Marked(Get(m, q), k) == Get(m, q) ==> Marked(Marked(Get(m, q), kind), k) == Marked(Get(m, q), kind)
    ensures var m1 := m[q := Marked(Get(m, q), kind)];
      Translate(c, m, v, k).mem == m ==> Translate(c, m1, v, k).mem == m1
  {
    hide Marked, Walk;
    var m1 := m[q := Marked(Get(m, q), kind)];
    var w := Walk(c, m, v, k);
    if !c.Mode(k).Machine? && w.Leaf? && Translate(c, m, v, k).mem == m {
      assert m[w.pte := Marked(Get(m, w.pte), k)][w.pte] == Marked(Get(m, w.pte), k);
      assert Marked(Get(m, w.pte), k) == Get(m, w.pte);
      assert Marked(Get(m1, w.pte), k) == Get(m1, w.pte);
      assert m1[w.pte := Get(m1, w.pte)] == m1;
    }
  }

  // ---- page tables that nobody writes ----

  /** The walk reads entries in the protected set only. */
  ghost predicate Inside(c: Config, m: Memory, vpn: nat, base: nat, level: nat, tables: iset<nat>)
    decreases level
  {
    var pte := PteAddr(c, vpn, base, level);
    c.IsMem(pte) ==>
      && (forall x: nat :: pte <= x < pte + c.scheme.PteSize() ==> x in tables)
      && (IsTable(Get(m, pte)) && level > 0 ==> Inside(c, m, vpn, U64(Ppn(c, m, pte) * PAGE), level - 1, tables))
  }

  /** Every walk stays inside the protected set. */
  ghost predicate Protected(c: Config, m: Memory, tables: iset<nat>) {
    !c.scheme.Bare? ==> forall vpn: nat :: WalkInside(c, m, vpn, tables)
  }

  ghost predicate WalkInside(c: Config, m: Memory, vpn: nat, tables: iset<nat>)
    requires !c.scheme.Bare?
  {
    Inside(c, m, vpn, U64(c.sptbr * PAGE), c.scheme.Levels() - 1, tables)
  }

  /**
   Bytes that no walk tells apart: the two lowest bits behind the flags of an entry are reserved for software.
  */
  predicate Alike(c: Config, a: nat, v: nat, w: nat) { v == w || (a % c.scheme.PteSize() == 1 && v / 4 == w / 4) }

  /** Memory that holds the same page tables, as far as walks read them. */
  ghost predicate SameTables(c: Config, m: Memory, m1: Memory, tables: iset<nat>) {
    forall a: nat :: a in tables ==> Alike(c, a, Get(m, a), Get(m1, a))
  }

  lemma {:induction false} RestAgrees(m: Memory, m1: Memory, a: nat, n: nat)
    requires forall x: nat :: a <= x < a + n ==> Get(m1, x) == Get(m, x)
    ensures Rest(m1, a, n) == Rest(m, a, n)
    decreases n
  {
    if n > 0 {
      RestAgrees(m, m1, a + 1, n - 1);
    }
  }

  /** An entry with the same flags and the same page number. */
  lemma EntryAgrees(c: Config, m: Memory, m1: Memory, pte: nat, tables: iset<nat>)
    requires SameTables(c, m, m1, tables) && pte % c.scheme.PteSize() == 0
    requires forall x: nat :: pte <= x < pte + c.scheme.PteSize() ==> x in tables
    ensures Get(m1, pte) == Get(m, pte) && Ppn(c, m1, pte) == Ppn(c, m, pte)
  {
    var n := c.scheme.PteSize();
    forall x: nat | pte <= x < pte + n && x != pte + 1 ensures Get(m1, x) == Get(m, x) {
      assert x in tables;
      InEntry(pte, n, x);
    }
    RestAgrees(m, m1, pte + 2, n - 2);
    assert pte + 1 in tables;
    Quarter(Get(m, pte + 1), Get(m1, pte + 1), Rest(m, pte + 2, n - 2));
  }

  lemma InEntry(pte: nat, n: nat, x: nat)
    requires (n == 4 || n == 8) && pte % n == 0 && pte <= x < pte + n && x != pte + 1
    ensures x % n != 1
  {
  }

  lemma Quarter(v: nat, w: nat, rest: nat)
    requires v / 4 == w / 4
    ensures (v + 256 * rest) / 4 == (w + 256 * rest) / 4
  {
  }

  /** Memory that agrees on the protected set walks the same. */
  lemma {:induction false} WalkAgrees(c: Config, m: Memory, m1: Memory, vpn: nat, kind: Kind, table: nat, level: nat,
      tables: iset<nat>)
    requires !c.scheme.Bare? && Inside(c, m, vpn, U64(table * PAGE), level, tables) && SameTables(c, m, m1, tables)
    ensures WalkFrom(c, m1, vpn, kind, U64(table * PAGE), level) ==
      WalkFrom(c, m, vpn, kind, U64(table * PAGE), level)
    ensures Inside(c, m1, vpn, U64(table * PAGE), level, tables)
    decreases level
  {
    var pte := PteAddr(c, vpn, U64(table * PAGE), level);
    PteAligned(c, vpn, table, level);
    hide PteAddr, IsTable, Allowed, SameTables, Ppn;
    if c.IsMem(pte) {
      EntryAgrees(c, m, m1, pte, tables);
      if level > 0 && IsTable(Get(m, pte)) {
        WalkAgrees(c, m, m1, vpn, kind, Ppn(c, m, pte), level - 1, tables);
      }
    }
  }

  lemma {:induction false} InsideAfterMark(c: Config, m: Memory, q: nat, k: Kind, vpn: nat, table: nat, level: nat,
      tables: iset<nat>)
    requires !c.scheme.Bare? && q % c.scheme.PteSize() == 0 && Inside(c, m, vpn, U64(table * PAGE), level, tables)
    ensures Inside(c, m[q := Marked(Get(m, q), k)], vpn, U64(table * PAGE), level, tables)
    decreases level
  {
    var pte := PteAddr(c, vpn, U64(table * PAGE), level);
    PteAligned(c, vpn, table, level);
    PpnSame(c, m, q, Marked(Get(m, q), k), pte);
    AllowedMarked(c, Get(m, q), k, Fetch);
    hide Marked, PteAddr, Ppn, IsTable, Allowed;
    if level > 0 && c.IsMem(pte) && IsTable(Get(m, pte)) {
      InsideAfterMark(c, m, q, k, vpn, Ppn(c, m, pte), level - 1, tables);
    }
  }

  lemma ProtectedAfterTranslate(c: Config, d: Config, m: Memory, vpn: nat, kind: Kind, tables: iset<nat>)
    requires Protected(d, m, tables) && SameButRoot(c, d)
    ensures Protected(d, Translate(c, m, vpn, kind).mem, tables)
  {
    var w := Walk(c, m, vpn, kind);
    if !c.Mode(kind).Machine? && w.Leaf? {
      LeafShape(c, m, vpn, kind, c.sptbr, c.scheme.Levels() - 1);
      hide Marked, WalkFrom, Inside;
      var m1 := m[w.pte := Marked(Get(m, w.pte), kind)];
      forall v: nat ensures WalkInside(d, m1, v, tables) {
        assert WalkInside(d, m, v, tables);
        InsideAfterMark(d, m, w.pte, kind, v, d.sptbr, d.scheme.Levels() - 1, tables);
      }
    }
  }

  /** What leaves the tables as they are changes no walk, and no translation. */
  lemma WalkKept(c: Config, m: Memory, m1: Memory, vpn: nat, kind: Kind, tables: iset<nat>)
    requires Protected(c, m, tables) && !c.scheme.Bare? && SameTables(c, m, m1, tables)
    ensures Walk(c, m1, vpn, kind) == Walk(c, m, vpn, kind)
    ensures var w := Walk(c, m, vpn, kind); w.Leaf? ==> c.IsMem(w.pte) && Get(m1, w.pte) == Get(m, w.pte)
  {
    assert WalkInside(c, m, vpn, tables);
    WalkAgrees(c, m, m1, vpn, kind, c.sptbr, c.scheme.Levels() - 1, tables);
    if Walk(c, m, vpn, kind).Leaf? {
      LeafInside(c, m, vpn, kind, U64(c.sptbr * PAGE), c.scheme.Levels() - 1, tables);
      LeafShape(c, m, vpn, kind, c.sptbr, c.scheme.Levels() - 1);
      EntryAgrees(c, m, m1, Walk(c, m, vpn, kind).pte, tables);
    }
  }

  lemma TranslateAgrees(c: Config, m: Memory, m1: Memory, vpn: nat, kind: Kind, tables: iset<nat>)
    requires Protected(c, m, tables) && Whole(c, m) && Whole(c, m1) && SameTables(c, m, m1, tables)
    ensures Translate(c, m1, vpn, kind).page == Translate(c, m, vpn, kind).page
    ensures Translate(c, m, vpn, kind).mem == m ==> Translate(c, m1, vpn, kind).mem == m1
  {
    if !c.scheme.Bare? {
      WalkKept(c, m, m1, vpn, kind, tables);
      hide Walk, Marked, Protected, SameTables;
      var w := Walk(c, m, vpn, kind);
      if w.Leaf? && !c.Mode(kind).Machine? && Translate(c, m, vpn, kind).mem == m {
        assert m[w.pte := Marked(Get(m, w.pte), kind)][w.pte] == Marked(Get(m, w.pte), kind);
        assert m1[w.pte := Get(m1, w.pte)] == m1;
      }
    }
  }

  lemma {:induction false} LeafInside(c: Config, m: Memory, vpn: nat, kind: Kind, base: nat, level: nat,
      tables: iset<nat>)
    requires Inside(c, m, vpn, base, level, tables) && WalkFrom(c, m, vpn, kind, base, level).Leaf? && !c.scheme.Bare?
    ensures var pte := WalkFrom(c, m, vpn, kind, base, level).pte;
      forall x: nat :: pte <= x < pte + c.scheme.PteSize() ==> x in tables
    decreases level
  {
    var pte := PteAddr(c, vpn, base, level);
    if level > 0 && c.IsMem(pte) && IsTable(Get(m, pte)) {
      LeafInside(c, m, vpn, kind, U64(Ppn(c, m, pte) * PAGE), level - 1, tables);
    }
  }

  lemma ProtectedAfterWrite(c: Config, m: Memory, m1: Memory, tables: iset<nat>)
    requires Protected(c, m, tables) && SameTables(c, m, m1, tables)
    ensures Protected(c, m1, tables)
  {
    if !c.scheme.Bare? {
      forall v: nat ensures WalkInside(c, m1, v, tables) {
        assert WalkInside(c, m, v, tables);
        WalkAgrees(c, m, m1, v, Fetch, c.sptbr, c.scheme.Levels() - 1, tables);
      }
    }
  }
}
