/**
 What translation protects.  The way through the page tables is described by its entries, and what an entry
 grants by its bits (sections 4.3.1 and 4.3.2 of the RISC-V Privileged Architecture 1.9.1); walks, accesses
 and whole runs do exactly what the entries on the way grant.
*/
module TlbProtection {
  import opened Words
  import opened Arith
  import opened Tlb
  import opened TlbAgrees
  import opened TlbRoots
  import opened TlbRuns

  const PTE_V := 0x01
  const PTE_R := 0x02
  const PTE_W := 0x04
  const PTE_X := 0x08
  const PTE_U := 0x10
  const PTE_A := 0x40
  const PTE_D := 0x80

  predicate Has(flags: nat, bit: nat)
    requires bit > 0
  {
    flags / bit % 2 == 1
  }

  /** An entry that points to the next table. */
  predicate Pointer(flags: nat) { Has(flags, PTE_V) && !Has(flags, PTE_R) && !Has(flags, PTE_W) && !Has(flags, PTE_X) }

  /** The privilege an access is made with: MPRV lends loads and stores that of MPP, but for the debugger. */
  function Effective(c: Config, kind: Kind): Privilege {
    if c.mprv && !c.debug && (kind.Load? || kind.Store?) then c.mpp else c.prv
  }

  predicate Direct(c: Config, kind: Kind) { c.scheme.Bare? || Effective(c, kind).Machine? }

  /** What a leaf grants: supervisors keep off user pages under PUM, users off all others. */
  predicate Grants(c: Config, flags: nat, kind: Kind) {
    && Has(flags, PTE_V) && (Has(flags, PTE_W) ==> Has(flags, PTE_R))
    && (if Effective(c, kind).Supervisor? then !(Has(flags, PTE_U) && c.pum) else Has(flags, PTE_U))
    && (kind.Fetch? ==> Has(flags, PTE_X))
    && (kind.Load? ==> Has(flags, PTE_R) || (Has(flags, PTE_X) && c.mxr))
    && (kind.Store? ==> Has(flags, PTE_W))
  }

  // ---- the way through the tables ----

  /** Part of the virtual page number that indexes a table with level more tables below it. */
  function Digit(c: Config, vpn: nat, level: nat): nat {
    vpn / Pow2(level * c.scheme.IndexBits()) % Pow2(c.scheme.IndexBits())
  }

  /** The entry of the table at this page for vpn. */
  function EntryIn(c: Config, vpn: nat, table: nat, level: nat): nat {
    (table * PAGE % W64 + Digit(c, vpn, level) * c.scheme.PteSize()) % W64
  }

  /** Entry after entry, each in the table that the one before it points to. */
  ghost predicate Way(c: Config, m: Memory, vpn: nat, table: nat, level: nat, entries: seq<nat>) {
    && 1 <= |entries| <= level + 1 && entries[0] == EntryIn(c, vpn, table, level)
    && forall i :: 0 <= i < |entries| - 1 ==>
         Pointer(Get(m, entries[i])) && entries[i + 1] == EntryIn(c, vpn, Ppn(c, m, entries[i]), level - 1 - i)
  }

  predicate InMemory(c: Config, entries: seq<nat>) { forall i :: 0 <= i < |entries| ==> c.IsMem(entries[i]) }

  /** The page that a leaf with level more tables below it maps: low bits of a large page come from the address. */
  function PageAt(c: Config, m: Memory, vpn: nat, pte: nat, level: nat): nat {
    Or(Ppn(c, m, pte), vpn % Pow2(level * c.scheme.IndexBits())) * PAGE % W64
  }

  /** A way in memory that ends in a leaf that grants the access. */
  ghost predicate LeadsFrom(c: Config, m: Memory, vpn: nat, kind: Kind, table: nat, level: nat, entries: seq<nat>,
      pte: nat, page: nat)
  {
    && Way(c, m, vpn, table, level, entries) && InMemory(c, entries) && pte == entries[|entries| - 1]
    && !Pointer(Get(m, pte)) && Grants(c, Get(m, pte), kind)
    && page == PageAt(c, m, vpn, pte, level + 1 - |entries|)
  }

  /** The virtual address is the sign extension of its translated part. */
  predicate SignExtended(c: Config, vpn: nat)
    requires c.xlen >= 12
  {
    var high := c.scheme.Levels() * c.scheme.IndexBits() - 1;
    high >= 0 && c.xlen - 12 >= high &&
    var v := vpn % Pow2(c.xlen - 12);
    v < Pow2(high) || v >= Pow2(c.xlen - 12) - Pow2(high)
  }

  ghost predicate Leads(c: Config, m: Memory, vpn: nat, kind: Kind, pte: nat, page: nat)
    requires c.Ok()
  {
    && !c.scheme.Bare? && SignExtended(c, vpn)
    && exists entries: seq<nat> :: LeadsBy(c, m, vpn, kind, entries, pte, page)
  }

  ghost predicate LeadsBy(c: Config, m: Memory, vpn: nat, kind: Kind, entries: seq<nat>, pte: nat, page: nat)
    requires !c.scheme.Bare?
  {
    LeadsFrom(c, m, vpn, kind, c.sptbr, c.scheme.Levels() - 1, entries, pte, page)
  }

  /** A table fills one page, and the fields of an address are those of the scheme's name. */
  lemma TableFillsPage(s: Scheme)
    requires !s.Bare?
    ensures Pow2(s.IndexBits()) * s.PteSize() == PAGE
    ensures 12 + s.Levels() * s.IndexBits() == match s case Bare => 0 case Sv32 => 32 case Sv39 => 39 case Sv48 => 48
  {
    Pow2Small();
  }

  lemma {:induction false} OrOfParts(a: nat, b: nat, k: nat)
    requires a % Pow2(k) == 0 && b < Pow2(k)
    ensures Or(a, b) == a + b
    decreases k
  {
    if a != 0 && b != 0 {
      var p := Pow2(k - 1);
      var q := a / (2 * p);
      Division(a, 2 * p);
      assert a == 2 * (q * p) by {
        assert q * (2 * p) == 2 * (q * p);
      }
      ModZero(q, p);
      OrOfParts(a / 2, b / 2, k - 1);
    }
  }

  predicate Bit(w: nat, i: nat)
    decreases i
  {
    if i == 0 then w % 2 == 1 else Bit(w / 2, i - 1)
  }

  lemma {:induction false} NoBit(i: nat)
    ensures !Bit(0, i)
    decreases i
  {
    if i > 0 {
      NoBit(i - 1);
    }
  }

  /** Bit i of the bitwise or is set exactly if it is set in one of them. */
  lemma {:induction false} OrBit(a: nat, b: nat, i: nat)
    ensures Bit(Or(a, b), i) <==> Bit(a, i) || Bit(b, i)
    decreases i
  {
    NoBit(i);
    if i > 0 && a != 0 && b != 0 {
      OrBit(a / 2, b / 2, i - 1);
    }
  }

  /** Of an aligned large page, the address picks the page inside. */
  lemma LargePage(c: Config, m: Memory, vpn: nat, pte: nat, level: nat)
    requires Ppn(c, m, pte) % Pow2(level * c.scheme.IndexBits()) == 0
    ensures PageAt(c, m, vpn, pte, level) ==
      (Ppn(c, m, pte) + vpn % Pow2(level * c.scheme.IndexBits())) * PAGE % W64
  {
    OrOfParts(Ppn(c, m, pte), vpn % Pow2(level * c.scheme.IndexBits()), level * c.scheme.IndexBits());
    hide Ppn, Or;
  }

  lemma FlagBits(c: Config, f: nat, kind: Kind)
    ensures IsTable(f) <==> Pointer(f)
    ensures !c.scheme.Bare? && !c.Mode(kind).Machine? ==> (Allowed(c, f, kind) <==> Grants(c, f, kind))
  {
  }

  lemma EntryInIs(c: Config, vpn: nat, table: nat, level: nat)
    ensures EntryIn(c, vpn, table, level) == PteAddr(c, vpn, U64(table * PAGE), level)
  {
  }

  lemma {:induction false} WalkHasWay(c: Config, m: Memory, vpn: nat, kind: Kind, table: nat, level: nat)
      returns (entries: seq<nat>)
    requires !c.scheme.Bare? && !c.Mode(kind).Machine?
    requires WalkFrom(c, m, vpn, kind, U64(table * PAGE), level).Leaf?
    ensures var w := WalkFrom(c, m, vpn, kind, U64(table * PAGE), level);
      LeadsFrom(c, m, vpn, kind, table, level, entries, w.pte, w.page)
    decreases level
  {
    EntryInIs(c, vpn, table, level);
    var pte := EntryIn(c, vpn, table, level);
    FlagBits(c, Get(m, pte), kind);
    hide EntryIn, PteAddr, IsTable, Allowed, Pointer, Grants, Ppn, Or;
    if IsTable(Get(m, pte)) {
      var rest := WalkHasWay(c, m, vpn, kind, Ppn(c, m, pte), level - 1);
      entries := [pte] + rest;
      LongerWay(c, m, vpn, table, level, pte, rest);
    } else {
      entries := [pte];
    }
  }

  lemma LongerWay(c: Config, m: Memory, vpn: nat, table: nat, level: nat, pte: nat, rest: seq<nat>)
    requires level > 0 && pte == EntryIn(c, vpn, table, level) && Pointer(Get(m, pte))
    requires Way(c, m, vpn, Ppn(c, m, pte), level - 1, rest)
    ensures Way(c, m, vpn, table, level, [pte] + rest)
  {
    hide EntryIn, Pointer, Ppn;
    var entries := [pte] + rest;
    forall i | 0 <= i < |entries| - 1
      ensures Pointer(Get(m, entries[i])) && entries[i + 1] == EntryIn(c, vpn, Ppn(c, m, entries[i]), level - 1 - i)
    {
      if i > 0 {
        assert entries[i] == rest[i - 1] && entries[i + 1] == rest[i];
      }
    }
  }

  lemma ShorterWay(c: Config, m: Memory, vpn: nat, table: nat, level: nat, entries: seq<nat>)
    requires Way(c, m, vpn, table, level, entries) && |entries| > 1
    ensures Way(c, m, vpn, Ppn(c, m, entries[0]), level - 1, entries[1..])
  {
    hide EntryIn, Pointer, Ppn;
    var rest := entries[1..];
    forall i | 0 <= i < |rest| - 1
      ensures Pointer(Get(m, rest[i])) && rest[i + 1] == EntryIn(c, vpn, Ppn(c, m, rest[i]), level - 2 - i)
    {
      assert rest[i] == entries[i + 1] && rest[i + 1] == entries[i + 2];
    }
  }

  lemma {:induction false} WayWalks(c: Config, m: Memory, vpn: nat, kind: Kind, table: nat, level: nat,
      entries: seq<nat>, pte: nat, page: nat)
    requires !c.scheme.Bare? && !c.Mode(kind).Machine?
    requires LeadsFrom(c, m, vpn, kind, table, level, entries, pte, page)
    ensures WalkFrom(c, m, vpn, kind, U64(table * PAGE), level) == Leaf(pte, page)
    decreases level
  {
    EntryInIs(c, vpn, table, level);
    FlagBits(c, Get(m, entries[0]), kind);
    hide EntryIn, PteAddr, IsTable, Allowed, Pointer, Grants, Ppn, Or;
    if |entries| > 1 {
      ShorterWay(c, m, vpn, table, level, entries);
      WayWalks(c, m, vpn, kind, Ppn(c, m, entries[0]), level - 1, entries[1..], pte, page);
    }
  }

  lemma CanonicalIs(c: Config, vpn: nat)
    requires c.Ok() && !c.scheme.Bare?
    ensures Canonical(c, vpn) <==> SignExtended(c, vpn)
  {
    var high: nat := c.scheme.Levels() * c.scheme.IndexBits() - 1;
    var n: nat := c.xlen - 12 - high;
    Pow2Add(high, n);
    hide Pow2;
    TopDigits(vpn, Pow2(high), Pow2(n));
  }

  lemma Recomposed(v: int, p: int, q: int, d: int, r: int, e: int, t: int)
    requires v == d * p + r && d == e * q + t
    ensures v == e * (p * q) + (t * p + r)
  {
    assert (e * q + t) * p == e * q * p + t * p;
    assert e * q * p == e * (p * q);
  }

  lemma TopDigit(v: nat, p: nat, q: nat)
    requires p > 0 && q > 0
    ensures p * q > 0 && v / p % q == v % (p * q) / p
  {
    var d, r := v / p, v % p;
    var e, t := d / q, d % q;
    Division(v, p);
    Division(d, q);
    Recomposed(v, p, q, d, r, e, t);
    MulOrder(0, q, p);
    MulOrder(t, q, p);
    MulOrder(-1, t, p);
    QuotientUnique(v, p * q, e);
    QuotientUnique(t * p + r, p, t);
  }

  lemma FirstAndLast(w: int, p: int, q: int)
    requires p > 0 && 0 <= w < q * p
    ensures w / p == 0 <==> w < p
    ensures w / p == q - 1 <==> w >= q * p - p
  {
    var t := w / p;
    Division(w, p);
    MulOrder(t, q, p);
    MulOrder(t, 0, p);
    MulOrder(1, t, p);
    MulOrder(t, q - 1, p);
    MulOrder(q - 1, t, p);
    assert (q - 1) * p == q * p - p;
  }

  /** The upper digits of v modulo p * q are all zero, or all one. */
  lemma TopDigits(v: nat, p: nat, q: nat)
    requires p > 0 && q > 0
    ensures p * q > 0
    ensures v / p % q == 0 <==> v % (p * q) < p
    ensures v / p % q == q - 1 <==> v % (p * q) >= p * q - p
  {
    TopDigit(v, p, q);
    var w := v % (p * q);
    assert 0 <= w < p * q;
    FirstAndLast(w, p, q);
  }

  /** A walk finds a leaf exactly where a way leads to one that grants the access. */
  lemma WalkExactly(c: Config, m: Memory, vpn: nat, kind: Kind, pte: nat, page: nat)
    requires c.Ok() && !Direct(c, kind)
    ensures Walk(c, m, vpn, kind) == Leaf(pte, page) <==> Leads(c, m, vpn, kind, pte, page)
  {
    CanonicalIs(c, vpn);
    hide Canonical, SignExtended, WalkFrom, LeadsFrom;
    var top := c.scheme.Levels() - 1;
    if Canonical(c, vpn) {
      if WalkFrom(c, m, vpn, kind, U64(c.sptbr * PAGE), top).Leaf? {
        var entries := WalkHasWay(c, m, vpn, kind, c.sptbr, top);
        assert Walk(c, m, vpn, kind) == Leaf(pte, page) ==> LeadsBy(c, m, vpn, kind, entries, pte, page);
      }
      if entries: seq<nat> :| LeadsBy(c, m, vpn, kind, entries, pte, page) {
        WayWalks(c, m, vpn, kind, c.sptbr, top, entries, pte, page);
      }
    }
  }

  // ---- one access ----

  /** The page an access may go to: its own, if it is direct, or one that the tables grant. */
  ghost predicate Granted(c: Config, m: Memory, vpn: nat, kind: Kind, page: nat)
    requires c.Ok()
  {
    if Direct(c, kind) then page == vpn * PAGE % Pow2(c.xlen)
    else exists pte: nat :: Leads(c, m, vpn, kind, pte, page)
  }

  /** Address p in memory is where the access may start. */
  ghost predicate GrantedAt(c: Config, m: Memory, x: Access, p: nat)
    requires c.Ok()
  {
    c.IsMem(p) && exists page: nat :: Granted(c, m, x.addr / PAGE, x.kind, page) && p == page + x.addr % PAGE
  }

  predicate Aligned(x: Access)
    requires x.len > 0
  {
    x.kind.Fetch? || x.addr % x.len == 0
  }

  /** Only the accessed bit is set, and for a store the dirty bit. */
  predicate OnlyMarks(before: nat, after: nat, kind: Kind) {
    && Has(after, PTE_A) && (Has(after, PTE_D) <==> Has(before, PTE_D) || kind.Store?)
    && after == before + (if Has(before, PTE_A) then 0 else PTE_A) +
         (if Has(before, PTE_D) || !kind.Store? then 0 else PTE_D)
  }

  lemma MarkedBits(f: nat, kind: Kind)
    ensures OnlyMarks(f, Marked(f, kind), kind)
  {
    AccessedBit(f);
    var f1 := if A(f) then f else f + 64;
    DirtyBit(f1);
    HasBits(f);
    HasBits(f1);
    HasBits(Marked(f, kind));
    hide A, D, Has, V, R, W, X, U;
  }

  lemma HasBits(f: nat)
    ensures (Has(f, PTE_A) <==> A(f)) && (Has(f, PTE_D) <==> D(f))
  {
  }

  /** What the translation of an access gives. */
  lemma TranslateExactly(c: Config, m: Memory, vpn: nat, kind: Kind, page: nat)
    requires c.Ok()
    ensures Translate(c, m, vpn, kind).page == page <==> Granted(c, m, vpn, kind, page)
  {
    if !Direct(c, kind) {
      var w := Walk(c, m, vpn, kind);
      if w.Leaf? && w.page == page {
        WalkExactly(c, m, vpn, kind, w.pte, page);
      }
      forall pte: nat | Leads(c, m, vpn, kind, pte, page) ensures w == Leaf(pte, page) {
        WalkExactly(c, m, vpn, kind, pte, page);
      }
    }
  }

  /** Byte a is the flags of the leaf of this access. */
  ghost predicate MarkedAt(c: Config, m: Memory, x: Access, a: nat)
    requires c.Ok()
  {
    !Direct(c, x.kind) && exists page: nat :: Leads(c, m, x.addr / PAGE, x.kind, a, page)
  }

  lemma TranslateMarks(c: Config, m: Memory, x: Access, a: nat)
    requires c.Ok()
    ensures var m1 := Translate(c, m, x.addr / PAGE, x.kind).mem;
      Get(m1, a) != Get(m, a) ==> MarkedAt(c, m, x, a) && OnlyMarks(Get(m, a), Get(m1, a), x.kind)
  {
    var w := Walk(c, m, x.addr / PAGE, x.kind);
    if !Direct(c, x.kind) && w.Leaf? && a == w.pte {
      WalkExactly(c, m, x.addr / PAGE, x.kind, w.pte, w.page);
      MarkedBits(Get(m, a), x.kind);
    }
    hide Walk, Marked, Leads;
  }

  lemma {:induction false} WrittenBytes(m: Memory, p: nat, bytes: seq<nat>, i: nat)
    requires i < |bytes|
    ensures Get(WriteBytes(m, p, bytes), p + i) == bytes[i]
    decreases |bytes|
  {
    if i > 0 {
      WrittenBytes(m[p := bytes[0]], p + 1, bytes[1..], i - 1);
    } else {
      assert Get(WriteBytes(m[p := bytes[0]], p + 1, bytes[1..]), p) == bytes[0];
    }
  }

  lemma GoesTo(c: Config, m: Memory, x: Access, p: nat)
    requires c.Ok() && OkAccess(x) && Aligned(x) && GrantedAt(c, m, x, p)
    ensures Slow(c, m, x) == Perform(c, Translate(c, m, x.addr / PAGE, x.kind).mem, x, p)
  {
    var page: nat :| Granted(c, m, x.addr / PAGE, x.kind, page) && p == page + x.addr % PAGE;
    TranslateExactly(c, m, x.addr / PAGE, x.kind, page);
    hide Translate, Granted, Perform;
  }

  /** What the tables grant is done: a store writes its bytes, a load or fetch gives those of memory. */
  lemma GrantedIsDone(c: Config, m: Memory, x: Access, p: nat)
    requires c.Ok() && OkAccess(x) && Aligned(x) && GrantedAt(c, m, x, p)
    ensures var (m1, r) := Slow(c, m, x);
      if x.kind.Store? then r == Done && forall i: nat :: i < x.len ==> Get(m1, p + i) == x.bytes[i]
      else r.Data? && |r.bytes| == x.len && forall i: nat :: i < x.len ==> r.bytes[i] == Get(m1, p + i)
  {
    GoesTo(c, m, x, p);
    var t := Translate(c, m, x.addr / PAGE, x.kind).mem;
    hide Translate, Slow, GrantedAt;
    Performed(c, t, x, p);
  }

  lemma Performed(c: Config, t: Memory, x: Access, p: nat)
    requires OkAccess(x) && c.IsMem(p)
    ensures var (m1, r) := Perform(c, t, x, p);
      if x.kind.Store? then r == Done && forall i: nat :: i < x.len ==> Get(m1, p + i) == x.bytes[i]
      else r.Data? && |r.bytes| == x.len && forall i: nat :: i < x.len ==> r.bytes[i] == Get(m1, p + i)
  {
    hide Get;
    if x.kind.Store? {
      forall i: nat | i < x.len ensures Get(WriteBytes(t, p, x.bytes), p + i) == x.bytes[i] {
        WrittenBytes(t, p, x.bytes, i);
      }
    }
  }

  /** Nothing else is: data or a store come only from what the tables grant. */
  lemma DoneIsGranted(c: Config, m: Memory, x: Access)
    requires c.Ok() && OkAccess(x) && (Slow(c, m, x).1.Data? || Slow(c, m, x).1.Done?)
    ensures Aligned(x) && exists p: nat :: GrantedAt(c, m, x, p)
  {
    var page := Translate(c, m, x.addr / PAGE, x.kind).page;
    UnmappedIsNoMemory(c);
    hide Translate, Granted;
    if page >= 0 {
      TranslateExactly(c, m, x.addr / PAGE, x.kind, page);
      assert GrantedAt(c, m, x, page + x.addr % PAGE);
    }
  }

  /** Byte a is one that this store may write. */
  ghost predicate StoredAt(c: Config, m: Memory, x: Access, a: nat)
    requires c.Ok()
  {
    x.kind.Store? && exists p: nat :: GrantedAt(c, m, x, p) && p <= a < p + x.len
  }

  /** An access changes what it is granted to store, and the accessed and dirty bits of its leaf. */
  lemma OnlyGrantedChanges(c: Config, m: Memory, x: Access, a: nat)
    requires c.Ok() && OkAccess(x)
    ensures var m1 := Slow(c, m, x).0; Get(m1, a) != Get(m, a) ==>
      StoredAt(c, m, x, a) || (MarkedAt(c, m, x, a) && OnlyMarks(Get(m, a), Get(m1, a), x.kind))
  {
    TranslateMarks(c, m, x, a);
    var t := Translate(c, m, x.addr / PAGE, x.kind);
    UnmappedIsNoMemory(c);
    if t.page >= 0 {
      TranslateExactly(c, m, x.addr / PAGE, x.kind, t.page);
    }
    hide Translate, Granted, MarkedAt;
    var p := Physical(t.page, x.addr);
    if x.kind.Store? && c.IsMem(p) {
      assert GrantedAt(c, m, x, p);
    }
  }

  // ---- runs ----

  /** Settings and memory after the first i operations, without a TLB. */
  function After(c: Config, m: Memory, ops: seq<Op>, i: nat): (r: (Config, Memory))
    requires c.Ok() && OkOps(ops) && i <= |ops|
    ensures r.0.Ok()
    decreases i
  {
    if i == 0 then (c, m)
    else match ops[0]
      case Root(r) => After(Rooted(c, r), m, ops[1..], i - 1)
      case Touch(x) => assert OkAccess(ops[0].x); After(c, Slow(c, m, x).0, ops[1..], i - 1)
  }

  /** How many of the first i operations are accesses. */
  function Touches(ops: seq<Op>, i: nat): nat
    requires i <= |ops|
  {
    if i == 0 then 0 else (if ops[0].Touch? then 1 else 0) + Touches(ops[1..], i - 1)
  }

  /** Operation i stores to byte a, as it is granted; or has it as the flags of its leaf. */
  ghost predicate StoredBy(c: Config, m: Memory, ops: seq<Op>, i: nat, a: nat)
    requires c.Ok() && OkOps(ops) && i < |ops|
  {
    ops[i].Touch? && var (c1, m1) := After(c, m, ops, i); StoredAt(c1, m1, ops[i].x, a)
  }

  ghost predicate MarkedBy(c: Config, m: Memory, ops: seq<Op>, i: nat, a: nat)
    requires c.Ok() && OkOps(ops) && i < |ops|
  {
    ops[i].Touch? && var (c1, m1) := After(c, m, ops, i); MarkedAt(c1, m1, ops[i].x, a)
  }

  /** Accessed and dirty bits may have been set, and nothing else. */
  predicate MarkedUp(before: nat, after: nat) {
    && (Has(before, PTE_A) ==> Has(after, PTE_A)) && (Has(before, PTE_D) ==> Has(after, PTE_D))
    && after == before + (if Has(after, PTE_A) && !Has(before, PTE_A) then PTE_A else 0) +
         (if Has(after, PTE_D) && !Has(before, PTE_D) then PTE_D else 0)
  }

  /** In this memory byte a is explained by the operations. */
  ghost predicate Explained(c: Config, m: Memory, ops: seq<Op>, a: nat, after: nat)
    requires c.Ok() && OkOps(ops)
  {
    || after == Get(m, a)
    || (exists i: nat :: i < |ops| && StoredBy(c, m, ops, i, a))
    || (MarkedUp(Get(m, a), after) && exists i: nat :: i < |ops| && MarkedBy(c, m, ops, i, a))
  }

  /**
   In every run a byte of memory changes only where some access was granted to store to it, or had it as the
   flags of its leaf; in the second case only the accessed and dirty bits are set.
  */
  lemma {:induction false} RunProtects(c: Config, m: Memory, ops: seq<Op>, a: nat)
    requires c.Ok() && OkOps(ops)
    ensures Explained(c, m, ops, a, Get(SlowRun(c, m, ops).0, a))
    decreases |ops|
  {
    hide Slow, StoredAt, MarkedAt, Has;
    if ops != [] {
      var c1, m1 := c, m;
      match ops[0] {
        case Root(r) =>
          c1 := Rooted(c, r);
        case Touch(x) =>
          assert OkAccess(ops[0].x);
          m1 := Slow(c, m, x).0;
          OnlyGrantedChanges(c, m, x, a);
          FirstExplains(c, m, ops, a);
      }
      RunProtects(c1, m1, ops[1..], a);
      hide SlowRun, OnlyMarks;
      LaterExplains(c, m, ops, c1, m1, a, Get(SlowRun(c1, m1, ops[1..]).0, a));
    }
  }

  lemma FirstExplains(c: Config, m: Memory, ops: seq<Op>, a: nat)
    requires c.Ok() && OkOps(ops) && ops != [] && ops[0].Touch?
    ensures StoredAt(c, m, ops[0].x, a) ==> StoredBy(c, m, ops, 0, a)
    ensures MarkedAt(c, m, ops[0].x, a) ==> MarkedBy(c, m, ops, 0, a)
  {
    hide StoredAt, MarkedAt;
  }

  lemma LaterExplains(c: Config, m: Memory, ops: seq<Op>, c1: Config, m1: Memory, a: nat, after: nat)
    requires c.Ok() && OkOps(ops) && ops != [] && After(c, m, ops, 1) == (c1, m1)
    requires Explained(c1, m1, ops[1..], a, after)
    requires Get(m1, a) == Get(m, a) || StoredBy(c, m, ops, 0, a) ||
      (MarkedBy(c, m, ops, 0, a) && MarkedUp(Get(m, a), Get(m1, a)))
    ensures Explained(c, m, ops, a, after)
  {
    forall i: nat | i < |ops[1..]|
      ensures StoredBy(c1, m1, ops[1..], i, a) ==> StoredBy(c, m, ops, i + 1, a)
      ensures MarkedBy(c1, m1, ops[1..], i, a) ==> MarkedBy(c, m, ops, i + 1, a)
    {
      OneLater(c, m, ops, c1, m1, i);
      assert ops[1..][i] == ops[i + 1];
    }
    hide StoredBy, MarkedBy, Has;
  }

  lemma OneLater(c: Config, m: Memory, ops: seq<Op>, c1: Config, m1: Memory, i: nat)
    requires c.Ok() && OkOps(ops) && i < |ops| - 1 && After(c, m, ops, 1) == (c1, m1)
    ensures After(c, m, ops, i + 1) == After(c1, m1, ops[1..], i)
  {
    hide Slow;
    assert After(c, m, ops, 1) == match ops[0] case Root(r) => After(Rooted(c, r), m, ops[1..], 0)
      case Touch(x) => assert OkAccess(ops[0].x); After(c, Slow(c, m, x).0, ops[1..], 0);
  }

  /** Each result of a run is that of its access in the settings and memory of that moment. */
  lemma {:induction false} RunResults(c: Config, m: Memory, ops: seq<Op>, i: nat)
    requires c.Ok() && OkOps(ops) && i < |ops| && ops[i].Touch?
    ensures var (c1, m1) := After(c, m, ops, i); var rs := SlowRun(c, m, ops).1; var n := Touches(ops, i);
      n < |rs| && OkAccess(ops[i].x) && rs[n] == Slow(c1, m1, ops[i].x).1
    decreases |ops|
  {
    hide Slow;
    if i > 0 {
      assert ops[1..][i - 1] == ops[i];
      match ops[0] {
        case Root(r) =>
          RunResults(Rooted(c, r), m, ops[1..], i - 1);
        case Touch(x) =>
          assert OkAccess(ops[0].x);
          RunResults(c, Slow(c, m, x).0, ops[1..], i - 1);
      }
    }
  }

  /** Data of a run come from pages that were granted at that moment, and granted accesses are not refused. */
  lemma RunGrants(c: Config, m: Memory, ops: seq<Op>, i: nat)
    requires c.Ok() && OkOps(ops) && i < |ops| && ops[i].Touch?
    ensures var (c1, m1) := After(c, m, ops, i); var x := ops[i].x;
      var rs := SlowRun(c, m, ops).1; var n := Touches(ops, i);
      n < |rs| && OkAccess(x) &&
      (rs[n].Data? || rs[n].Done? <==> Aligned(x) && exists p: nat :: GrantedAt(c1, m1, x, p))
  {
    RunResults(c, m, ops, i);
    var (c1, m1) := After(c, m, ops, i);
    var x := ops[i].x;
    hide Slow, GrantedAt, SlowRun;
    if Slow(c1, m1, x).1.Data? || Slow(c1, m1, x).1.Done? {
      DoneIsGranted(c1, m1, x);
    }
    if Aligned(x) {
      if p: nat :| GrantedAt(c1, m1, x, p) {
        GrantedIsDone(c1, m1, x, p);
      }
    }
  }

  /** The same with the TLB, where it cannot be noticed. */
  lemma TlbProtects(c: Config, m: Memory, t: State, ops: seq<Op>, tables: iset<nat>, a: nat)
    requires c.Ok() && Flushed(t) && Whole(c, m) && OkOps(ops)
    requires Agreeing(c, m, Roots(c, ops), tables) && AllProtected(c, m, Roots(c, ops), tables) &&
      AllAvoid(c, m, ops, tables)
    ensures Explained(c, m, ops, a, Get(FastRun(c, m, t, ops).0, a))
  {
    TlbIsInvisible(c, m, t, ops, tables);
    hide Agreeing, AllProtected, AllAvoid, FastRun, SlowRun, Explained;
    RunProtects(c, m, ops, a);
  }

  lemma TlbGrants(c: Config, m: Memory, t: State, ops: seq<Op>, tables: iset<nat>, i: nat)
    requires c.Ok() && Flushed(t) && Whole(c, m) && OkOps(ops) && i < |ops| && ops[i].Touch?
    requires Agreeing(c, m, Roots(c, ops), tables) && AllProtected(c, m, Roots(c, ops), tables) &&
      AllAvoid(c, m, ops, tables)
    ensures var (c1, m1) := After(c, m, ops, i); var x := ops[i].x;
      var rs := FastRun(c, m, t, ops).1; var n := Touches(ops, i);
      n < |rs| && OkAccess(x) &&
      (rs[n].Data? || rs[n].Done? <==> Aligned(x) && exists p: nat :: GrantedAt(c1, m1, x, p))
  {
    TlbIsInvisible(c, m, t, ops, tables);
    hide Agreeing, AllProtected, AllAvoid, FastRun, SlowRun, GrantedAt, After;
    RunGrants(c, m, ops, i);
  }
}
