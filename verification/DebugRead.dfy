/**
 Reading memory for the debugger.  Only the first address is translated; from there on physical addresses are
 counted up, across page boundaries too.
*/
module DebugRead {
  import opened Words
  import opened Wrappers
  import opened Arith
  import opened Tlb
  import opened TlbAgrees
  import opened TlbProtection
  import opened DebugTranslate

  /** find_access_size: the widest access that fits the address and the length. */
  function AccessSize(xlen: nat, paddr: nat, length: nat): (n: nat)
    ensures n > 0 && length % n == 0
  {
    if paddr % 8 == 0 && length % 8 == 0 && xlen >= 64 then 8
    else if paddr % 4 == 0 && length % 4 == 0 then 4
    else 1
  }

  /** The lowest n bytes of a value, the lowest first. */
  function LowBytes(value: nat, n: nat): (bytes: seq<nat>)
    ensures |bytes| == n
    decreases n
  {
    if n == 0 then [] else [value % 256] + LowBytes(value / 256, n - 1)
  }

  class MemoryReadOp {
    var paddr: nat
    var length: nat
    const accessSize: nat
    var buf: seq<nat>

    /** The first step: the address is translated already. */
    constructor (xlen: nat, paddr: nat, length: nat)
      requires length > 0
      ensures this.paddr == paddr && this.length == length && buf == []
      ensures accessSize == AccessSize(xlen, paddr, length)
    {
      this.paddr, this.length, buf := paddr, length, [];
      accessSize := AccessSize(xlen, paddr, length);
    }

    /** Takes the bytes of the value that the target has read, and asks for the next one. */
    method PerformStep(answer: nat) returns (done: bool)
      requires length >= accessSize
      modifies this
      ensures buf == old(buf) + LowBytes(answer, accessSize)
      ensures length == old(length) - accessSize && paddr == old(paddr) + accessSize && done == (length == 0)
    {
      var value := answer;
      for i := 0 to accessSize
        invariant length == old(length) && paddr == old(paddr)
        invariant old(buf) + LowBytes(answer, accessSize) == buf + LowBytes(value, accessSize - i)
      {
        assert old(buf) + LowBytes(answer, accessSize) ==
          (buf + [value % 256]) + LowBytes(value / 256, accessSize - i - 1);
        buf := buf + [value % 256];
        value := value / 256;
      }
      length := length - accessSize;
      paddr := paddr + accessSize;
      return length == 0;
    }
  }

  // ---- all the steps ----

  /** What the steps of one size put together from memory. */
  function ReadAll(m: Memory, paddr: nat, length: nat, size: nat): seq<nat>
    requires size > 0 && length % size == 0
    decreases length
  {
    if length == 0 then []
    else
      OneLess(length, size);
      LowBytes(Rest(m, paddr, size), size) + ReadAll(m, paddr + size, length - size, size)
  }

  lemma OneLess(length: nat, size: nat)
    requires size > 0 && length > 0 && length % size == 0
    ensures length >= size && (length - size) % size == 0
  {
    var q := length / size;
    assert length == q * size;
    assert length - size == (q - 1) * size + 0;
    QuotientUnique(length - size, size, q - 1);
  }

  lemma {:induction false} WordBytes(m: Memory, a: nat, n: nat)
    requires Bytes(m)
    ensures LowBytes(Rest(m, a, n), n) == ReadBytes(m, a, n)
    decreases n
  {
    if n > 0 {
      WordBytes(m, a + 1, n - 1);
      assert ReadBytes(m, a, n) == [Get(m, a)] + ReadBytes(m, a + 1, n - 1);
    }
  }

  /** Whatever the access size, the steps give the bytes from the physical address on. */
  lemma {:induction false} StepsReadBytes(m: Memory, paddr: nat, length: nat, size: nat)
    requires Bytes(m) && size > 0 && length % size == 0
    ensures ReadAll(m, paddr, length, size) == ReadBytes(m, paddr, length)
    decreases length
  {
    if length > 0 {
      OneLess(length, size);
      WordBytes(m, paddr, size);
      StepsReadBytes(m, paddr + size, length - size, size);
      assert ReadBytes(m, paddr, length) == ReadBytes(m, paddr, size) + ReadBytes(m, paddr + size, length - size);
    }
  }

  // ---- against the MMU ----

  /** Byte i behind vaddr is mapped for a load. */
  predicate MappedAt(c: Config, m: Memory, vaddr: nat, i: nat) { Translate(c, m, (vaddr + i) / PAGE, Load).page >= 0 }

  predicate AllMapped(c: Config, m: Memory, vaddr: nat, length: nat) {
    length > 0 && forall i: nat :: i < length ==> MappedAt(c, m, vaddr, i)
  }

  /** Where the MMU finds it. */
  function AddrAt(c: Config, m: Memory, vaddr: nat, i: nat): nat
    requires MappedAt(c, m, vaddr, i)
  {
    Physical(Translate(c, m, (vaddr + i) / PAGE, Load).page, vaddr + i)
  }

  function MmuBytes(c: Config, m: Memory, vaddr: nat, length: nat): (bytes: seq<nat>)
    requires AllMapped(c, m, vaddr, length)
    ensures |bytes| == length && forall i: nat :: i < length ==> bytes[i] == Get(m, AddrAt(c, m, vaddr, i))
  {
    seq(length, i requires 0 <= i < length => Get(m, AddrAt(c, m, vaddr, i)))
  }

  /** What the debugger reports, if it can translate the first address. */
  function DebugBytes(c: Config, k: Known, m: Memory, vaddr: nat, length: nat): Option<seq<nat>>
    requires k.sptbr.Some?
  {
    match TranslateDebug(SchemeOf(c), k, vaddr)
    case Address(p) => Some(ReadAll(m, p, length, AccessSize(c.xlen, p, length)))
    case _ => None
  }

  /** Memory that holds the same bytes in the page tables. */
  ghost predicate SameBytes(c: Config, m: Memory, m1: Memory, tables: iset<nat>) {
    Whole(c, m1) && forall a: nat :: a in tables ==> Get(m1, a) == Get(m, a)
  }

  /** Byte i lies i bytes behind the first one in physical memory. */
  predicate Follows(c: Config, m: Memory, vaddr: nat, i: nat)
    requires MappedAt(c, m, vaddr, 0) && MappedAt(c, m, vaddr, i)
  {
    AddrAt(c, m, vaddr, i) == AddrAt(c, m, vaddr, 0) + i
  }

  /** Byte i and the byte that is reported for it are page-table bytes, and equal. */
  ghost predicate SameEntryByte(c: Config, m: Memory, tables: iset<nat>, vaddr: nat, i: nat)
    requires MappedAt(c, m, vaddr, 0) && MappedAt(c, m, vaddr, i)
  {
    var p, q := AddrAt(c, m, vaddr, 0) + i, AddrAt(c, m, vaddr, i);
    p in tables && q in tables && Get(m, p) == Get(m, q)
  }

  /** Byte i lies where the debugger reads it, or both places hold the same page-table byte. */
  ghost predicate RightAt(c: Config, m: Memory, tables: iset<nat>, vaddr: nat, i: nat)
    requires MappedAt(c, m, vaddr, 0) && MappedAt(c, m, vaddr, i)
  {
    Follows(c, m, vaddr, i) || SameEntryByte(c, m, tables, vaddr, i)
  }

  /** In every memory with these page tables the debugger reports what the MMU reads. */
  ghost predicate ReportsRight(c: Config, k: Known, m: Memory, tables: iset<nat>, vaddr: nat, length: nat)
    requires k.sptbr.Some?
  {
    forall m1: Memory :: SameBytes(c, m, m1, tables) && Bytes(m1) && AllMapped(c, m1, vaddr, length) ==>
      DebugBytes(c, k, m1, vaddr, length) == Some(MmuBytes(c, m1, vaddr, length))
  }

  /** What the debugger knows: it has collected for vaddr, if it needs to, and its cache is true to memory. */
  ghost predicate Collected(c: Config, k: Known, m: Memory, vaddr: nat) {
    && c.Ok() && !c.debug && vaddr < Pow2(c.xlen) && Bytes(m) && Truthful(c, m, k.ptes) && k.sptbr == Some(c.sptbr)
    && Wanted(SchemeOf(c), k, vaddr).Nothing?
  }

  lemma SameAddress(c: Config, m: Memory, m1: Memory, tables: iset<nat>, vaddr: nat, i: nat)
    requires Whole(c, m) && Protected(c, m, tables) && SameBytes(c, m, m1, tables) && MappedAt(c, m, vaddr, i)
    ensures MappedAt(c, m1, vaddr, i) && AddrAt(c, m1, vaddr, i) == AddrAt(c, m, vaddr, i)
  {
    hide Translate, Protected;
    TranslateAgrees(c, m, m1, (vaddr + i) / PAGE, Load, tables);
  }

  lemma SameAddresses(c: Config, m: Memory, m1: Memory, tables: iset<nat>, vaddr: nat, length: nat)
    requires Whole(c, m) && Protected(c, m, tables) && SameBytes(c, m, m1, tables)
    requires AllMapped(c, m, vaddr, length)
    ensures AllMapped(c, m1, vaddr, length)
    ensures forall i: nat :: i < length ==> AddrAt(c, m1, vaddr, i) == AddrAt(c, m, vaddr, i)
  {
    hide MappedAt, AddrAt, Protected, SameBytes;
    forall i: nat | i < length
      ensures MappedAt(c, m1, vaddr, i) && AddrAt(c, m1, vaddr, i) == AddrAt(c, m, vaddr, i)
    {
      SameAddress(c, m, m1, tables, vaddr, i);
    }
  }

  /** The debugger reports the bytes behind the address that the MMU finds for the first one. */
  lemma ReportsFromFirst(c: Config, k: Known, m: Memory, m1: Memory, vaddr: nat, length: nat)
    requires Collected(c, k, m, vaddr) && Bytes(m1) && MappedAt(c, m, vaddr, 0)
    ensures DebugBytes(c, k, m1, vaddr, length) == Some(ReadBytes(m1, AddrAt(c, m, vaddr, 0), length))
  {
    hide Translate, Wanted, TranslateDebug, ReadAll, SchemeOf, Pow2;
    DebuggerAgreesWithMmu(c, m, k, vaddr, Load);
    var p := AddrAt(c, m, vaddr, 0);
    StepsReadBytes(m1, p, length, AccessSize(c.xlen, p, length));
  }

  /** A byte that the MMU finds elsewhere is reported wrongly in some memory, unless page tables hold it twice. */
  lemma GapShows(c: Config, k: Known, m: Memory, tables: iset<nat>, vaddr: nat, length: nat, i: nat)
    requires Collected(c, k, m, vaddr) && Whole(c, m) && Protected(c, m, tables)
    requires AllMapped(c, m, vaddr, length) && i < length && !RightAt(c, m, tables, vaddr, i)
    ensures !ReportsRight(c, k, m, tables, vaddr, length)
  {
    hide MappedAt, AddrAt, Collected, DebugBytes, Protected, Whole, MmuBytes, SameBytes;
    KnowsRoot(c, k, m, vaddr);
    var p, q := AddrAt(c, m, vaddr, 0) + i, AddrAt(c, m, vaddr, i);
    if p !in tables {
      var v := if Get(m, q) == 0 then 1 else 0;
      Poked(c, m, tables, p, v);
      WrongByte(c, k, m, m[p := v], tables, vaddr, length, i);
    } else if q !in tables {
      var v := if Get(m, p) == 0 then 1 else 0;
      Poked(c, m, tables, q, v);
      WrongByte(c, k, m, m[q := v], tables, vaddr, length, i);
    } else {
      Itself(c, k, m, tables, vaddr);
      WrongByte(c, k, m, m, tables, vaddr, length, i);
    }
  }

  lemma Itself(c: Config, k: Known, m: Memory, tables: iset<nat>, vaddr: nat)
    requires Collected(c, k, m, vaddr) && Whole(c, m)
    ensures SameBytes(c, m, m, tables) && Bytes(m)
  {
  }

  /** A memory where the two bytes differ. */
  lemma WrongByte(c: Config, k: Known, m: Memory, m1: Memory, tables: iset<nat>, vaddr: nat, length: nat, i: nat)
    requires Collected(c, k, m, vaddr) && Whole(c, m) && Protected(c, m, tables)
    requires SameBytes(c, m, m1, tables) && Bytes(m1)
    requires AllMapped(c, m, vaddr, length) && i < length
    requires Get(m1, AddrAt(c, m, vaddr, 0) + i) != Get(m1, AddrAt(c, m, vaddr, i))
    ensures !ReportsRight(c, k, m, tables, vaddr, length)
  {
    hide MappedAt, AddrAt, Wanted, Truthful, DebugBytes, Protected, MmuBytes, SameBytes;
    SameAddresses(c, m, m1, tables, vaddr, length);
    ReportsFromFirst(c, k, m, m1, vaddr, length);
    ByteAt(m1, AddrAt(c, m, vaddr, 0), length, i);
    assert MmuBytes(c, m1, vaddr, length)[i] == Get(m1, AddrAt(c, m, vaddr, i));
  }

  lemma Poked(c: Config, m: Memory, tables: iset<nat>, x: nat, v: nat)
    requires Whole(c, m) && Bytes(m) && x !in tables && v < 256
    ensures SameBytes(c, m, m[x := v], tables) && Bytes(m[x := v])
  {
  }

  lemma ByteAt(m: Memory, p: nat, length: nat, i: nat)
    requires i < length
    ensures ReadBytes(m, p, length)[i] == Get(m, p + i)
  {
  }

  lemma NoGapIsRight(c: Config, k: Known, m: Memory, tables: iset<nat>, vaddr: nat, length: nat, m1: Memory)
    requires Collected(c, k, m, vaddr) && Whole(c, m) && Protected(c, m, tables) && AllMapped(c, m, vaddr, length)
    requires forall i: nat :: i < length ==> RightAt(c, m, tables, vaddr, i)
    requires SameBytes(c, m, m1, tables) && Bytes(m1)
    ensures AllMapped(c, m1, vaddr, length)
    ensures DebugBytes(c, k, m1, vaddr, length) == Some(MmuBytes(c, m1, vaddr, length))
  {
    hide MappedAt, AddrAt, Wanted, Truthful, DebugBytes, Protected, MmuBytes;
    SameAddresses(c, m, m1, tables, vaddr, length);
    ReportsFromFirst(c, k, m, m1, vaddr, length);
    var bytes := ReadBytes(m1, AddrAt(c, m, vaddr, 0), length);
    forall i: nat | i < length ensures bytes[i] == MmuBytes(c, m1, vaddr, length)[i] {
      assert RightAt(c, m, tables, vaddr, i);
    }
    assert bytes == MmuBytes(c, m1, vaddr, length);
  }

  /**
   After collecting for the first address, a read reports what the MMU reads, whatever memory holds, if and
   only if every byte lies as far behind the first one in physical memory as in virtual memory, but for equal
   bytes of page tables.
  */
  lemma ReadsRightExactly(c: Config, k: Known, m: Memory, tables: iset<nat>, vaddr: nat, length: nat)
    requires Collected(c, k, m, vaddr) && Whole(c, m) && Protected(c, m, tables) && AllMapped(c, m, vaddr, length)
    ensures ReportsRight(c, k, m, tables, vaddr, length) <==>
      forall i: nat :: i < length ==> RightAt(c, m, tables, vaddr, i)
  {
    hide MappedAt, AddrAt, Collected, DebugBytes, Protected, SameBytes, RightAt, Whole, MmuBytes;
    KnowsRoot(c, k, m, vaddr);
    if forall i: nat :: i < length ==> RightAt(c, m, tables, vaddr, i) {
      forall m1: Memory | SameBytes(c, m, m1, tables) && Bytes(m1) && AllMapped(c, m1, vaddr, length)
        ensures DebugBytes(c, k, m1, vaddr, length) == Some(MmuBytes(c, m1, vaddr, length))
      {
        NoGapIsRight(c, k, m, tables, vaddr, length, m1);
      }
    } else {
      var i: nat :| i < length && !RightAt(c, m, tables, vaddr, i);
      GapShows(c, k, m, tables, vaddr, length, i);
    }
  }

  lemma KnowsRoot(c: Config, k: Known, m: Memory, vaddr: nat)
    requires Collected(c, k, m, vaddr)
    ensures k.sptbr.Some? && Bytes(m)
  {
  }

  /** Where loads are not translated, every read is right that ends inside the address space. */
  lemma DirectIsRight(c: Config, k: Known, m: Memory, tables: iset<nat>, vaddr: nat, length: nat)
    requires Collected(c, k, m, vaddr) && Whole(c, m) && Protected(c, m, tables)
    requires Direct(c, Load) && 0 < length && vaddr + length <= Pow2(c.xlen)
    ensures k.sptbr.Some? && AllMapped(c, m, vaddr, length) && ReportsRight(c, k, m, tables, vaddr, length)
  {
    KnowsRoot(c, k, m, vaddr);
    hide Collected, Protected, Whole, ReportsRight, Pow2;
    forall i: nat | i < length ensures MappedAt(c, m, vaddr, i) && AddrAt(c, m, vaddr, i) == vaddr + i {
      InsideSpace(vaddr + i, c.xlen);
    }
    hide MappedAt, AddrAt;
    assert forall i: nat :: i < length ==> Follows(c, m, vaddr, i);
    hide Follows;
    ReadsRightExactly(c, k, m, tables, vaddr, length);
  }

  /** A read inside one page is always right. */
  lemma OnePageIsRight(c: Config, k: Known, m: Memory, tables: iset<nat>, vaddr: nat, length: nat)
    requires Collected(c, k, m, vaddr) && Whole(c, m) && Protected(c, m, tables) && AllMapped(c, m, vaddr, length)
    requires vaddr % PAGE + length <= PAGE
    ensures k.sptbr.Some? && ReportsRight(c, k, m, tables, vaddr, length)
  {
    KnowsRoot(c, k, m, vaddr);
    OnePageIsContiguous(c, m, vaddr, length);
    hide MappedAt, AddrAt, Collected, Follows, Protected, Whole, ReportsRight;
    ReadsRightExactly(c, k, m, tables, vaddr, length);
  }

  lemma OnePageIsContiguous(c: Config, m: Memory, vaddr: nat, length: nat)
    requires AllMapped(c, m, vaddr, length) && vaddr % PAGE + length <= PAGE
    ensures forall i: nat :: i < length ==> Follows(c, m, vaddr, i)
  {
    hide Translate;
    forall i: nat | i < length ensures Follows(c, m, vaddr, i) {
      SamePageOffset(vaddr, i);
      SamePageOffset(vaddr, 0);
    }
  }

  lemma SamePageOffset(vaddr: nat, i: nat)
    requires vaddr % PAGE + i < PAGE
    ensures (vaddr + i) / PAGE == vaddr / PAGE && (vaddr + i) % PAGE == vaddr % PAGE + i
  {
  }
}
