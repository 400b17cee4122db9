/** The MMU object: tag and offset arrays that are overwritten in place, and memory in which walks set bits. */
module Mmu {
  import opened Words
  import opened Arith
  import opened Tlb
  import opened TlbRuns

  /** Roots are page numbers of physical addresses, which have 34 or 50 bits. */
  function RootBound(xlen: nat): nat { if xlen == 32 then 0x40_0000 else 0x40_0000_0000 }

  class Mmu {
    var c: Config
    var mem: Memory
    const tlbInsnTag: array<nat>
    const tlbLoadTag: array<nat>
    const tlbStoreTag: array<nat>
    const tlbData: array<int>

    ghost predicate Valid() reads this, tlbInsnTag, tlbLoadTag, tlbStoreTag, tlbData {
      && tlbInsnTag.Length == tlbLoadTag.Length == tlbStoreTag.Length == tlbData.Length == TLB_ENTRIES
      && tlbInsnTag != tlbLoadTag && tlbInsnTag != tlbStoreTag && tlbLoadTag != tlbStoreTag
    }

    function Contents(): State reads this, tlbInsnTag, tlbLoadTag, tlbStoreTag, tlbData {
      State(tlbInsnTag[..], tlbLoadTag[..], tlbStoreTag[..], tlbData[..])
    }

    constructor (c: Config, mem: Memory)
      ensures this.c == c && this.mem == mem && Valid() && Flushed(Contents())
      ensures fresh(tlbInsnTag) && fresh(tlbLoadTag) && fresh(tlbStoreTag) && fresh(tlbData)
    {
      this.c, this.mem := c, mem;
      tlbInsnTag, tlbLoadTag := new nat[TLB_ENTRIES], new nat[TLB_ENTRIES];
      tlbStoreTag, tlbData := new nat[TLB_ENTRIES], new int[TLB_ENTRIES];
      new;
      FlushTlb();
    }

    method FlushTlb()
      requires Valid()
      modifies tlbInsnTag, tlbLoadTag, tlbStoreTag
      ensures Valid() && Flushed(Contents())
    {
      for i := 0 to TLB_ENTRIES
        invariant forall j :: 0 <= j < i ==> tlbInsnTag[j] == tlbLoadTag[j] == tlbStoreTag[j] == NO_TAG
      {
        tlbInsnTag[i], tlbLoadTag[i], tlbStoreTag[i] := NO_TAG, NO_TAG, NO_TAG;
      }
    }

    /** A change of privilege, or of the status bits that translation depends on. */
    method SetStatus(prv: Privilege, scheme: Scheme, mprv: bool, mpp: Privilege, pum: bool, mxr: bool)
      requires Valid()
      modifies this`c, tlbInsnTag, tlbLoadTag, tlbStoreTag
      ensures Valid() && Flushed(Contents())
      ensures c == old(c).(prv := prv, scheme := scheme, mprv := mprv, mpp := mpp, pum := pum, mxr := mxr)
    {
      FlushTlb();
      c := c.(prv := prv, scheme := scheme, mprv := mprv, mpp := mpp, pum := pum, mxr := mxr);
    }

    /** Writing the root of the page tables flushes nothing. */
    method SetSptbr(v: nat)
      requires Valid()
      modifies this`c
      ensures Valid() && Contents() == old(Contents())
      ensures c == Rooted(old(c), v % RootBound(old(c).xlen))
    {
      c := c.(sptbr := v % RootBound(c.xlen));
    }

    /** The page-table walk: one table for each round, down to a leaf whose bits it sets. */
    method WalkTables(vpn: nat, kind: Kind) returns (page: int)
      requires Valid() && !c.scheme.Bare?
      modifies this`mem
      ensures match Walk(c, old(mem), vpn, kind)
              case NoLeaf => page == -1 && mem == old(mem)
              case Leaf(pte, p) => page == p && mem == old(mem)[pte := Marked(Get(old(mem), pte), kind)]
    {
      if !Canonical(c, vpn) {
        return -1;
      }
      var base := U64(c.sptbr * PAGE);
      var level: nat := c.scheme.Levels() - 1;
      while true
        invariant mem == old(mem) && Walk(c, mem, vpn, kind) == WalkFrom(c, mem, vpn, kind, base, level)
        decreases level
      {
        var pteAddr := PteAddr(c, vpn, base, level);
        if !c.IsMem(pteAddr) {
          return -1;
        }
        var flags := Get(mem, pteAddr);
        var ppn := Ppn(c, mem, pteAddr);
        if IsTable(flags) {
          if level == 0 {
            return -1;
          }
          base := U64(ppn * PAGE);
          level := level - 1;
        } else if !Allowed(c, flags, kind) {
          return -1;
        } else {
          mem := mem[pteAddr := Marked(flags, kind)];
          return U64(Or(ppn, vpn % Pow2(level * c.scheme.IndexBits())) * PAGE);
        }
      }
    }

    method TranslateAddr(addr: nat, kind: Kind) returns (paddr: nat)
      requires Valid() && c.Ok()
      modifies this`mem
      ensures var t := Translate(c, old(mem), addr / PAGE, kind); mem == t.mem && paddr == Physical(t.page, addr)
    {
      if c.Mode(kind).Machine? {
        DirectPage(addr, c.xlen);
        return addr % Pow2(c.xlen);
      }
      var page := WalkTables(addr / PAGE, kind);
      return if page < 0 then W64 - 1 else page + addr % PAGE;
    }

    method RefillTlb(vaddr: nat, paddr: nat, kind: Kind)
      requires Valid()
      modifies tlbInsnTag, tlbLoadTag, tlbStoreTag, tlbData
      ensures Valid() && Contents() == Refill(old(Contents()), vaddr, paddr, kind)
    {
      var vpn := vaddr / PAGE;
      var idx := vpn % TLB_ENTRIES;
      if tlbLoadTag[idx] != vpn {
        tlbLoadTag[idx] := NO_TAG;
      }
      if tlbStoreTag[idx] != vpn {
        tlbStoreTag[idx] := NO_TAG;
      }
      if tlbInsnTag[idx] != vpn {
        tlbInsnTag[idx] := NO_TAG;
      }
      match kind {
        case Fetch => tlbInsnTag[idx] := vpn;
        case Store => tlbStoreTag[idx] := vpn;
        case Load => tlbLoadTag[idx] := vpn;
      }
      tlbData[idx] := paddr - vaddr;
      assert Contents() == Refill(old(Contents()), vaddr, paddr, kind);
    }

    /** A load, a store or a fetch: through the TLB on a hit, otherwise along the slow path. */
    method AccessMemory(x: Access) returns (r: Result)
      requires Valid() && c.Ok() && OkAccess(x)
      modifies this`mem, tlbInsnTag, tlbLoadTag, tlbStoreTag, tlbData
      ensures Valid() && (mem, Contents(), r) == Fast(c, old(mem), old(Contents()), x)
    {
      hide Refill, Translate, Physical;
      if !x.kind.Fetch? && x.addr % x.len != 0 {
        return Misaligned;
      }
      var vpn := x.addr / PAGE;
      var tag := match x.kind
        case Fetch => tlbInsnTag[vpn % TLB_ENTRIES]
        case Load => tlbLoadTag[vpn % TLB_ENTRIES]
        case Store => tlbStoreTag[vpn % TLB_ENTRIES];
      if tag == vpn {
        var p := tlbData[vpn % TLB_ENTRIES] + x.addr;
        if p < 0 {
          return Device(0);
        }
        mem, r := Through(mem, x, p).0, Through(mem, x, p).1;
      } else {
        var paddr := TranslateAddr(x.addr, x.kind);
        if c.IsMem(paddr) {
          mem, r := Perform(c, mem, x, paddr).0, Perform(c, mem, x, paddr).1;
          RefillTlb(x.addr, paddr, x.kind);
        } else {
          r := Device(paddr);
        }
      }
    }
  }

  /** Without translation the page and the offset are cut from the address together. */
  lemma DirectPage(addr: nat, xlen: nat)
    requires xlen == 32 || xlen == 64
    ensures 0 <= addr % Pow2(xlen) && addr % Pow2(xlen) == addr / PAGE * PAGE % Pow2(xlen) + addr % PAGE
    ensures addr / PAGE * PAGE % Pow2(xlen) >= 0
  {
    Pow2Small();
    Pow2Add(32, 32);
    hide Pow2;
    CutTogether(addr, 0x10_0000);
    CutTogether(addr, 0x10_0000_0000_0000);
  }

  lemma CutTogether(addr: nat, pages: nat)
    requires pages > 0
    ensures addr % (pages * PAGE) == addr / PAGE * PAGE % (pages * PAGE) + addr % PAGE
  {
    var v, off := addr / PAGE, addr % PAGE;
    var q, r := v / pages, v % pages;
    Division(v, pages);
    assert v * PAGE == q * (pages * PAGE) + r * PAGE;
    QuotientUnique(v * PAGE, pages * PAGE, q);
    QuotientUnique(addr, pages * PAGE, q);
  }
}
