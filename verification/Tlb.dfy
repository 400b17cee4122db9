/**
 Address translation with a software TLB in front of the page-table walk (sections 4.5 to 4.7 of the
 RISC-V Privileged Architecture 1.9.1).  A hit gives what the walk would give, in value and in memory.
*/
module Tlb {
  import opened Arith
  import opened Words

  const PAGE := 4096
  const PAGES := 0x10_0000_0000_0000
  const TLB_ENTRIES := 256
  const NO_TAG := W64 - 1

  datatype Kind = Fetch | Load | Store

  datatype Scheme = Bare | Sv32 | Sv39 | Sv48 {
    function Levels(): nat { match this case Bare => 0 case Sv32 => 2 case Sv39 => 3 case Sv48 => 4 }
    function IndexBits(): nat { if this.Sv32? then 10 else 9 }
    function PteSize(): nat { if this.Sv32? then 4 else 8 }
  }

  datatype Privilege = User | Supervisor | Machine

  /** What translation depends on beside memory; any change of it but of sptbr goes with a flush. */
  datatype Config = Config(
    scheme: Scheme, xlen: nat, sptbr: nat, prv: Privilege, mprv: bool, mpp: Privilege, debug: bool,
        pum: bool, mxr: bool,
    memBase: nat, memSize: nat)
  {
    predicate Ok() {
      && (xlen == 32 || xlen == 64) && (xlen == 32 ==> scheme.Bare? || scheme.Sv32?) && (scheme.Sv32? ==> xlen == 32)
      && memBase % PAGE == 0 && memSize % PAGE == 0 && memBase + memSize < W64
    }

    /** addr_is_mem. */
    predicate IsMem(a: nat) { memBase <= a < memBase + memSize }

    /** The privilege an access is made with; without translation every access counts as one in machine mode. */
    function Mode(kind: Kind): Privilege {
      if scheme.Bare? then Machine
      else if !kind.Fetch? && !debug && mprv then mpp
      else prv
    }
  }

  // ---- memory ----

  type Memory = map<nat, nat>

  function Get(m: Memory, a: nat): nat { if a in m then m[a] else 0 }

  function ReadBytes(m: Memory, a: nat, len: nat): seq<nat> { seq<nat>(len, i requires 0 <= i < len => Get(m, a + i)) }

  function WriteBytes(m: Memory, a: nat, bytes: seq<nat>): (r: Memory)
    ensures forall x: nat :: !(a <= x < a + |bytes|) ==> Get(r, x) == Get(m, x)
    ensures forall x: nat :: x in m ==> x in r
    decreases |bytes|
  {
    if bytes == [] then m else WriteBytes(m[a := bytes[0]], a + 1, bytes[1..])
  }

  // ---- page table entries: the flags are the first byte, everything else follows ----

  predicate V(flags: nat) { flags % 2 == 1 }
  predicate R(flags: nat) { flags / 2 % 2 == 1 }
  predicate W(flags: nat) { flags / 4 % 2 == 1 }
  predicate X(flags: nat) { flags / 8 % 2 == 1 }
  predicate U(flags: nat) { flags / 16 % 2 == 1 }
  predicate A(flags: nat) { flags / 64 % 2 == 1 }
  predicate D(flags: nat) { flags / 128 % 2 == 1 }

  predicate IsTable(flags: nat) { V(flags) && !R(flags) && !W(flags) && !X(flags) }

  /** Sets the accessed bit, and the dirty bit for a store. */
  function Marked(flags: nat, kind: Kind): nat {
    var f := if A(flags) then flags else flags + 64;
    if kind.Store? && !D(f) then f + 128 else f
  }

  /** The number in the bytes behind the flags. */
  function Rest(m: Memory, a: nat, n: nat): nat
    decreases n
  {
    if n == 0 then 0 else Get(m, a) + 256 * Rest(m, a + 1, n - 1)
  }

  function Ppn(c: Config, m: Memory, pte: nat): nat { Rest(m, pte + 1, c.scheme.PteSize() - 1) / 4 }

  /** Bitwise or. */
  function Or(a: nat, b: nat): nat {
    if a == 0 then b else if b == 0 then a
    else 2 * Or(a / 2, b / 2) + (if a % 2 == 1 || b % 2 == 1 then 1 else 0)
  }

  predicate Allowed(c: Config, flags: nat, kind: Kind) {
    && !(if U(flags) then c.Mode(kind).Supervisor? && c.pum else !c.Mode(kind).Supervisor?)
    && V(flags) && (R(flags) || !W(flags))
    && match kind
       case Fetch => X(flags)
       case Load => R(flags) || (c.mxr && X(flags))
       case Store => R(flags) && W(flags)
  }

  // ---- the walk ----

  datatype Leaf = NoLeaf | Leaf(pte: nat, page: nat)

  function PteAddr(c: Config, vpn: nat, base: nat, level: nat): nat {
    U64(base + vpn / Pow2(level * c.scheme.IndexBits()) % Pow2(c.scheme.IndexBits()) * c.scheme.PteSize())
  }

  /** The walk from the table at base, with level more tables below it. */
  function WalkFrom(c: Config, m: Memory, vpn: nat, kind: Kind, base: nat, level: nat): Leaf
    decreases level
  {
    var pte := PteAddr(c, vpn, base, level);
    if !c.IsMem(pte) then NoLeaf
    else if IsTable(Get(m, pte)) then
      if level == 0 then NoLeaf else WalkFrom(c, m, vpn, kind, U64(Ppn(c, m, pte) * PAGE), level - 1)
    else if !Allowed(c, Get(m, pte), kind) then NoLeaf
    else Leaf(pte, U64(Or(Ppn(c, m, pte), vpn % Pow2(level * c.scheme.IndexBits())) * PAGE))
  }

  /** The bits above the virtual address must all be equal. */
  predicate Canonical(c: Config, vpn: nat) {
    var high := c.scheme.Levels() * c.scheme.IndexBits() - 1;
    high >= 0 && c.xlen - 12 - high >= 0 &&
    var msbs := vpn / Pow2(high) % Pow2(c.xlen - 12 - high);
    msbs == 0 || msbs == Pow2(c.xlen - 12 - high) - 1
  }

  function Walk(c: Config, m: Memory, vpn: nat, kind: Kind): Leaf {
    if c.scheme.Bare? || !Canonical(c, vpn) then NoLeaf
    else WalkFrom(c, m, vpn, kind, U64(c.sptbr * PAGE), c.scheme.Levels() - 1)
  }

  datatype Translation = Translation(mem: Memory, page: int)

  /** The page a virtual page is translated to, -1 if there is none, and the memory with the bits set. */
  function Translate(c: Config, m: Memory, vpn: nat, kind: Kind): Translation {
    if c.Mode(kind).Machine? then Translation(m, vpn * PAGE % Pow2(c.xlen))
    else match Walk(c, m, vpn, kind)
      case NoLeaf => Translation(m, -1)
      case Leaf(pte, page) => Translation(m[pte := Marked(Get(m, pte), kind)], page)
  }

  /** The physical address: all ones if the page is not mapped. */
  function Physical(page: int, addr: nat): nat { if page < 0 then W64 - 1 else page + addr % PAGE }

  // ---- accesses without a TLB ----

  datatype Result = Data(bytes: seq<nat>) | Done | Device(paddr: nat) | Misaligned

  datatype Access = Access(kind: Kind, addr: nat, len: nat, bytes: seq<nat>)

  predicate OkAccess(x: Access) { 0 < x.len && x.addr < W64 && |x.bytes| == x.len }

  /** The memory after an access to physical address p, and its result. */
  function Perform(c: Config, m: Memory, x: Access, p: nat): (Memory, Result) {
    if !c.IsMem(p) then (m, Device(p))
    else if x.kind.Store? then (WriteBytes(m, p, x.bytes), Done)
    else (m, Data(ReadBytes(m, p, x.len)))
  }

  /** The slow path: translate, then access. */
  function Slow(c: Config, m: Memory, x: Access): (Memory, Result)
    requires OkAccess(x)
  {
    if !x.kind.Fetch? && x.addr % x.len != 0 then (m, Misaligned)
    else
      var t := Translate(c, m, x.addr / PAGE, x.kind);
      Perform(c, t.mem, x, Physical(t.page, x.addr))
  }

  // ---- the TLB ----

  datatype State = State(insnTag: seq<nat>, loadTag: seq<nat>, storeTag: seq<nat>, offset: seq<int>) {
    predicate Shape() { |insnTag| == |loadTag| == |storeTag| == |offset| == TLB_ENTRIES }
    function Tag(kind: Kind, i: nat): nat
      requires Shape() && i < TLB_ENTRIES
    {
      match kind case Fetch => insnTag[i] case Load => loadTag[i] case Store => storeTag[i]
    }
  }

  predicate Flushed(t: State) {
    t.Shape() && forall i :: 0 <= i < TLB_ENTRIES ==> t.insnTag[i] == t.loadTag[i] == t.storeTag[i] == NO_TAG
  }

  /** Only tags of the same page survive beside the new one, since they share the offset. */
  function Refill(t: State, vaddr: nat, paddr: nat, kind: Kind): (r: State)
    requires t.Shape()
    ensures r.Shape()
  {
    var vpn := vaddr / PAGE;
    var i := vpn % TLB_ENTRIES;
    var t1 := t.(loadTag := if t.loadTag[i] != vpn then t.loadTag[i := NO_TAG] else t.loadTag,
                 storeTag := if t.storeTag[i] != vpn then t.storeTag[i := NO_TAG] else t.storeTag,
                 insnTag := if t.insnTag[i] != vpn then t.insnTag[i := NO_TAG] else t.insnTag,
                 offset := t.offset[i := paddr - vaddr]);
    match kind
    case Fetch => t1.(insnTag := t1.insnTag[i := vpn])
    case Store => t1.(storeTag := t1.storeTag[i := vpn])
    case Load => t1.(loadTag := t1.loadTag[i := vpn])
  }

  predicate Hit(t: State, x: Access)
    requires t.Shape()
  {
    t.Tag(x.kind, x.addr / PAGE % TLB_ENTRIES) == x.addr / PAGE
  }

  /** An access through the TLB. */
  function Fast(c: Config, m: Memory, t: State, x: Access): (r: (Memory, State, Result))
    requires t.Shape() && OkAccess(x)
    ensures r.1.Shape()
  {
    if !x.kind.Fetch? && x.addr % x.len != 0 then (m, t, Misaligned)
    else if Hit(t, x) then
      var p := t.offset[x.addr / PAGE % TLB_ENTRIES] + x.addr;
      if p < 0 then (m, t, Device(0))
      else
        var (m1, r) := Through(m, x, p);
        (m1, t, r)
    else
      var tr := Translate(c, m, x.addr / PAGE, x.kind);
      var p := Physical(tr.page, x.addr);
      var (m1, r) := Perform(c, tr.mem, x, p);
      (m1, if c.IsMem(p) then Refill(t, x.addr, p, x.kind) else t, r)
  }

  /** A hit goes to host memory without asking whether the address is one of memory. */
  function Through(m: Memory, x: Access, p: nat): (Memory, Result) {
    if x.kind.Store? then (WriteBytes(m, p, x.bytes), Done) else (m, Data(ReadBytes(m, p, x.len)))
  }
}
