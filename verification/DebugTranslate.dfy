/**
 The debugger's own address translation.  It reads the page-table base and the entries it lacks from
 the target, one at a time, and then translates from its cache; the result is the MMU's.
*/
module DebugTranslate {
  import opened Words
  import opened Wrappers
  import opened Arith
  import opened Tlb
  import opened TlbAgrees
  import opened TlbProtection

  /** What the debugger has read from the target so far. */
  datatype Known = Known(sptbr: Option<nat>, ptes: map<nat, nat>)

  /** What it needs next. */
  datatype Need = Nothing | Sptbr | Pte(addr: nat)

  function EntryAddr(s: Scheme, vaddr: nat, base: nat, level: nat): nat {
    U64(base + vaddr / PAGE / Pow2(level * s.IndexBits()) % Pow2(s.IndexBits()) * s.PteSize())
  }

  /** The first entry on the way that is not cached. */
  function Missing(s: Scheme, ptes: map<nat, nat>, vaddr: nat, base: nat, level: nat): Need
    decreases level
  {
    var a := EntryAddr(s, vaddr, base, level);
    if a !in ptes then Pte(a)
    else if IsTable(ptes[a]) && level > 0 then Missing(s, ptes, vaddr, U64(ptes[a] / 1024 * PAGE), level - 1)
    else Nothing
  }

  function Wanted(s: Scheme, k: Known, vaddr: nat): Need {
    if s.Bare? then Nothing
    else if k.sptbr.None? then Sptbr
    else Missing(s, k.ptes, vaddr, U64(k.sptbr.value * PAGE), s.Levels() - 1)
  }

  /** The answer of the target is noted. */
  function Learn(k: Known, need: Need, answer: nat): Known {
    match need
    case Nothing => k
    case Sptbr => k.(sptbr := Some(answer))
    case Pte(a) => k.(ptes := k.ptes[a := answer])
  }

  /** Reads until nothing is wanted any more or the answers run out; also how many answers were used. */
  function Collect(s: Scheme, k: Known, vaddr: nat, answers: seq<nat>): (Known, nat)
    decreases |answers|
  {
    if Wanted(s, k, vaddr).Nothing? || answers == [] then (k, 0)
    else
      var (k1, n) := Collect(s, Learn(k, Wanted(s, k, vaddr), answers[0]), vaddr, answers[1..]);
      (k1, n + 1)
  }

  /** How many entries on the way are cached, before the first one that is not. */
  function Cached(s: Scheme, ptes: map<nat, nat>, vaddr: nat, base: nat, level: nat): (n: nat)
    ensures n <= level + 1
    ensures Missing(s, ptes, vaddr, base, level).Pte? ==> n <= level
    decreases level
  {
    var a := EntryAddr(s, vaddr, base, level);
    if a !in ptes then 0
    else if IsTable(ptes[a]) && level > 0 then 1 + Cached(s, ptes, vaddr, U64(ptes[a] / 1024 * PAGE), level - 1)
    else 1
  }

  /** The reads still needed at most. */
  function Bound(s: Scheme, k: Known, vaddr: nat): nat {
    if s.Bare? then 0
    else if k.sptbr.None? then 1 + s.Levels()
    else s.Levels() - Cached(s, k.ptes, vaddr, U64(k.sptbr.value * PAGE), s.Levels() - 1)
  }

  /** Reading a missing entry extends the cached part of the way. */
  lemma {:induction false} OneMore(s: Scheme, ptes: map<nat, nat>, vaddr: nat, base: nat, level: nat, answer: nat)
    requires Missing(s, ptes, vaddr, base, level).Pte?
    ensures var a := Missing(s, ptes, vaddr, base, level).addr;
      Cached(s, ptes[a := answer], vaddr, base, level) > Cached(s, ptes, vaddr, base, level)
    decreases level
  {
    var a := EntryAddr(s, vaddr, base, level);
    if a in ptes {
      StillMissing(s, ptes, vaddr, U64(ptes[a] / 1024 * PAGE), level - 1);
      OneMore(s, ptes, vaddr, U64(ptes[a] / 1024 * PAGE), level - 1, answer);
    }
  }

  /** What is missing is not cached. */
  lemma {:induction false} StillMissing(s: Scheme, ptes: map<nat, nat>, vaddr: nat, base: nat, level: nat)
    ensures Missing(s, ptes, vaddr, base, level).Pte? ==> Missing(s, ptes, vaddr, base, level).addr !in ptes
    decreases level
  {
    var a := EntryAddr(s, vaddr, base, level);
    if a in ptes && level > 0 {
      StillMissing(s, ptes, vaddr, U64(ptes[a] / 1024 * PAGE), level - 1);
    }
  }

  lemma LearnShortens(s: Scheme, k: Known, vaddr: nat, answer: nat)
    requires !Wanted(s, k, vaddr).Nothing?
    ensures Bound(s, Learn(k, Wanted(s, k, vaddr), answer), vaddr) < Bound(s, k, vaddr)
  {
    if k.sptbr.Some? {
      OneMore(s, k.ptes, vaddr, U64(k.sptbr.value * PAGE), s.Levels() - 1, answer);
    }
  }

  /**
   Whatever the target answers, the collection ends after at most one read of the table base, if it is
   not known, and one read for each level.
  */
  lemma {:induction false} CollectEnds(s: Scheme, k: Known, vaddr: nat, answers: seq<nat>)
    requires |answers| >= Bound(s, k, vaddr)
    ensures var (k1, n) := Collect(s, k, vaddr, answers); Wanted(s, k1, vaddr).Nothing? && n <= Bound(s, k, vaddr)
    ensures Bound(s, k, vaddr) <= (if k.sptbr.None? then 1 else 0) + s.Levels()
    decreases |answers|
  {
    if !Wanted(s, k, vaddr).Nothing? {
      NeedsAnAnswer(s, k, vaddr);
      LearnShortens(s, k, vaddr, answers[0]);
      CollectEnds(s, Learn(k, Wanted(s, k, vaddr), answers[0]), vaddr, answers[1..]);
    }
  }

  lemma NeedsAnAnswer(s: Scheme, k: Known, vaddr: nat)
    requires !Wanted(s, k, vaddr).Nothing?
    ensures Bound(s, k, vaddr) > 0
  {
  }

  // ---- translation from the cache ----

  datatype Answer = Address(paddr: nat) | Invalid | Dies

  function FromCache(s: Scheme, ptes: map<nat, nat>, vaddr: nat, base: nat, level: nat): Answer
    decreases level
  {
    var a := EntryAddr(s, vaddr, base, level);
    if a !in ptes then Dies
    else if IsTable(ptes[a]) then
      if level == 0 then Invalid else FromCache(s, ptes, vaddr, U64(ptes[a] / 1024 * PAGE), level - 1)
    else
      Address(U64(Or(ptes[a] / 1024, vaddr / PAGE % Pow2(level * s.IndexBits())) * PAGE) + vaddr % PAGE)
  }

  /** The debugger's notion of virtual memory: none in machine mode, also if MPRV lends it. */
  function VirtualMemory(prv: Privilege, mprv: bool, mpp: Privilege, vm: Scheme): Scheme {
    var mode := if mprv then mpp else prv;
    if mode.Machine? then Bare else vm
  }

  function SchemeOf(c: Config): Scheme { VirtualMemory(c.prv, c.mprv, c.mpp, c.scheme) }

  /** It translates exactly the loads that the halted program would have translated. */
  lemma SameScheme(c: Config)
    requires !c.debug
    ensures SchemeOf(c) == if Direct(c, Load) then Bare else c.scheme
  {
  }

  function TranslateDebug(s: Scheme, k: Known, vaddr: nat): Answer
    requires k.sptbr.Some?
  {
    if s.Bare? then Address(vaddr)
    else FromCache(s, k.ptes, vaddr, U64(k.sptbr.value * PAGE), s.Levels() - 1)
  }

  lemma {:induction false} CompleteNeverDies(s: Scheme, ptes: map<nat, nat>, vaddr: nat, base: nat, level: nat)
    ensures Missing(s, ptes, vaddr, base, level).Nothing? <==> !FromCache(s, ptes, vaddr, base, level).Dies?
    decreases level
  {
    var a := EntryAddr(s, vaddr, base, level);
    if a in ptes && level > 0 {
      CompleteNeverDies(s, ptes, vaddr, U64(ptes[a] / 1024 * PAGE), level - 1);
    }
  }

  /** Translation dies exactly when an entry on the way has not been collected. */
  lemma DiesWithoutCollecting(s: Scheme, k: Known, vaddr: nat)
    requires k.sptbr.Some?
    ensures TranslateDebug(s, k, vaddr).Dies? <==> !Wanted(s, k, vaddr).Nothing?
  {
    if !s.Bare? {
      CompleteNeverDies(s, k.ptes, vaddr, U64(k.sptbr.value * PAGE), s.Levels() - 1);
    }
  }

  // ---- agreement with the MMU ----

  /** The entry as the target's memory holds it. */
  function PteOf(c: Config, m: Memory, a: nat): nat { Get(m, a) + 256 * Rest(m, a + 1, c.scheme.PteSize() - 1) }

  ghost predicate Bytes(m: Memory) { forall a: nat :: a in m ==> m[a] < 256 }

  /** The cache holds what memory holds. */
  ghost predicate Truthful(c: Config, m: Memory, ptes: map<nat, nat>) {
    forall a: nat :: a in ptes ==> ptes[a] == PteOf(c, m, a)
  }

  lemma SplitPte(flags: nat, rest: nat)
    requires flags < 256
    ensures (flags + 256 * rest) / 1024 == rest / 4
    ensures IsTable(flags + 256 * rest) <==> IsTable(flags)
  {
    LowBits(flags, 4 * rest);
    EvenSum(flags / 2, 64 * rest);
    EvenSum(flags / 4, 32 * rest);
    EvenSum(flags / 8, 16 * rest);
    EvenSum(flags / 16, 8 * rest);
    Quarter(flags, rest);
    TableByBits(flags, flags + 256 * rest);
  }

  lemma Quarter(flags: nat, rest: nat)
    requires flags < 256
    ensures (flags + 256 * rest) / 1024 == rest / 4
  {
    assert (flags + 256 * rest) / 256 == rest;
  }

  lemma TableByBits(f: nat, g: nat)
    requires g % 2 == f % 2 && g / 2 % 2 == f / 2 % 2 && g / 4 % 2 == f / 4 % 2 && g / 8 % 2 == f / 8 % 2
    ensures IsTable(g) <==> IsTable(f)
  {
  }

  /** The way to p: the first entry that is no pointer maps its page, whatever it grants. */
  ghost predicate MapsTo(c: Config, m: Memory, vaddr: nat, table: nat, level: nat, entries: seq<nat>, p: nat) {
    && Way(c, m, vaddr / PAGE, table, level, entries) && !Pointer(Get(m, entries[|entries| - 1]))
    && p == PageAt(c, m, vaddr / PAGE, entries[|entries| - 1], level + 1 - |entries|) + vaddr % PAGE
  }

  /** A way of pointers alone. */
  ghost predicate MapsNowhere(c: Config, m: Memory, vaddr: nat, table: nat, level: nat, entries: seq<nat>) {
    Way(c, m, vaddr / PAGE, table, level, entries) && |entries| == level + 1 && Pointer(Get(m, entries[level]))
  }

  /** The entries on the way say what the answer is. */
  ghost predicate Says(c: Config, m: Memory, vaddr: nat, table: nat, level: nat, entries: seq<nat>, r: Answer) {
    match r
    case Address(p) => MapsTo(c, m, vaddr, table, level, entries, p)
    case Invalid => MapsNowhere(c, m, vaddr, table, level, entries)
    case Dies => false
  }

  lemma CachedEntry(c: Config, m: Memory, ptes: map<nat, nat>, vaddr: nat, table: nat, level: nat)
    requires Bytes(m) && Truthful(c, m, ptes)
    ensures var a := EntryIn(c, vaddr / PAGE, table, level);
      && a == EntryAddr(c.scheme, vaddr, U64(table * PAGE), level)
      && (a in ptes ==> ptes[a] / 1024 == Ppn(c, m, a) && (IsTable(ptes[a]) <==> Pointer(Get(m, a))))
  {
    var a := EntryIn(c, vaddr / PAGE, table, level);
    SplitPte(Get(m, a), Rest(m, a + 1, c.scheme.PteSize() - 1));
    FlagBits(c, Get(m, a), Load);
    hide IsTable, Pointer, Rest, Pow2;
  }

  /** The answer tells of a way. */
  lemma {:induction false} AnswerHasWay(c: Config, m: Memory, ptes: map<nat, nat>, vaddr: nat, table: nat, level: nat)
      returns (entries: seq<nat>)
    requires Bytes(m) && Truthful(c, m, ptes)
    requires !FromCache(c.scheme, ptes, vaddr, U64(table * PAGE), level).Dies?
    ensures Says(c, m, vaddr, table, level, entries, FromCache(c.scheme, ptes, vaddr, U64(table * PAGE), level))
    decreases level
  {
    CachedEntry(c, m, ptes, vaddr, table, level);
    var a := EntryIn(c, vaddr / PAGE, table, level);
    hide EntryIn, EntryAddr, IsTable, Pointer, Ppn, Or;
    if IsTable(ptes[a]) && level > 0 {
      var rest := AnswerHasWay(c, m, ptes, vaddr, Ppn(c, m, a), level - 1);
      entries := [a] + rest;
      LongerWay(c, m, vaddr / PAGE, table, level, a, rest);
    } else {
      entries := [a];
    }
  }

  /** There is one way at most. */
  lemma {:induction false} OneWay(c: Config, m: Memory, vpn: nat, table: nat, level: nat, e1: seq<nat>, e2: seq<nat>)
    requires Way(c, m, vpn, table, level, e1) && Way(c, m, vpn, table, level, e2)
    requires |e1| == level + 1 || !Pointer(Get(m, e1[|e1| - 1]))
    requires |e2| == level + 1 || !Pointer(Get(m, e2[|e2| - 1]))
    ensures e1 == e2
    decreases level
  {
    hide EntryIn, Pointer, Ppn;
    if |e1| > 1 && |e2| > 1 {
      ShorterWay(c, m, vpn, table, level, e1);
      ShorterWay(c, m, vpn, table, level, e2);
      OneWay(c, m, vpn, Ppn(c, m, e1[0]), level - 1, e1[1..], e2[1..]);
      assert e1 == [e1[0]] + e1[1..] && e2 == [e2[0]] + e2[1..];
    } else {
      assert |e1| == 1 && |e2| == 1;
    }
  }

  lemma OneAnswer(c: Config, m: Memory, vaddr: nat, table: nat, level: nat, e1: seq<nat>, r1: Answer, e2: seq<nat>,
      r2: Answer)
    requires Says(c, m, vaddr, table, level, e1, r1) && Says(c, m, vaddr, table, level, e2, r2)
    ensures r1 == r2
  {
    hide Way, Pointer, PageAt;
    OneWay(c, m, vaddr / PAGE, table, level, e1, e2);
  }

  /**
   What the debugger answers once it has collected: the address itself where nothing is translated, otherwise
   that of the first entry that is no pointer, and an error if all are pointers.
  */
  lemma AnswersExactly(c: Config, m: Memory, k: Known, vaddr: nat, r: Answer)
    requires !c.debug && Bytes(m) && Truthful(c, m, k.ptes) && k.sptbr == Some(c.sptbr)
    requires Wanted(SchemeOf(c), k, vaddr).Nothing?
    ensures TranslateDebug(SchemeOf(c), k, vaddr) == r <==>
      if Direct(c, Load) then r == Address(vaddr)
      else exists entries: seq<nat> :: Says(c, m, vaddr, c.sptbr, Top(c), entries, r)
  {
    SameScheme(c);
    DiesWithoutCollecting(SchemeOf(c), k, vaddr);
    hide SchemeOf, Wanted, FromCache, Says, Truthful, Bytes;
    if !Direct(c, Load) {
      var entries := AnswerHasWay(c, m, k.ptes, vaddr, c.sptbr, Top(c));
      if e: seq<nat> :| Says(c, m, vaddr, c.sptbr, Top(c), e, r) {
        OneAnswer(c, m, vaddr, c.sptbr, Top(c), entries, TranslateDebug(SchemeOf(c), k, vaddr), e, r);
      }
    }
  }

  /** The level of the root table, if there is one. */
  function Top(c: Config): nat { if c.scheme.Bare? then 0 else c.scheme.Levels() - 1 }

  /**
   After collecting, with a cache that agrees with memory, the debugger translates to the address that the MMU
   finds for an access with the same privilege, whenever it finds one.
  */
  lemma DebuggerAgreesWithMmu(c: Config, m: Memory, k: Known, vaddr: nat, kind: Kind)
    requires c.Ok() && !c.debug && Bytes(m) && Truthful(c, m, k.ptes) && k.sptbr == Some(c.sptbr)
    requires Wanted(SchemeOf(c), k, vaddr).Nothing? && vaddr < Pow2(c.xlen)
    requires Effective(c, kind) == Effective(c, Load)
    ensures var t := Translate(c, m, vaddr / PAGE, kind);
      t.page >= 0 ==> TranslateDebug(SchemeOf(c), k, vaddr) == Address(Physical(t.page, vaddr))
  {
    hide Translate, TranslateDebug, Wanted, Truthful, SchemeOf, Granted, Says, Pow2, Bytes;
    var page := Translate(c, m, vaddr / PAGE, kind).page;
    if page >= 0 {
      AnswersExactly(c, m, k, vaddr, Address(Physical(page, vaddr)));
      TranslateExactly(c, m, vaddr / PAGE, kind, page);
      if Direct(c, kind) {
        DirectAddress(c, m, vaddr, kind, page);
      } else {
        var entries := GrantedSays(c, m, vaddr, kind, page);
      }
    }
  }

  lemma DirectAddress(c: Config, m: Memory, vaddr: nat, kind: Kind, page: nat)
    requires c.Ok() && Direct(c, kind) && Granted(c, m, vaddr / PAGE, kind, page) && vaddr < Pow2(c.xlen)
    ensures page + vaddr % PAGE == vaddr
  {
    InsideSpace(vaddr, c.xlen);
    hide Pow2;
  }

  /** The way of an access that is granted. */
  lemma GrantedSays(c: Config, m: Memory, vaddr: nat, kind: Kind, page: nat) returns (entries: seq<nat>)
    requires c.Ok() && !Direct(c, kind) && Granted(c, m, vaddr / PAGE, kind, page)
    ensures Says(c, m, vaddr, c.sptbr, Top(c), entries, Address(page + vaddr % PAGE))
  {
    var pte: nat :| Leads(c, m, vaddr / PAGE, kind, pte, page);
    entries :| LeadsBy(c, m, vaddr / PAGE, kind, entries, pte, page);
    hide Way, Pointer, PageAt, Grants;
  }

  lemma InsideSpace(vaddr: nat, xlen: nat)
    requires vaddr < Pow2(xlen)
    ensures vaddr / PAGE * PAGE % Pow2(xlen) + vaddr % PAGE == vaddr
  {
    hide Pow2;
    Division(vaddr, PAGE);
    QuotientUnique(vaddr / PAGE * PAGE, Pow2(xlen), 0);
  }

  /** Reading from the target keeps the cache true to memory. */
  lemma {:induction false} CollectStaysTruthful(c: Config, m: Memory, k: Known, vaddr: nat, answers: seq<nat>)
    requires Truthful(c, m, k.ptes) && Honest(c, m, k, vaddr, answers) && (k.sptbr.Some? ==> k.sptbr.value == c.sptbr)
    ensures var k1 := Collect(SchemeOf(c), k, vaddr, answers).0;
      Truthful(c, m, k1.ptes) && (k1.sptbr.Some? ==> k1.sptbr.value == c.sptbr)
    decreases |answers|
  {
    hide PteOf, Missing;
    if !Wanted(SchemeOf(c), k, vaddr).Nothing? && answers != [] {
      CollectStaysTruthful(c, m, Learn(k, Wanted(SchemeOf(c), k, vaddr), answers[0]), vaddr, answers[1..]);
    }
  }

  /** The target answers with what it holds. */
  ghost predicate Honest(c: Config, m: Memory, k: Known, vaddr: nat, answers: seq<nat>)
    decreases |answers|
  {
    var need := Wanted(SchemeOf(c), k, vaddr);
    need.Nothing? || answers == [] ||
      (answers[0] == (match need case Sptbr => c.sptbr case Pte(a) => PteOf(c, m, a) case Nothing => 0)
       && Honest(c, m, Learn(k, need, answers[0]), vaddr, answers[1..]))
  }

  // ---- the operation and the server as objects ----

  datatype Stage = Start | ReadSptbr | ReadPte

  class GdbServer {
    var prv: Privilege
    var mprv: bool
    var mpp: Privilege
    var vm: Scheme
    var sptbr: nat
    var sptbrValid: bool
    var pteCache: map<nat, nat>

    function Contents(): Known reads this { Known(if sptbrValid then Some(sptbr) else None, pteCache) }

    function Scheme(): Scheme reads this { VirtualMemory(prv, mprv, mpp, vm) }

    /** The registers that the halted target has been asked for. */
    constructor (prv: Privilege, mprv: bool, mpp: Privilege, vm: Scheme)
      ensures Scheme() == VirtualMemory(prv, mprv, mpp, vm) && Contents() == Known(None, map[])
    {
      this.prv, this.mprv, this.mpp, this.vm := prv, mprv, mpp, vm;
      sptbr, sptbrValid, pteCache := 0, false, map[];
    }

    method PrivilegeMode() returns (mode: Privilege)
      ensures mode == if mprv then mpp else prv
    {
      mode := prv;
      if mprv {
        mode := mpp;
      }
    }

    method FindScheme() returns (scheme: Scheme)
      ensures scheme == Scheme()
    {
      var mode := PrivilegeMode();
      if mode.Machine? {
        return Bare;
      }
      return vm;
    }

    /** Translates from the cache alone; a missing entry ends the server. */
    method Translate(vaddr: nat) returns (r: Answer)
      requires sptbrValid
      ensures r == TranslateDebug(Scheme(), Contents(), vaddr)
    {
      var scheme := FindScheme();
      if scheme.Bare? {
        return Address(vaddr);
      }
      var base := U64(sptbr * PAGE);
      var level: nat := scheme.Levels() - 1;
      while true
        invariant FromCache(scheme, pteCache, vaddr, U64(sptbr * PAGE), scheme.Levels() - 1) ==
          FromCache(scheme, pteCache, vaddr, base, level)
        decreases level
      {
        var pteAddr := EntryAddr(scheme, vaddr, base, level);
        if pteAddr !in pteCache {
          return Dies;
        }
        var pte := pteCache[pteAddr];
        if !IsTable(pte) {
          return Address(U64(Or(pte / 1024, vaddr / PAGE % Pow2(level * scheme.IndexBits())) * PAGE) + vaddr % PAGE);
        }
        if level == 0 {
          return Invalid;
        }
        base := U64(pte / 1024 * PAGE);
        level := level - 1;
      }
    }
  }

  class CollectTranslationInfoOp {
    const gs: GdbServer
    const vaddr: nat
    var stage: Stage
    var pteAddr: nat

    constructor (gs: GdbServer, vaddr: nat)
      ensures this.gs == gs && this.vaddr == vaddr && stage == Start
    {
      this.gs, this.vaddr, stage, pteAddr := gs, vaddr, Start, 0;
    }

    /** What the last step asked for. */
    function Asked(): Need reads this {
      match stage case Start => Nothing case ReadSptbr => Sptbr case ReadPte => Pte(pteAddr)
    }

    /** Notes the answer to the last request, and asks for the next thing that is missing. */
    method PerformStep(answer: nat) returns (done: bool)
      requires gs.Scheme().Bare? ==> stage.Start?
      modifies this`stage, this`pteAddr, gs`sptbr, gs`sptbrValid, gs`pteCache
      ensures gs.Contents() == Learn(old(gs.Contents()), old(Asked()), answer)
      ensures done == Wanted(gs.Scheme(), gs.Contents(), vaddr).Nothing?
      ensures !done ==> Asked() == Wanted(gs.Scheme(), gs.Contents(), vaddr)
    {
      var scheme := gs.FindScheme();
      if scheme.Bare? {
        return true;
      }
      match stage {
        case Start =>
        case ReadSptbr =>
          gs.sptbr := answer;
          gs.sptbrValid := true;
        case ReadPte =>
          gs.pteCache := gs.pteCache[pteAddr := answer];
      }
      if !gs.sptbrValid {
        stage := ReadSptbr;
        return false;
      }
      var base := U64(gs.sptbr * PAGE);
      var level: nat := scheme.Levels() - 1;
      while true
        invariant gs.Contents() == Learn(old(gs.Contents()), old(Asked()), answer) && gs.sptbrValid
        invariant Wanted(scheme, gs.Contents(), vaddr) == Missing(scheme, gs.pteCache, vaddr, base, level)
        decreases level
      {
        pteAddr := EntryAddr(scheme, vaddr, base, level);
        if pteAddr !in gs.pteCache {
          stage := ReadPte;
          return false;
        }
        var pte := gs.pteCache[pteAddr];
        if !IsTable(pte) || level == 0 {
          return true;
        }
        base := U64(pte / 1024 * PAGE);
        level := level - 1;
      }
    }
  }
}
