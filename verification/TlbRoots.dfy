/**
 Writing the root of the page tables flushes nothing.  What a page cached under one root needs, so that it
 is right under another one.
*/
module TlbRoots {
  import opened Words
  import opened Arith
  import opened Tlb
  import opened TlbAgrees

  /** The page that an access of this kind is translated to is one of memory. */
  predicate Mapped(c: Config, m: Memory, vpn: nat, kind: Kind) {
    var page := Translate(c, m, vpn, kind).page; page >= 0 && c.IsMem(page)
  }

  /**
   A page mapped under the settings c is mapped to the same place under d, by the same entry or by one whose
   bits are set already.
  */
  predicate SameFor(c: Config, d: Config, m: Memory, vpn: nat, kind: Kind) {
    !c.Mode(kind).Machine? && Mapped(c, m, vpn, kind) ==>
      var w, v := Walk(c, m, vpn, kind), Walk(d, m, vpn, kind);
      v.Leaf? && v.page == w.page && (v.pte == w.pte || Marked(Get(m, v.pte), kind) == Get(m, v.pte))
  }

  ghost predicate Free(page: nat, o: nat, tables: iset<nat>) { o < PAGE && page + o !in tables }

  /** A program that leaves the tables alone never stores to a page that they fill. */
  ghost predicate Touchable(c: Config, m: Memory, vpn: nat, kind: Kind, tables: iset<nat>) {
    kind.Store? ==>
      var page := Translate(c, m, vpn, kind).page;
      page >= 0 && exists o: nat :: Free(page, o, tables)
  }

  /** Every page that may be accessed under c is the same under d. */
  ghost predicate RootsAgree(c: Config, d: Config, m: Memory, tables: iset<nat>) {
    forall vpn: nat, kind: Kind :: vpn < PAGES && Touchable(c, m, vpn, kind, tables) ==> SameFor(c, d, m, vpn, kind)
  }

  /** After a translation under c the same page is there under d, and has all its bits. */
  lemma TranslatedAlike(c: Config, d: Config, m: Memory, vpn: nat, kind: Kind)
    requires c.Ok() && Whole(c, m) && SameButRoot(c, d) && SameFor(c, d, m, vpn, kind) && Mapped(c, m, vpn, kind)
    ensures var t := Translate(c, m, vpn, kind); Translate(d, t.mem, vpn, kind) == Translation(t.mem, t.page)
  {
    hide Marked, WalkFrom, Canonical, PteAddr;
    var w := Walk(c, m, vpn, kind);
    if !c.Mode(kind).Machine? {
      LeafShape(c, m, vpn, kind, c.sptbr, c.scheme.Levels() - 1);
      MarkedWalk(d, m, w.pte, kind, vpn, kind);
      MarkedFlags(Get(m, w.pte), kind, kind);
      var m1 := m[w.pte := Marked(Get(m, w.pte), kind)];
      var v := Walk(d, m, vpn, kind);
      assert Marked(Get(m1, v.pte), kind) == Get(m1, v.pte);
      assert m1[v.pte := Get(m1, v.pte)] == m1;
    }
  }

  /** Setting the bits of an entry keeps this. */
  lemma SameAfterMark(c: Config, d: Config, m: Memory, q: nat, k: Kind, vpn: nat, kind: Kind)
    requires c.Ok() && Whole(c, m) && SameButRoot(c, d) && SameFor(c, d, m, vpn, kind)
    requires !c.scheme.Bare? && q % c.scheme.PteSize() == 0
    ensures SameFor(c, d, m[q := Marked(Get(m, q), k)], vpn, kind)
  {
    hide Marked, WalkFrom, Canonical, PteAddr;
    MarkedWalk(c, m, q, k, vpn, kind);
    MarkedWalk(d, m, q, k, vpn, kind);
    MarkedFlags(Get(m, q), k, kind);
  }

  lemma RootsAgreeAfterTranslate(e: Config, c: Config, d: Config, m: Memory, vpn: nat, kind: Kind, tables: iset<nat>)
    requires c.Ok() && Whole(c, m) && SameButRoot(c, d) && SameButRoot(e, c) && RootsAgree(c, d, m, tables)
    ensures RootsAgree(c, d, Translate(e, m, vpn, kind).mem, tables)
  {
    var m1 := Translate(e, m, vpn, kind).mem;
    forall v: nat, k: Kind | v < PAGES && Touchable(c, m1, v, k, tables) ensures SameFor(c, d, m1, v, k) {
      AfterTranslate(e, c, m, vpn, kind, v, k);
      SameAfterTranslate(e, c, d, m, vpn, kind, v, k, tables);
    }
  }

  lemma SameAfterTranslate(e: Config, c: Config, d: Config, m: Memory, vpn: nat, kind: Kind, v: nat, k: Kind,
      tables: iset<nat>)
    requires c.Ok() && Whole(c, m) && SameButRoot(c, d) && SameButRoot(e, c) && RootsAgree(c, d, m, tables)
    requires v < PAGES && Touchable(c, m, v, k, tables)
    ensures SameFor(c, d, Translate(e, m, vpn, kind).mem, v, k)
  {
    hide Marked, WalkFrom, SameFor, Touchable;
    var w := Walk(e, m, vpn, kind);
    if !e.Mode(kind).Machine? && w.Leaf? {
      LeafShape(e, m, vpn, kind, e.sptbr, e.scheme.Levels() - 1);
      SameAfterMark(c, d, m, w.pte, kind, v, k);
    }
  }

  /** So does whatever leaves the tables as they are. */
  lemma SameAfterWrite(c: Config, d: Config, m: Memory, m1: Memory, vpn: nat, kind: Kind, tables: iset<nat>)
    requires Protected(c, m, tables) && Protected(d, m, tables) && SameButRoot(c, d) && SameFor(c, d, m, vpn, kind)
    requires SameTables(c, m, m1, tables)
    ensures SameFor(c, d, m1, vpn, kind)
  {
    hide Marked, WalkFrom, Inside, Canonical;
    if !c.scheme.Bare? {
      WalkKept(c, m, m1, vpn, kind, tables);
      WalkKept(d, m, m1, vpn, kind, tables);
    }
  }

  lemma RootsAgreeAfterWrite(c: Config, d: Config, m: Memory, m1: Memory, tables: iset<nat>)
    requires Protected(c, m, tables) && Protected(d, m, tables) && SameButRoot(c, d) && RootsAgree(c, d, m, tables)
    requires Whole(c, m) && Whole(c, m1) && SameTables(c, m, m1, tables)
    ensures RootsAgree(c, d, m1, tables)
  {
    hide SameFor, Protected, SameTables, Translate;
    forall v: nat, k: Kind | v < PAGES && Touchable(c, m1, v, k, tables) ensures SameFor(c, d, m1, v, k) {
      TranslateAgrees(c, m, m1, v, k, tables);
      SameAfterWrite(c, d, m, m1, v, k, tables);
    }
  }
}
