/** Selecting and translating the elements of a sequence. */
module Filters {
  import opened Wrappers
  import opened DramTypes

  function Filter<T, U>(s: seq<T>, f: T -> Option<U>): seq<U> {
    if s == [] then []
    else match f(s[0])
      case None => Filter(s[1..], f)
      case Some(u) => [u] + Filter(s[1..], f)
  }

  lemma {:induction false} FilterAppend<T, U>(s: seq<T>, t: seq<T>, f: T -> Option<U>)
    ensures Filter(s + t, f) == Filter(s, f) + Filter(t, f)
  {
    if s == [] {
      assert s + t == t;
    } else {
      assert (s + t)[1..] == s[1..] + t;
      FilterAppend(s[1..], t, f);
    }
  }

  lemma FilterPush<T, U>(s: seq<T>, x: T, f: T -> Option<U>)
    ensures Filter(s + [x], f) == Filter(s, f) + match f(x) { case None => [] case Some(u) => [u] }
  {
    FilterAppend(s, [x], f);
    assert Filter([x], f) == match f(x) { case None => [] case Some(u) => [u] };
  }

  lemma {:induction false} FilterNone<T, U>(s: seq<T>, f: T -> Option<U>)
    requires forall i :: 0 <= i < |s| ==> f(s[i]).None?
    ensures Filter(s, f) == []
  {
    if s != [] {
      FilterNone(s[1..], f);
    }
  }

  /** Taking out an element: it heads the selection if nothing before it is selected. */
  lemma FilterRemove<T, U>(s: seq<T>, i: nat, f: T -> Option<U>)
    requires i < |s|
    ensures f(s[i]).None? ==> Filter(s[..i] + s[i + 1..], f) == Filter(s, f)
    ensures f(s[i]).Some? && (forall j :: 0 <= j < i ==> f(s[j]).None?) ==>
      Filter(s, f) == [f(s[i]).value] + Filter(s[..i] + s[i + 1..], f)
  {
    hide Filter;
    FilterSplit(s, i, f);
    FilterAppend(s[..i], s[i + 1..], f);
    if forall j :: 0 <= j < i ==> f(s[j]).None? {
      FilterNone(s[..i], f);
    }
  }

  lemma FilterSplit<T, U>(s: seq<T>, i: nat, f: T -> Option<U>)
    requires i < |s|
    ensures Filter(s, f) ==
      Filter(s[..i], f) + (match f(s[i]) { case None => [] case Some(u) => [u] }) + Filter(s[i + 1..], f)
  {
    hide Filter;
    assert s == (s[..i] + [s[i]]) + s[i + 1..];
    FilterAppend(s[..i] + [s[i]], s[i + 1..], f);
    FilterPush(s[..i], s[i], f);
  }
}
