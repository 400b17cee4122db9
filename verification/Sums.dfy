/** Weighted sums over sequences. */
module Sums {

  function Sum<T>(s: seq<T>, w: T -> nat): nat {
    if s == [] then 0 else w(s[0]) + Sum(s[1..], w)
  }

  lemma {:induction false} SumAppend<T>(s: seq<T>, t: seq<T>, w: T -> nat)
    ensures Sum(s + t, w) == Sum(s, w) + Sum(t, w)
  {
    if s == [] {
      assert s + t == t;
    } else {
      assert (s + t)[1..] == s[1..] + t;
      SumAppend(s[1..], t, w);
    }
  }

  lemma SumOne<T>(x: T, w: T -> nat)
    ensures Sum([x], w) == w(x)
  {
  }

  lemma SumPush<T>(s: seq<T>, x: T, w: T -> nat)
    ensures Sum(s + [x], w) == Sum(s, w) + w(x)
  {
    SumAppend(s, [x], w);
    SumOne(x, w);
  }

  lemma SumSplit<T>(s: seq<T>, i: nat, w: T -> nat)
    requires i < |s|
    ensures Sum(s, w) == Sum(s[..i], w) + w(s[i]) + Sum(s[i + 1..], w)
  {
    assert s == (s[..i] + [s[i]]) + s[i + 1..];
    SumAppend(s[..i] + [s[i]], s[i + 1..], w);
    SumPush(s[..i], s[i], w);
  }

  /** Taking element i out. */
  lemma SumRemove<T>(s: seq<T>, i: nat, w: T -> nat)
    requires i < |s|
    ensures Sum(s[..i] + s[i + 1..], w) + w(s[i]) == Sum(s, w)
  {
    SumSplit(s, i, w);
    SumAppend(s[..i], s[i + 1..], w);
  }

  /** Exchanging element i. */
  lemma SumUpdate<T>(s: seq<T>, i: nat, x: T, w: T -> nat)
    requires i < |s|
    ensures Sum(s[i := x], w) + w(s[i]) == Sum(s, w) + w(x)
  {
    SumSplit(s, i, w);
    SumSplit(s[i := x], i, w);
    assert s[i := x][..i] == s[..i] && s[i := x][i + 1..] == s[i + 1..];
  }

  /** A sum over elements that weigh the same. */
  lemma {:induction false} SumSame<T, U>(s: seq<T>, t: seq<U>, w: T -> nat, v: U -> nat)
    requires |s| == |t| && forall i :: 0 <= i < |s| ==> w(s[i]) == v(t[i])
    ensures Sum(s, w) == Sum(t, v)
  {
    if s != [] {
      assert w(s[0]) == v(t[0]);
      SumSame(s[1..], t[1..], w, v);
    }
  }

  /** Some element has weight when the sum is positive, and the other way round. */
  lemma {:induction false} SumPositive<T>(s: seq<T>, w: T -> nat)
    ensures Sum(s, w) > 0 <==> exists i :: 0 <= i < |s| && w(s[i]) > 0
  {
    if s != [] {
      SumPositive(s[1..], w);
      if exists i :: 0 <= i < |s| && w(s[i]) > 0 {
        var i :| 0 <= i < |s| && w(s[i]) > 0;
        assert i > 0 ==> s[1..][i - 1] == s[i];
      }
      if exists i :: 0 <= i < |s[1..]| && w(s[1..][i]) > 0 {
        var i :| 0 <= i < |s[1..]| && w(s[1..][i]) > 0;
        assert s[i + 1] == s[1..][i];
      }
    }
  }
}
