/** Facts about sequences that several modules need spelled out. */
module Sequences {

  lemma Associative<T>(a: seq<T>, b: seq<T>, c: seq<T>)
    ensures a + (b + c) == (a + b) + c
  {
  }

  /** The sequence without its element at k. */
  function Cut<T>(s: seq<T>, k: nat): seq<T>
    requires k < |s|
  {
    s[..k] + s[k + 1..]
  }

  lemma MultisetCut<T>(s: seq<T>, k: nat)
    requires k < |s|
    ensures multiset(Cut(s, k)) == multiset(s) - multiset{s[k]}
  {
    assert s == s[..k] + ([s[k]] + s[k + 1..]);
  }

  /** The first element of a rearrangement can be taken out of both sides. */
  lemma CutSame<T>(a: seq<T>, b: seq<T>) returns (k: nat)
    requires a != [] && multiset(a) == multiset(b)
    ensures k < |b| && b[k] == a[0] && multiset(Cut(a, 0)) == multiset(Cut(b, k))
  {
    assert a[0] in multiset(b);
    k :| 0 <= k < |b| && b[k] == a[0];
    MultisetCut(a, 0);
    MultisetCut(b, k);
  }

  // ---------------------------------------------------------------- filters

  /** The elements with the property, in order. */
  function Filter<T>(s: seq<T>, p: T -> bool): seq<T>
  {
    if s == [] then []
    else
      var n := |s| - 1;
      Filter(s[..n], p) + (if p(s[n]) then [s[n]] else [])
  }

  lemma {:induction false} FilterNone<T>(s: seq<T>, p: T -> bool)
    requires forall i :: 0 <= i < |s| ==> !p(s[i])
    ensures Filter(s, p) == []
  {
    if s != [] { FilterNone(s[..|s| - 1], p); }
  }

  lemma {:induction false} FilterAll<T>(s: seq<T>, p: T -> bool)
    requires forall i :: 0 <= i < |s| ==> p(s[i])
    ensures Filter(s, p) == s
  {
    if s != [] {
      FilterAll(s[..|s| - 1], p);
      assert s == s[..|s| - 1] + [s[|s| - 1]];
    }
  }

  lemma {:induction false} FilterConcat<T>(a: seq<T>, b: seq<T>, p: T -> bool)
    ensures Filter(a + b, p) == Filter(a, p) + Filter(b, p)
    decreases |b|
  {
    if b == [] {
      assert a + b == a;
    } else {
      var n := |b| - 1;
      FilterConcat(a, b[..n], p);
      assert (a + b)[..|a + b| - 1] == a + b[..n];
      Associative(Filter(a, p), Filter(b[..n], p), if p(b[n]) then [b[n]] else []);
    }
  }

  /** When the elements with the property are those from `lo` up to `hi`, the filter is that slice. */
  lemma FilterIsSlice<T>(s: seq<T>, p: T -> bool, lo: nat, hi: nat)
    requires lo <= hi <= |s| && forall i :: 0 <= i < |s| ==> (p(s[i]) <==> lo <= i < hi)
    ensures Filter(s, p) == s[lo..hi]
  {
    hide Filter;
    FilterNoneSlice(s, p, 0, lo);
    FilterAllSlice(s, p, lo, hi);
    FilterNoneSlice(s, p, hi, |s|);
    ThreeParts(s, lo, hi);
    FilterParts(s[0..lo], s[lo..hi], s[hi..|s|], p);
  }

  lemma ThreeParts<T>(s: seq<T>, lo: nat, hi: nat)
    requires lo <= hi <= |s|
    ensures s == (s[0..lo] + s[lo..hi]) + s[hi..|s|]
  {
  }

  lemma FilterNoneSlice<T>(s: seq<T>, p: T -> bool, lo: nat, hi: nat)
    requires lo <= hi <= |s| && forall i :: lo <= i < hi ==> !p(s[i])
    ensures Filter(s[lo..hi], p) == []
  {
    hide Filter;
    FilterNone(s[lo..hi], p);
  }

  lemma FilterAllSlice<T>(s: seq<T>, p: T -> bool, lo: nat, hi: nat)
    requires lo <= hi <= |s| && forall i :: lo <= i < hi ==> p(s[i])
    ensures Filter(s[lo..hi], p) == s[lo..hi]
  {
    hide Filter;
    FilterAll(s[lo..hi], p);
  }

  lemma FilterParts<T>(a: seq<T>, b: seq<T>, c: seq<T>, p: T -> bool)
    requires Filter(a, p) == [] && Filter(c, p) == []
    ensures Filter((a + b) + c, p) == Filter(b, p)
  {
    hide Filter;
    FilterConcat(a + b, c, p);
    FilterConcat(a, b, p);
  }

  lemma {:induction false} FilterMember<T>(s: seq<T>, p: T -> bool, x: T)
    ensures x in Filter(s, p) <==> x in s && p(x)
  {
    if s != [] {
      var n := |s| - 1;
      FilterMember(s[..n], p, x);
      assert s == s[..n] + [s[n]];
    }
  }

  lemma {:induction false} FilterSame<T>(s: seq<T>, p: T -> bool, q: T -> bool)
    requires forall i :: 0 <= i < |s| ==> (p(s[i]) <==> q(s[i]))
    ensures Filter(s, p) == Filter(s, q)
  {
    if s != [] {
      var n := |s| - 1;
      assert forall i :: 0 <= i < n ==> s[..n][i] == s[i];
      FilterSame(s[..n], p, q);
    }
  }
}
