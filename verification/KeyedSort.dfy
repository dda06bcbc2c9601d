/** Python's `list.sort` with a comparison of integer keys: a stable sort, and what it keeps. */
module KeyedSort {
  import opened Sequences

  ghost predicate Ordered<T>(s: seq<T>, key: T -> int)
  {
    forall i, j :: 0 <= i < j < |s| ==> key(s[i]) <= key(s[j])
  }

  function InsertBy<T>(x: T, s: seq<T>, key: T -> int): seq<T>
  {
    var n := |s| - 1;
    if s == [] || key(s[n]) <= key(x) then s + [x] else InsertBy(x, s[..n], key) + [s[n]]
  }

  /** Sorting by a key, equal keys staying in order, as Python's `list.sort` does. */
  function SortBy<T>(s: seq<T>, key: T -> int): seq<T>
  {
    if s == [] then [] else InsertBy(s[|s| - 1], SortBy(s[..|s| - 1], key), key)
  }

  lemma {:induction false} InsertMultiset<T>(x: T, s: seq<T>, key: T -> int)
    ensures multiset(InsertBy(x, s, key)) == multiset(s) + multiset{x}
  {
    if s != [] {
      var n := |s| - 1;
      InsertMultiset(x, s[..n], key);
      assert s == s[..n] + [s[n]];
    }
  }

  lemma InsertMember<T>(x: T, s: seq<T>, key: T -> int, y: T)
    ensures y in InsertBy(x, s, key) <==> y == x || y in s
  {
    InsertMultiset(x, s, key);
    assert y in InsertBy(x, s, key) <==> y in multiset(InsertBy(x, s, key));
  }

  lemma {:induction false} InsertOrdered<T>(x: T, s: seq<T>, key: T -> int)
    requires Ordered(s, key)
    ensures Ordered(InsertBy(x, s, key), key)
  {
    if s != [] {
      var n := |s| - 1;
      if key(s[n]) > key(x) {
        var r := InsertBy(x, s[..n], key);
        InsertOrdered(x, s[..n], key);
        forall i | 0 <= i < |r| ensures key(r[i]) <= key(s[n]) {
          InsertMember(x, s[..n], key, r[i]);
        }
      }
    }
  }

  lemma {:induction false} InsertStable<T>(x: T, s: seq<T>, key: T -> int, p: T -> bool)
    requires forall y: T, z: T :: p(y) && p(z) ==> key(y) == key(z)
    ensures Filter(InsertBy(x, s, key), p) == Filter(s + [x], p)
  {
    if s != [] && key(s[|s| - 1]) > key(x) {
      var n := |s| - 1;
      var front, r, y := s[..n], InsertBy(x, s[..n], key), s[n];
      InsertStable(x, front, key, p);
      assert InsertBy(x, s, key) == r + [y] && s == front + [y];
      OneElement(y, p);
      OneElement(x, p);
      hide Filter, InsertBy;
      FilterConcat(r, [y], p);
      FilterConcat(front, [x], p);
      FilterConcat(s, [x], p);
      FilterConcat(front, [y], p);
      Exchange(Filter(front, p), Filter([y], p), Filter([x], p));
    }
  }

  lemma Exchange<T>(a: seq<T>, b: seq<T>, c: seq<T>)
    requires b == [] || c == []
    ensures (a + b) + c == (a + c) + b
  {
  }

  lemma OneElement<T>(x: T, p: T -> bool)
    ensures Filter([x], p) == if p(x) then [x] else []
  {
    assert [x][..0] == [];
  }

  lemma {:induction false} SortByOrdered<T>(s: seq<T>, key: T -> int)
    ensures Ordered(SortBy(s, key), key)
  {
    if s != [] {
      var n := |s| - 1;
      SortByOrdered(s[..n], key);
      InsertOrdered(s[n], SortBy(s[..n], key), key);
    }
  }

  lemma {:induction false} SortByMultiset<T>(s: seq<T>, key: T -> int)
    ensures multiset(SortBy(s, key)) == multiset(s)
  {
    if s != [] {
      var n := |s| - 1;
      var front, x := s[..n], s[n];
      SortByMultiset(front, key);
      InsertMultiset(x, SortBy(front, key), key);
      assert SortBy(s, key) == InsertBy(x, SortBy(front, key), key);
      hide SortBy, InsertBy;
      assert s == front + [x];
    }
  }

  lemma SortMember<T>(s: seq<T>, key: T -> int, y: T)
    ensures y in SortBy(s, key) <==> y in s
  {
    SortByMultiset(s, key);
    assert y in SortBy(s, key) <==> y in multiset(SortBy(s, key));
  }

  /** Elements with the same key keep their order. */
  lemma {:induction false} SortByStable<T>(s: seq<T>, key: T -> int, p: T -> bool)
    requires forall y: T, z: T :: p(y) && p(z) ==> key(y) == key(z)
    ensures Filter(SortBy(s, key), p) == Filter(s, p)
  {
    if s != [] {
      var n := |s| - 1;
      var front, t, x := s[..n], SortBy(s[..n], key), s[n];
      SortByStable(front, key, p);
      InsertStable(x, t, key, p);
      assert SortBy(s, key) == InsertBy(x, t, key) && s == front + [x];
      hide SortBy, InsertBy, Filter;
      FilterConcat(t, [x], p);
      FilterConcat(front, [x], p);
    }
  }

  // ---------------------------------------------------------------- relations between all pairs

  ghost predicate Pairwise<T>(s: seq<T>, r: (T, T) -> bool)
  {
    forall i, j :: 0 <= i < j < |s| ==> r(s[i], s[j])
  }

  ghost predicate Symmetric<T(!new)>(r: (T, T) -> bool) { forall x, y :: r(x, y) <==> r(y, x) }

  lemma PairwiseSnoc<T>(s: seq<T>, x: T, r: (T, T) -> bool)
    ensures Pairwise(s + [x], r) <==> Pairwise(s, r) && forall y :: y in s ==> r(y, x)
  {
    var t := s + [x];
    if Pairwise(t, r) {
      assert forall i :: 0 <= i < |s| ==> t[i] == s[i];
      forall y | y in s ensures r(y, x) {
        var i :| 0 <= i < |s| && s[i] == y;
        assert r(t[i], t[|s|]);
      }
    }
  }

  /** Rearranging does not matter to a symmetric relation. */
  lemma {:induction false} PairwiseInsert<T(!new)>(x: T, s: seq<T>, key: T -> int, r: (T, T) -> bool)
    requires Symmetric(r)
    ensures Pairwise(InsertBy(x, s, key), r) <==> Pairwise(s + [x], r)
  {
    if s != [] && key(s[|s| - 1]) > key(x) {
      var n := |s| - 1;
      var front, t, z := s[..n], InsertBy(x, s[..n], key), s[n];
      PairwiseInsert(x, front, key, r);
      assert InsertBy(x, s, key) == t + [z] && s == front + [z];
      assert r(z, x) <==> r(x, z);
      hide InsertBy, Pairwise, Symmetric;
      PairwiseSnoc(t, z, r);
      PairwiseSnoc(front, x, r);
      PairwiseSnoc(s, x, r);
      PairwiseSnoc(front, z, r);
      forall y ensures y in t <==> y == x || y in front {
        InsertMember(x, front, key, y);
      }
    }
  }

  lemma PairwiseSnocSorted<T>(s: seq<T>, x: T, key: T -> int, r: (T, T) -> bool)
    requires Pairwise(SortBy(s, key), r) <==> Pairwise(s, r)
    ensures Pairwise(SortBy(s, key) + [x], r) <==> Pairwise(s + [x], r)
  {
    hide SortBy, Pairwise;
    PairwiseSnoc(SortBy(s, key), x, r);
    PairwiseSnoc(s, x, r);
    var t := SortBy(s, key);
    if Pairwise(s + [x], r) {
      forall y | y in t ensures r(y, x) { SortMember(s, key, y); }
    }
    if Pairwise(t + [x], r) {
      forall y | y in s ensures r(y, x) { SortMember(s, key, y); }
    }
  }

  lemma {:induction false} PairwiseSorted<T(!new)>(s: seq<T>, key: T -> int, r: (T, T) -> bool)
    requires Symmetric(r)
    ensures Pairwise(SortBy(s, key), r) <==> Pairwise(s, r)
  {
    if s != [] {
      var n := |s| - 1;
      var front, t, x := s[..n], SortBy(s[..n], key), s[n];
      PairwiseSorted(front, key, r);
      assert SortBy(s, key) == InsertBy(x, t, key) && s == front + [x];
      PairwiseInsert(x, t, key, r);
      hide SortBy, InsertBy, Pairwise, Symmetric;
      PairwiseSnocSorted(front, x, key, r);
    }
  }
}
