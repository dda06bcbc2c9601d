/** Python's `list.sort()` on strings: lexicographic order by code point, and the fact that the
    sorted rearrangement of a list is unique. */
module Sorting {

  predicate LexLe(a: string, b: string)
  {
    if a == [] then true
    else if b == [] then false
    else if a[0] == b[0] then LexLe(a[1..], b[1..])
    else a[0] < b[0]
  }

  ghost predicate Sorted(names: seq<string>)
  {
    forall i, j :: 0 <= i < j < |names| ==> LexLe(names[i], names[j])
  }

  lemma {:induction false} LexTotal(a: string, b: string)
    ensures LexLe(a, b) || LexLe(b, a)
  {
    if a != [] && b != [] && a[0] == b[0] {
      LexTotal(a[1..], b[1..]);
    }
  }

  lemma {:induction false} LexAntisymmetric(a: string, b: string)
    requires LexLe(a, b) && LexLe(b, a)
    ensures a == b
  {
    if a != [] && b != [] {
      LexAntisymmetric(a[1..], b[1..]);
      assert a == [a[0]] + a[1..] && b == [b[0]] + b[1..];
    }
  }

  lemma {:induction false} LexTransitive(a: string, b: string, c: string)
    requires LexLe(a, b) && LexLe(b, c)
    ensures LexLe(a, c)
  {
    if a != [] && b != [] && c != [] && a[0] == b[0] == c[0] {
      LexTransitive(a[1..], b[1..], c[1..]);
    }
  }

  function Insert(x: string, names: seq<string>): (r: seq<string>)
    ensures multiset(r) == multiset(names) + multiset{x}
  {
    if names == [] then [x]
    else if LexLe(x, names[0]) then [x] + names
    else
      assert names == [names[0]] + names[1..];
      [names[0]] + Insert(x, names[1..])
  }

  lemma {:induction false} InsertSorted(x: string, names: seq<string>)
    requires Sorted(names)
    ensures Sorted(Insert(x, names))
  {
    if names == [] {
    } else if LexLe(x, names[0]) {
      forall j | 0 <= j < |names| ensures LexLe(x, names[j]) {
        if j > 0 { LexTransitive(x, names[0], names[j]); }
      }
    } else {
      LexTotal(x, names[0]);
      InsertSorted(x, names[1..]);
      var rest := Insert(x, names[1..]);
      forall j | 0 <= j < |rest| ensures LexLe(names[0], rest[j]) {
        assert rest[j] in multiset(rest);
        assert rest[j] == x || rest[j] in names[1..];
      }
    }
  }

  /** `a` and `b` agree before position `k`, where `a` has the smaller character. */
  ghost predicate SmallerAt(a: string, b: string, k: nat)
  {
    k < |a| && k < |b| && a[..k] == b[..k] && a[k] < b[k]
  }

  lemma SmallerLater(a: string, b: string, k: nat)
    requires a != [] && b != []
    ensures SmallerAt(a, b, 0) <==> a[0] < b[0]
    ensures SmallerAt(a, b, k + 1) <==> a[0] == b[0] && SmallerAt(a[1..], b[1..], k)
  {
    if k + 1 <= |a| && k + 1 <= |b| {
      assert a[..k + 1] == [a[0]] + a[1..][..k] && b[..k + 1] == [b[0]] + b[1..][..k];
    }
  }

  lemma PrefixLater(a: string, b: string)
    requires a != [] && b != []
    ensures a <= b <==> a[0] == b[0] && a[1..] <= b[1..]
  {
    assert a == [a[0]] + a[1..] && b == [b[0]] + b[1..];
  }

  /** The order is by the first difference; a text comes before its extensions. */
  lemma {:induction false} LexByFirstDifference(a: string, b: string)
    ensures LexLe(a, b) <==> a <= b || exists k: nat :: SmallerAt(a, b, k)
  {
    if a != [] && b != [] {
      PrefixLater(a, b);
      SmallerLater(a, b, 0);
      if a[0] == b[0] { LexByFirstDifference(a[1..], b[1..]); }
      hide SmallerAt;
      if k: nat :| SmallerAt(a[1..], b[1..], k) {
        SmallerLater(a, b, k);
      }
      if k: nat :| SmallerAt(a, b, k) {
        if k > 0 { SmallerLater(a, b, k - 1); }
      }
    }
  }

  /** The list `list.sort()` leaves behind. */
  function Sort(names: seq<string>): (r: seq<string>)
    ensures multiset(r) == multiset(names)
    ensures Sorted(r)
  {
    if names == [] then []
    else
      assert names == [names[0]] + names[1..];
      InsertSorted(names[0], Sort(names[1..]));
      Insert(names[0], Sort(names[1..]))
  }

  lemma {:induction false} LexReflexive(a: string)
    ensures LexLe(a, a)
  {
    if a != [] { LexReflexive(a[1..]); }
  }

  lemma HeadIsLeast(names: seq<string>, x: string)
    requires Sorted(names) && x in multiset(names)
    ensures names != [] && LexLe(names[0], x)
  {
    var i :| 0 <= i < |names| && names[i] == x;
    LexReflexive(x);
  }

  lemma TailOf(names: seq<string>)
    requires names != [] && Sorted(names)
    ensures Sorted(names[1..])
    ensures multiset(names[1..]) == multiset(names) - multiset{names[0]}
  {
    assert names == [names[0]] + names[1..];
  }

  lemma SameHead(a: seq<string>, b: seq<string>)
    requires a != [] && Sorted(a) && Sorted(b) && multiset(a) == multiset(b)
    ensures b != [] && a[0] == b[0]
  {
    hide Sorted;
    assert a[0] in multiset(a);
    HeadIsLeast(b, a[0]);
    assert b[0] in multiset(b);
    HeadIsLeast(a, b[0]);
    LexAntisymmetric(a[0], b[0]);
  }

  lemma {:induction false} SortedUnique(a: seq<string>, b: seq<string>)
    requires Sorted(a) && Sorted(b)
    requires multiset(a) == multiset(b)
    ensures a == b
    decreases |a|
  {
    if a == [] {
      assert |multiset(b)| == 0;
    } else {
      SameHead(a, b);
      TailOf(a);
      TailOf(b);
      hide Sorted;
      SortedUnique(a[1..], b[1..]);
      assert a == [a[0]] + a[1..] && b == [b[0]] + b[1..];
    }
  }

  /** Sorting forgets the order the names arrived in. */
  lemma SortForgetsOrder(a: seq<string>, b: seq<string>)
    requires multiset(a) == multiset(b)
    ensures Sort(a) == Sort(b)
  {
    SortedUnique(Sort(a), Sort(b));
  }
}
