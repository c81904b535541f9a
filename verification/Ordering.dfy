/** Python's order on strings, and what `sorted` returns for a set under a strict order. */
module Ordering {

  /** Code point order on strings: the `<` that Python and SQLite's TEXT columns use. */
  predicate Less(a: string, b: string)
  {
    |b| > 0 && (|a| == 0 || a[0] < b[0] || (a[0] == b[0] && Less(a[1..], b[1..])))
  }

  lemma {:induction false} LessIsTotal(a: string, b: string)
    ensures (Less(a, b) || Less(b, a)) <==> a != b
  {
    if |a| > 0 && |b| > 0 {
      LessIsTotal(a[1..], b[1..]);
      assert a == [a[0]] + a[1..] && b == [b[0]] + b[1..];
    }
  }

  lemma {:induction false} LessIsTransitive(a: string, b: string, c: string)
    requires Less(a, b) && Less(b, c)
    ensures Less(a, c)
  {
    if |a| > 0 && a[0] == b[0] == c[0] {
      LessIsTransitive(a[1..], b[1..], c[1..]);
    }
  }

  lemma {:induction false} LessIsAsymmetric(a: string, b: string)
    ensures !(Less(a, b) && Less(b, a))
  {
    if Less(a, b) && Less(b, a) {
      LessIsTransitive(a, b, a);
      LessIsTotal(a, a);
    }
  }

  /** Python's `max` of two strings. */
  function Max(a: string, b: string): (m: string)
    ensures m == a || m == b
  {
    if Less(a, b) then b else a
  }

  lemma MaxIsBelow(a: string, b: string, bound: string)
    ensures Less(Max(a, b), bound) <==> Less(a, bound) && Less(b, bound)
  {
    LessIsTotal(a, b);
    if Less(a, b) && Less(b, bound) { LessIsTransitive(a, b, bound); }
    if !Less(a, b) && a != b && Less(a, bound) { LessIsTransitive(b, a, bound); }
  }

  // ------------------------------------------------------------ sorting a set

  ghost predicate StrictTotalOn<T(!new)>(s: set<T>, less: (T, T) -> bool)
  {
    && (forall x, y | x in s && y in s :: (less(x, y) || less(y, x)) <==> x != y)
    && (forall x, y | x in s && y in s :: !(less(x, y) && less(y, x)))
    && (forall x, y, z | x in s && y in s && z in s :: less(x, y) && less(y, z) ==> less(x, z))
  }

  ghost predicate IsSorted<T(!new)>(r: seq<T>, less: (T, T) -> bool)
  {
    forall i, j | 0 <= i < j < |r| :: less(r[i], r[j])
  }

  function Elements<T>(r: seq<T>): set<T>
  {
    set x | x in r
  }

  lemma ElementsGrow<T>(s: seq<T>, i: nat)
    requires i < |s|
    ensures Elements(s[..i + 1]) == Elements(s[..i]) + {s[i]}
  {
    assert s[..i + 1] == s[..i] + [s[i]];
  }

  lemma {:induction false} HasLeast<T(!new)>(s: set<T>, less: (T, T) -> bool)
    requires s != {} && StrictTotalOn(s, less)
    ensures exists x :: x in s && forall y :: y in s ==> y == x || less(x, y)
  {
    var a :| a in s;
    if s != {a} {
      var rest := s - {a};
      assert s == {a} + rest;
      HasLeast(rest, less);
      var b :| b in rest && forall y :: y in rest ==> y == b || less(b, y);
      var c := if less(a, b) then a else b;
      assert c in s && forall y :: y in s ==> y == c || less(c, y);
    } else {
      assert a in s && forall y :: y in s ==> y == a || less(a, y);
    }
  }

  lemma LeastInFront<T(!new)>(x: T, rest: seq<T>, less: (T, T) -> bool)
    requires IsSorted(rest, less) && forall y :: y in Elements(rest) ==> less(x, y)
    ensures IsSorted([x] + rest, less) && Elements([x] + rest) == {x} + Elements(rest)
  {
    var r := [x] + rest;
    forall y ensures y in r <==> y == x || y in rest {
      if y in rest {
        var i :| 0 <= i < |rest| && rest[i] == y;
        assert r[i + 1] == y;
      }
      assert r[0] == x;
    }
    forall i, j | 0 <= i < j < |r|
      ensures less(r[i], r[j])
    {
      assert r[j] == rest[j - 1] && r[j] in Elements(rest);
    }
  }

  /** What `sorted(s)` returns: the elements of `s`, strictly ascending. */
  function Sort<T(!new, ==)>(s: set<T>, less: (T, T) -> bool): (r: seq<T>)
    requires StrictTotalOn(s, less)
    ensures IsSorted(r, less) && Elements(r) == s
    decreases |s|
  {
    if s == {} then [] else
      HasLeast(s, less);
      var x :| x in s && forall y :: y in s ==> y == x || less(x, y);
      var rest := Sort(s - {x}, less);
      LeastInFront(x, rest, less);
      assert Elements([x] + rest) == s;
      [x] + rest
  }

  lemma EmptyElements<T>(r: seq<T>)
    ensures Elements(r) == {} <==> r == []
  {
    if r != [] { assert r[0] in Elements(r); }
  }

  lemma SortedHeadIsLeast<T(!new)>(a: seq<T>, less: (T, T) -> bool, x: T)
    requires a != [] && IsSorted(a, less) && x in a
    ensures x == a[0] || less(a[0], x)
  {
    var i :| 0 <= i < |a| && a[i] == x;
  }

  /** A strictly ascending listing is determined by its elements. */
  lemma {:induction false} SortedIsUnique<T(!new)>(a: seq<T>, b: seq<T>, less: (T, T) -> bool)
    requires StrictTotalOn(Elements(a), less)
    requires IsSorted(a, less) && IsSorted(b, less) && Elements(a) == Elements(b)
    ensures a == b
  {
    EmptyElements(a);
    EmptyElements(b);
    if a != [] {
      assert a[0] in Elements(a) && b[0] in Elements(b);
      SortedHeadIsLeast(a, less, b[0]);
      SortedHeadIsLeast(b, less, a[0]);
      SortedTail(a, less);
      SortedTail(b, less);
      SortedIsUnique(a[1..], b[1..], less);
      assert a == [a[0]] + a[1..] && b == [b[0]] + b[1..];
    }
  }

  lemma SortedTail<T(!new)>(a: seq<T>, less: (T, T) -> bool)
    requires a != [] && StrictTotalOn(Elements(a), less) && IsSorted(a, less)
    ensures Elements(a[1..]) == Elements(a) - {a[0]}
  {
    forall x | x in Elements(a) && x != a[0]
      ensures x in a[1..]
    {
      var i :| 0 <= i < |a| && a[i] == x;
      assert a[1..][i - 1] == x;
    }
    forall x | x in a[1..]
      ensures x in Elements(a) && x != a[0]
    {
      var i :| 0 <= i < |a[1..]| && a[1..][i] == x;
      assert x == a[i + 1] && less(a[0], a[i + 1]);
      assert a[0] in Elements(a) && x in Elements(a);
    }
  }

  /** A comprehension over a listing: `tuple(x for x in r if keep(x))`. */
  function Filter<T(!new)>(r: seq<T>, keep: T -> bool): (f: seq<T>)
    ensures forall x :: x in f <==> x in r && keep(x)
    ensures |f| <= |r|
  {
    if r == [] then [] else
      var rest := Filter(r[1..], keep);
      assert forall x :: x in r <==> x == r[0] || x in r[1..];
      if keep(r[0]) then [r[0]] + rest else rest
  }

  lemma {:induction false} FilterKeepsOrder<T(!new)>(r: seq<T>, keep: T -> bool, less: (T, T) -> bool)
    requires IsSorted(r, less)
    ensures IsSorted(Filter(r, keep), less)
  {
    if r != [] {
      FilterKeepsOrder(r[1..], keep, less);
      var rest := Filter(r[1..], keep);
      forall j | 0 <= j < |rest|
        ensures less(r[0], rest[j])
      {
        assert rest[j] in r[1..];
        var i :| 0 <= i < |r[1..]| && r[1..][i] == rest[j];
        assert r[i + 1] == rest[j];
      }
    }
  }

  function Kept<T(!new)>(s: set<T>, keep: T -> bool): set<T>
  {
    set x | x in s && keep(x)
  }

  /** Filtering a sorted listing is sorting what the filter keeps. */
  lemma FilterOfSort<T(!new)>(s: set<T>, keep: T -> bool, less: (T, T) -> bool)
    requires StrictTotalOn(s, less)
    ensures StrictTotalOn(Kept(s, keep), less)
    ensures Filter(Sort(s, less), keep) == Sort(Kept(s, keep), less)
  {
    var kept := Kept(s, keep);
    FilterKeepsOrder(Sort(s, less), keep, less);
    var f := Filter(Sort(s, less), keep);
    assert Elements(f) == kept by {
      forall x ensures x in f <==> x in kept {
        assert x in Sort(s, less) <==> x in Elements(Sort(s, less));
      }
    }
    SortedIsUnique(f, Sort(kept, less), less);
  }

  /** Strings are strictly and totally ordered by `Less`. */
  lemma StringsAreOrdered(s: set<string>)
    ensures StrictTotalOn(s, Less)
  {
    forall x, y | x in s && y in s
      ensures ((Less(x, y) || Less(y, x)) <==> x != y) && !(Less(x, y) && Less(y, x))
    {
      LessIsTotal(x, y);
      LessIsAsymmetric(x, y);
    }
    forall x, y, z | x in s && y in s && z in s && Less(x, y) && Less(y, z)
      ensures Less(x, z)
    {
      LessIsTransitive(x, y, z);
    }
  }

  /** `tuple(sorted(names))` for a set of names. */
  function SortNames(s: set<string>): (r: seq<string>)
    ensures IsSorted(r, Less) && Elements(r) == s
  {
    StringsAreOrdered(s);
    Sort(s, Less)
  }
}
