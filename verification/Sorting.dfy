/** A stable sort by a total preorder, and the uniqueness of strictly sorted arrangements. */
module Sorting {
  import opened Sequences

  ghost predicate TotalPreorder<T(!new)>(le: (T, T) -> bool) {
    && (forall x, y :: le(x, y) || le(y, x))
    && (forall x, y, z :: le(x, y) && le(y, z) ==> le(x, z))
  }

  ghost predicate Sorted<T>(s: seq<T>, le: (T, T) -> bool) {
    forall i, j :: 0 <= i < j < |s| ==> le(s[i], s[j])
  }

  /** Every element strictly precedes every later one. */
  ghost predicate StrictlySorted<T>(s: seq<T>, le: (T, T) -> bool) {
    forall i, j :: 0 <= i < j < |s| ==> le(s[i], s[j]) && !le(s[j], s[i])
  }

  function Place<T>(x: T, s: seq<T>, le: (T, T) -> bool): seq<T> {
    if s == [] || le(x, s[0]) then [x] + s else [s[0]] + Place(x, s[1..], le)
  }

  function Sort<T>(s: seq<T>, le: (T, T) -> bool): seq<T> {
    if s == [] then [] else Place(s[0], Sort(s[1..], le), le)
  }

  lemma {:induction false} PlaceKeeps<T>(x: T, s: seq<T>, le: (T, T) -> bool)
    ensures multiset(Place(x, s, le)) == multiset(s) + multiset{x}
    ensures forall y :: y in Place(x, s, le) <==> y == x || y in s
  {
    if s != [] && !le(x, s[0]) {
      PlaceKeeps(x, s[1..], le);
      assert s == [s[0]] + s[1..];
    }
  }

  lemma {:induction false} PlaceSorted<T(!new)>(x: T, s: seq<T>, le: (T, T) -> bool)
    requires TotalPreorder(le) && Sorted(s, le)
    ensures Sorted(Place(x, s, le), le)
  {
    if s != [] && !le(x, s[0]) {
      PlaceSorted(x, s[1..], le);
      PlaceKeeps(x, s[1..], le);
      var rest := Place(x, s[1..], le);
      forall y | y in rest
        ensures le(s[0], y)
      {
        if y != x {
          var i :| 0 <= i < |s[1..]| && s[1..][i] == y;
          assert s[i + 1] == y;
        }
      }
      forall i, j | 0 <= i < j < |[s[0]] + rest|
        ensures le(([s[0]] + rest)[i], ([s[0]] + rest)[j])
      {
        assert rest[j - 1] in rest;
      }
    } else {
      forall i, j | 0 <= i < j < |[x] + s|
        ensures le(([x] + s)[i], ([x] + s)[j])
      {
        assert s[0] == s[j - 1] || le(s[0], s[j - 1]);
      }
    }
  }

  lemma {:induction false} SortKeeps<T>(s: seq<T>, le: (T, T) -> bool)
    ensures multiset(Sort(s, le)) == multiset(s)
    ensures |Sort(s, le)| == |s|
    ensures forall x :: x in Sort(s, le) <==> x in s
  {
    if s != [] {
      SortKeeps(s[1..], le);
      PlaceKeeps(s[0], Sort(s[1..], le), le);
      assert s == [s[0]] + s[1..];
    }
    SameElements(Sort(s, le), s);
  }

  lemma {:induction false} SortSorts<T(!new)>(s: seq<T>, le: (T, T) -> bool)
    requires TotalPreorder(le)
    ensures Sorted(Sort(s, le), le)
  {
    if s != [] {
      SortSorts(s[1..], le);
      PlaceSorted(s[0], Sort(s[1..], le), le);
    }
  }

  lemma SameFirst<T>(a: seq<T>, b: seq<T>, le: (T, T) -> bool)
    requires a != [] && b != [] && a[0] in b && b[0] in a
    requires StrictlySorted(a, le) && StrictlySorted(b, le)
    ensures a[0] == b[0]
  {
    var i :| 0 <= i < |b| && b[i] == a[0];
    var j :| 0 <= j < |a| && a[j] == b[0];
  }

  lemma MultisetTail<T>(a: seq<T>)
    requires a != []
    ensures multiset(a[1..]) == multiset(a) - multiset{a[0]}
  {
    assert a == [a[0]] + a[1..];
  }

  /** A strictly sorted sequence is determined by its elements. */
  lemma {:induction false} StrictlySortedUnique<T>(a: seq<T>, b: seq<T>, le: (T, T) -> bool)
    requires multiset(a) == multiset(b)
    requires StrictlySorted(a, le) && StrictlySorted(b, le)
    ensures a == b
  {
    SameElements(a, b);
    if a != [] {
      SameFirst(a, b, le);
      MultisetTail(a);
      MultisetTail(b);
      StrictlySortedUnique(a[1..], b[1..], le);
      assert a == [a[0]] + a[1..] && b == [b[0]] + b[1..];
    }
  }

  /** Distinct ranks make the sorted arrangement strict. */
  lemma SortStrict<T(!new)>(s: seq<T>, le: (T, T) -> bool)
    requires TotalPreorder(le)
    requires forall i, j :: 0 <= i < j < |s| ==> !(le(s[i], s[j]) && le(s[j], s[i]))
    ensures StrictlySorted(Sort(s, le), le)
    decreases s
  {
    SortSorts(s, le);
    if s != [] {
      var rest := Sort(s[1..], le);
      SortStrict(s[1..], le);
      SortKeeps(s[1..], le);
      forall y | y in rest
        ensures !(le(s[0], y) && le(y, s[0]))
      {
        var i :| 0 <= i < |s[1..]| && s[1..][i] == y;
        assert s[i + 1] == y;
      }
      PlaceStrict(s[0], rest, le);
    }
  }

  lemma {:induction false} PlaceStrict<T(!new)>(x: T, s: seq<T>, le: (T, T) -> bool)
    requires TotalPreorder(le) && StrictlySorted(s, le)
    requires forall y <- s :: !(le(x, y) && le(y, x))
    ensures StrictlySorted(Place(x, s, le), le)
  {
    if s == [] {
    } else if le(x, s[0]) {
      forall i, j | 0 <= i < j < |[x] + s|
        ensures le(([x] + s)[i], ([x] + s)[j]) && !le(([x] + s)[j], ([x] + s)[i])
      {
        assert s[j - 1] in s;
        assert s[0] == s[j - 1] || le(s[0], s[j - 1]);
      }
    } else {
      PlaceStrict(x, s[1..], le);
      PlaceKeeps(x, s[1..], le);
      var rest := Place(x, s[1..], le);
      forall y | y in rest
        ensures le(s[0], y) && !le(y, s[0])
      {
        if y != x {
          var i :| 0 <= i < |s[1..]| && s[1..][i] == y;
          assert s[i + 1] == y;
        }
      }
      forall i, j | 0 <= i < j < |[s[0]] + rest|
        ensures le(([s[0]] + rest)[i], ([s[0]] + rest)[j]) && !le(([s[0]] + rest)[j], ([s[0]] + rest)[i])
      {
        assert rest[j - 1] in rest;
      }
    }
  }

  /** Filtering before sorting is filtering after sorting. */
  lemma {:induction false} FilterSort<T(!new)>(s: seq<T>, le: (T, T) -> bool, p: T -> bool)
    requires TotalPreorder(le)
    ensures Sort(Filter(s, p), le) == Filter(Sort(s, le), p)
  {
    if s != [] {
      var rest := Sort(s[1..], le);
      FilterSort(s[1..], le, p);
      SortSorts(s[1..], le);
      FilterPlace(s[0], rest, le, p);
      assert [] + Filter(s[1..], p) == Filter(s[1..], p);
      assert p(s[0]) ==> ([s[0]] + Filter(s[1..], p))[1..] == Filter(s[1..], p);
    }
  }

  lemma {:induction false} FilterPlace<T(!new)>(x: T, s: seq<T>, le: (T, T) -> bool, p: T -> bool)
    requires TotalPreorder(le) && Sorted(s, le)
    ensures Filter(Place(x, s, le), p) == if p(x) then Place(x, Filter(s, p), le) else Filter(s, p)
  {
    if s == [] || le(x, s[0]) {
      assert Place(x, s, le)[1..] == s;
      if p(x) {
        SmallestFirst(x, s, le, p);
      }
    } else {
      var rest := Place(x, s[1..], le);
      assert Place(x, s, le)[1..] == rest;
      FilterPlace(x, s[1..], le, p);
      var kept := Filter(s[1..], p);
      assert Filter(s, p) == (if p(s[0]) then [s[0]] else []) + kept;
      if p(s[0]) {
        assert Filter(s, p)[0] == s[0] && Filter(s, p)[1..] == kept;
      } else {
        assert Filter(s, p) == kept;
      }
    }
  }

  lemma SmallestFirst<T(!new)>(x: T, s: seq<T>, le: (T, T) -> bool, p: T -> bool)
    requires TotalPreorder(le) && Sorted(s, le) && (s != [] ==> le(x, s[0]))
    ensures Place(x, Filter(s, p), le) == [x] + Filter(s, p)
  {
    if Filter(s, p) != [] {
      var i := FilterIndex(s, p, 0);
      assert le(s[0], s[i]);
    }
  }
}
