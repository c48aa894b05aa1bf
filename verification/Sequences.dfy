/** Filtering and rearranging sequences, independent of what the sequences hold. */
module Sequences {

  function Filter<T>(s: seq<T>, p: T -> bool): seq<T> {
    if s == [] then [] else (if p(s[0]) then [s[0]] else []) + Filter(s[1..], p)
  }

  lemma {:induction false} FilterConcat<T>(a: seq<T>, b: seq<T>, p: T -> bool)
    ensures Filter(a + b, p) == Filter(a, p) + Filter(b, p)
  {
    if a == [] {
      assert a + b == b;
    } else {
      var first := if p(a[0]) then [a[0]] else [];
      calc {
        Filter(a + b, p);
        { assert (a + b)[0] == a[0] && (a + b)[1..] == a[1..] + b; }
        first + Filter(a[1..] + b, p);
        { FilterConcat(a[1..], b, p); }
        first + (Filter(a[1..], p) + Filter(b, p));
        (first + Filter(a[1..], p)) + Filter(b, p);
      }
    }
  }

  lemma {:induction false} FilterMembers<T>(s: seq<T>, p: T -> bool)
    ensures forall x :: x in Filter(s, p) <==> x in s && p(x)
    ensures (forall x <- s :: p(x)) ==> Filter(s, p) == s
    ensures (forall x <- s :: !p(x)) ==> Filter(s, p) == []
  {
    if s != [] {
      FilterMembers(s[1..], p);
      assert s == [s[0]] + s[1..];
    }
  }

  lemma {:induction false} FilterIndex<T>(s: seq<T>, p: T -> bool, j: nat) returns (b: nat)
    requires j < |Filter(s, p)|
    ensures b < |s| && s[b] == Filter(s, p)[j]
  {
    if p(s[0]) && j == 0 {
      b := 0;
    } else {
      b := FilterIndex(s[1..], p, if p(s[0]) then j - 1 else j);
      b := b + 1;
    }
  }

  /** Where the elements of a filtered sequence come from, in order. */
  lemma {:induction false} FilterOrder<T>(s: seq<T>, p: T -> bool, i: nat, j: nat) returns (a: nat, b: nat)
    requires i < j < |Filter(s, p)|
    ensures a < b < |s| && s[a] == Filter(s, p)[i] && s[b] == Filter(s, p)[j]
  {
    if p(s[0]) && i == 0 {
      b := FilterIndex(s[1..], p, j - 1);
      a, b := 0, b + 1;
    } else {
      var d := if p(s[0]) then 1 else 0;
      a, b := FilterOrder(s[1..], p, i - d, j - d);
      a, b := a + 1, b + 1;
    }
  }

  lemma {:induction false} FilterShorter<T>(s: seq<T>, p: T -> bool)
    ensures |Filter(s, p)| <= |s|
    ensures (exists x <- s :: !p(x)) ==> |Filter(s, p)| < |s|
  {
    if s != [] {
      FilterShorter(s[1..], p);
    }
  }

  /** Filtering twice is filtering by both conditions. */
  lemma {:induction false} FilterAgain<T>(s: seq<T>, p: T -> bool, q: T -> bool, both: T -> bool)
    requires forall x <- s :: both(x) <==> p(x) && q(x)
    ensures Filter(Filter(s, p), q) == Filter(s, both)
  {
    if s != [] {
      FilterAgain(s[1..], p, q, both);
      FilterConcat(if p(s[0]) then [s[0]] else [], Filter(s[1..], p), q);
    }
  }

  lemma {:induction false} FilterDivides<T>(s: seq<T>, p: T -> bool, q: T -> bool, either: T -> bool)
    requires forall x <- s :: (either(x) <==> p(x) || q(x)) && !(p(x) && q(x))
    ensures multiset(Filter(s, either)) == multiset(Filter(s, p)) + multiset(Filter(s, q))
  {
    if s != [] {
      FilterDivides(s[1..], p, q, either);
    }
  }

  lemma MapConcat<K, V>(a: map<K, V>, b: map<K, V>, c: map<K, V>)
    ensures a + b + c == a + (b + c)
  {
  }

  /** s with its i-th element moved to the end. */
  function MovedLast<T>(s: seq<T>, i: nat): seq<T>
    requires i < |s|
  {
    s[..i] + s[i + 1..] + [s[i]]
  }

  lemma MovedLastSame<T>(s: seq<T>, i: nat)
    requires i < |s|
    ensures multiset(MovedLast(s, i)) == multiset(s)
  {
    assert s == s[..i] + [s[i]] + s[i + 1..];
  }

  /** s with its i-th element moved to the front. */
  function MovedFirst<T>(s: seq<T>, i: nat): seq<T>
    requires i < |s|
  {
    [s[i]] + s[..i] + s[i + 1..]
  }

  lemma MovedFirstSame<T>(s: seq<T>, i: nat)
    requires i < |s|
    ensures multiset(MovedFirst(s, i)) == multiset(s)
  {
    assert s == s[..i] + [s[i]] + s[i + 1..];
  }

  lemma {:induction false} FilterParts<T>(s: seq<T>, p: T -> bool, q: T -> bool)
    requires forall x <- s :: q(x) <==> !p(x)
    ensures multiset(Filter(s, p)) + multiset(Filter(s, q)) == multiset(s)
  {
    if s != [] {
      assert s == [s[0]] + s[1..];
      FilterParts(s[1..], p, q);
    }
  }

  lemma SameElements<T>(a: seq<T>, b: seq<T>)
    requires multiset(a) == multiset(b)
    ensures |a| == |b|
    ensures forall x :: x in a <==> x in b
  {
    assert |multiset(a)| == |a| && |multiset(b)| == |b|;
    forall x
      ensures x in a <==> x in b
    {
      assert x in a <==> x in multiset(a);
      assert x in b <==> x in multiset(b);
    }
  }

  lemma SameConcat<T>(a: seq<T>, b: seq<T>, c: seq<T>, d: seq<T>)
    requires multiset(a) == multiset(c) && multiset(b) == multiset(d)
    ensures multiset(a + b) == multiset(c + d)
  {
  }

  /** Two ways of dividing the same elements by p hold the same elements on either side. */
  lemma SameDivision<T>(s: seq<T>, s': seq<T>, a: seq<T>, b: seq<T>, p: T -> bool)
    requires multiset(s + s') == multiset(a + b)
    requires (forall x <- s :: p(x)) && (forall x <- s' :: !p(x))
    requires (forall x <- b :: p(x)) && (forall x <- a :: !p(x))
    ensures multiset(s) == multiset(b) && multiset(s') == multiset(a)
  {
    assert multiset(s) + multiset(s') == multiset(a) + multiset(b);
    forall x: T
      ensures multiset(s)[x] == multiset(b)[x] && multiset(s')[x] == multiset(a)[x]
    {
      assert (multiset(s) + multiset(s'))[x] == (multiset(a) + multiset(b))[x];
      if p(x) {
        assert x !in multiset(s') && x !in multiset(a);
      } else {
        assert x !in multiset(s) && x !in multiset(b);
      }
    }
  }

  /** When the elements satisfying p come first, the front part of a rearrangement of a + b holds
      exactly the elements of b. */
  lemma FrontHoldsChosen<T>(s: seq<T>, a: seq<T>, b: seq<T>, p: T -> bool)
    requires multiset(s) == multiset(a + b)
    requires (forall x <- b :: p(x)) && (forall x <- a :: !p(x))
    requires forall i, j :: 0 <= i < j < |s| && p(s[j]) ==> p(s[i])
    ensures |b| <= |s|
    ensures multiset(s[..|b|]) == multiset(b)
    ensures multiset(s[|b|..]) == multiset(a)
  {
    var n := 0;
    while n < |s| && p(s[n])
      invariant n <= |s| && forall i :: 0 <= i < n ==> p(s[i])
    {
      n := n + 1;
    }
    assert s == s[..n] + s[n..];
    SameDivision(s[..n], s[n..], a, b, p);
    SameElements(s[..n], b);
  }
}
