/** What the columns that identify a cached query keep of it. */
module CacheStamps {
  import opened Tables
  import opened LogCache

  predicate HashText(h: string) {
    h != "" && ',' !in h
  }

  predicate Spelled(t: Option<seq<string>>) {
    t.Some? && forall h <- t.value :: HashText(h)
  }

  predicate NoWildcards(q: Query) {
    forall t <- q.topics :: Spelled(t)
  }

  /** What follows the first part of a joined text. */
  function Trail(parts: seq<string>): string
    requires parts != []
  {
    if |parts| == 1 then "" else "," + Joined(parts[1..])
  }

  lemma NextLetter(x: string, y: string, u: string, v: string)
    requires x + u == y + v && |x| < |y|
    ensures u != "" && u[0] in y
  {
    assert |x + u| == |y + v|;
    assert u[0] == (x + u)[|x|] == (y + v)[|x|] == y[|x|];
  }

  lemma CommaFreeFront(x: string, y: string, u: string, v: string)
    requires x + u == y + v && |x| <= |y| && ',' !in y
    requires u != "" ==> u[0] == ','
    ensures x == y && u == v
  {
    assert x == (x + u)[..|x|] == (y + v)[..|x|] == y[..|x|];
    if |x| < |y| {
      NextLetter(x, y, u, v);
      assert false;
    }
    assert u == (x + u)[|x|..] && v == (y + v)[|x|..];
  }

  lemma JoinedStarts(a: seq<string>)
    requires forall h <- a :: HashText(h)
    ensures Joined(a) == "" <==> a == []
    ensures a != [] ==> Joined(a) == a[0] + Trail(a) && HashText(a[0])
  {
    if a != [] {
      assert HashText(a[0]);
    }
  }

  lemma {:induction false} JoinedInjective(a: seq<string>, b: seq<string>)
    requires (forall h <- a :: HashText(h)) && (forall h <- b :: HashText(h))
    requires Joined(a) == Joined(b)
    ensures a == b
  {
    JoinedStarts(a);
    JoinedStarts(b);
    if a != [] {
      SameStart(a[0], b[0], Trail(a), Trail(b));
      if |a| > 1 {
        assert Trail(a)[1..] == Joined(a[1..]) && Trail(b)[1..] == Joined(b[1..]);
        JoinedInjective(a[1..], b[1..]);
      }
      assert a == [a[0]] + a[1..] && b == [b[0]] + b[1..];
    }
  }

  lemma SameStart(x: string, y: string, u: string, v: string)
    requires x + u == y + v && HashText(x) && HashText(y)
    requires (u != "" ==> u[0] == ',') && (v != "" ==> v[0] == ',')
    ensures x == y && u == v
  {
    if |x| <= |y| {
      CommaFreeFront(x, y, u, v);
    } else {
      CommaFreeFront(y, x, v, u);
    }
  }

  lemma {:induction false} TopicTextsLength(a: seq<Option<seq<string>>>)
    requires forall t <- a :: Spelled(t)
    ensures |TopicTexts(a)| == |a|
    ensures a != [] ==> Spelled(a[0]) && TopicTexts(a) == [Joined(a[0].value)] + TopicTexts(a[1..])
  {
    if a != [] {
      assert Spelled(a[0]);
      TopicTextsLength(a[1..]);
    }
  }

  lemma {:induction false} TopicsInjective(a: seq<Option<seq<string>>>, b: seq<Option<seq<string>>>)
    requires (forall t <- a :: Spelled(t)) && (forall t <- b :: Spelled(t))
    requires TopicTexts(a) == TopicTexts(b)
    ensures a == b
  {
    TopicTextsLength(a);
    TopicTextsLength(b);
    if a != [] {
      var x, y := TopicTexts(a[1..]), TopicTexts(b[1..]);
      assert x == ([Joined(a[0].value)] + x)[1..] == ([Joined(b[0].value)] + y)[1..] == y;
      TopicsInjective(a[1..], b[1..]);
      JoinedInjective(a[0].value, b[0].value);
      assert a == [a[0]] + a[1..] && b == [b[0]] + b[1..];
    }
  }

  /** Without wildcard positions a stamp determines its query. */
  lemma StampsIdentify(f: Query, g: Query)
    requires NoWildcards(f) && NoWildcards(g) && StampOf(f) == StampOf(g)
    ensures f == g
  {
    CastsInvert(0, f.chain);
    CastsInvert(0, g.chain);
    CastsInvert(0, f.from);
    CastsInvert(0, g.from);
    CastsInvert(0, f.to);
    CastsInvert(0, g.to);
    TopicsInjective(f.topics, g.topics);
  }

  /** With them it does not: a wildcard before a topic reads like a wildcard after it. */
  lemma WildcardsCollide(q: Query, topic: string)
    ensures StampOf(q.(topics := [None, Some([topic])])) == StampOf(q.(topics := [Some([topic]), None]))
  {
    var any: Option<seq<string>> := None;
    var one := Some([topic]);
    assert [any, one][1..] == [one] && [one, any][1..] == [any] && [one][1..] == [] && [any][1..] == [];
    assert TopicTexts([]) == [] && Joined([topic]) == topic;
    assert TopicTexts([one]) == [topic] + TopicTexts([]) && TopicTexts([any]) == TopicTexts([]);
    assert TopicTexts([any, one]) == [topic];
    assert TopicTexts([one, any]) == [topic];
  }
}
