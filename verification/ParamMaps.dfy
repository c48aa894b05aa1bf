/** The parameters of a decoded event: an insertion-ordered map from name to value, and what becomes of names
    that repeat (crates/forge-index-core/src/abi/decoder.rs:83-106). */
module ParamMaps {
  import opened AbiEncoding

  type Entry = (string, DecodedParam)

  /** Entries in order, keys distinct. */
  type Params = seq<Entry>

  /** Inserting under an existing key replaces the value in place. */
  function Put(m: Params, key: string, d: DecodedParam): Params {
    if m == [] then [(key, d)]
    else if m[0].0 == key then [(key, d)] + m[1..]
    else [m[0]] + Put(m[1..], key, d)
  }

  function PutAll(m: Params, entries: seq<Entry>): Params
    decreases |entries|
  {
    if entries == [] then m else PutAll(Put(m, entries[0].0, entries[0].1), entries[1..])
  }

  predicate DistinctKeys(m: Params) {
    forall i, j :: 0 <= i < j < |m| ==> m[i].0 != m[j].0
  }

  predicate HasKey(m: Params, key: string) {
    exists i :: 0 <= i < |m| && m[i].0 == key
  }

  /** A fresh key comes last. */
  lemma {:induction false} PutNew(m: Params, key: string, d: DecodedParam)
    requires !HasKey(m, key)
    ensures Put(m, key, d) == m + [(key, d)]
  {
    if m != [] {
      PutNew(m[1..], key, d);
    }
  }

  /** A key that is there keeps its place and gets the new value. */
  lemma {:induction false} PutAgain(m: Params, key: string, d: DecodedParam, i: nat)
    requires i < |m| && m[i].0 == key && forall j :: 0 <= j < i ==> m[j].0 != key
    ensures Put(m, key, d) == m[i := (key, d)]
  {
    if i > 0 {
      PutAgain(m[1..], key, d, i - 1);
      assert m[i := (key, d)] == [m[0]] + m[1..][i - 1 := (key, d)];
    }
  }

  lemma {:induction false} PutLast(m: Params, entries: seq<Entry>)
    requires entries != []
    ensures var n := |entries| - 1;
      PutAll(m, entries) == Put(PutAll(m, entries[..n]), entries[n].0, entries[n].1)
    decreases |entries|
  {
    var n := |entries| - 1;
    if n > 0 {
      PutLast(Put(m, entries[0].0, entries[0].1), entries[1..]);
      assert entries[1..][..n - 1] == entries[..n][1..];
    }
  }

  /** The place of a name's first entry. */
  function First(entries: seq<Entry>, key: string): (n: nat)
    ensures n <= |entries|
    ensures forall i :: 0 <= i < n ==> entries[i].0 != key
    ensures n < |entries| ==> entries[n].0 == key
  {
    if entries == [] || entries[0].0 == key then 0 else 1 + First(entries[1..], key)
  }

  /** The last entry of a name. */
  predicate IsLast(entries: seq<Entry>, e: Entry) {
    exists l :: 0 <= l < |entries| && entries[l] == e && forall j :: l < j < |entries| ==> entries[j].0 != e.0
  }

  /** One entry per name, in the order of the first ones, with the value of the last one. */
  ghost predicate Collected(m: Params, entries: seq<Entry>) {
    && DistinctKeys(m)
    && (forall e <- entries :: HasKey(m, e.0))
    && (forall i :: 0 <= i < |m| ==> IsLast(entries, m[i]))
    && (forall i, j :: 0 <= i < j < |m| ==> First(entries, m[i].0) < First(entries, m[j].0))
  }

  lemma FirstGrows(entries: seq<Entry>, e: Entry, key: string)
    ensures First(entries + [e], key) ==
            if First(entries, key) < |entries| || e.0 != key then
              if First(entries, key) < |entries| then First(entries, key) else |entries| + 1
            else |entries|
  {
    var all := entries + [e];
    var n := First(all, key);
    assert forall i :: 0 <= i < |entries| ==> all[i] == entries[i];
    assert all[|entries|] == e;
  }

  lemma LastStays(entries: seq<Entry>, e: Entry, x: Entry)
    requires IsLast(entries, x) && x.0 != e.0
    ensures IsLast(entries + [e], x)
  {
    var l :| 0 <= l < |entries| && entries[l] == x && forall j :: l < j < |entries| ==> entries[j].0 != x.0;
    var all := entries + [e];
    assert all[l] == x;
    assert forall j :: l < j < |all| ==> all[j].0 != x.0;
  }

  lemma LastIs(entries: seq<Entry>, e: Entry)
    ensures IsLast(entries + [e], e)
  {
    assert (entries + [e])[|entries|] == e;
  }

  lemma LastInFirst(entries: seq<Entry>, x: Entry)
    requires IsLast(entries, x)
    ensures First(entries, x.0) < |entries|
  {
  }

  /** The map after one more insertion: the keys keep their places, the new key's value is the new one. */
  ghost predicate Grown(m: Params, e: Entry, more: Params) {
    && |m| <= |more| <= |m| + 1 && DistinctKeys(more)
    && (forall k :: 0 <= k < |m| ==> more[k] == if m[k].0 == e.0 then e else m[k])
    && (|more| > |m| ==> !HasKey(m, e.0) && more[|m|] == e)
    && HasKey(more, e.0)
  }

  lemma PutGrows(m: Params, e: Entry)
    requires DistinctKeys(m)
    ensures Grown(m, e, Put(m, e.0, e.1))
  {
    var more := Put(m, e.0, e.1);
    if HasKey(m, e.0) {
      var i :| 0 <= i < |m| && m[i].0 == e.0;
      PutAgain(m, e.0, e.1, i);
      assert more[i] == e;
    } else {
      PutNew(m, e.0, e.1);
      assert more[|m|] == e;
    }
  }

  lemma KeysKept(m: Params, entries: seq<Entry>, e: Entry, more: Params)
    requires Collected(m, entries) && Grown(m, e, more)
    ensures forall x <- entries + [e] :: HasKey(more, x.0)
  {
    forall x | x in entries + [e]
      ensures HasKey(more, x.0)
    {
      if x in entries {
        assert HasKey(m, x.0);
        var i :| 0 <= i < |m| && m[i].0 == x.0;
        assert more[i].0 == x.0;
      }
    }
  }

  lemma LastsKept(m: Params, entries: seq<Entry>, e: Entry, more: Params)
    requires Collected(m, entries) && Grown(m, e, more)
    ensures forall k :: 0 <= k < |more| ==> IsLast(entries + [e], more[k])
  {
    forall k | 0 <= k < |more|
      ensures IsLast(entries + [e], more[k])
    {
      if more[k].0 == e.0 {
        LastIs(entries, e);
      } else {
        LastStays(entries, e, m[k]);
      }
    }
  }

  lemma PlacesKept(m: Params, entries: seq<Entry>, e: Entry, more: Params)
    requires Collected(m, entries) && Grown(m, e, more)
    ensures forall i, j :: 0 <= i < j < |more| ==> First(entries + [e], more[i].0) < First(entries + [e], more[j].0)
  {
    forall i, j | 0 <= i < j < |more|
      ensures First(entries + [e], more[i].0) < First(entries + [e], more[j].0)
    {
      FirstGrows(entries, e, more[i].0);
      FirstGrows(entries, e, more[j].0);
      LastInFirst(entries, m[i]);
      if j < |m| {
        LastInFirst(entries, m[j]);
      } else {
        KeyKept(m, entries, e.0);
      }
    }
  }

  lemma KeyKept(m: Params, entries: seq<Entry>, key: string)
    requires Collected(m, entries)
    ensures First(entries, key) < |entries| ==> HasKey(m, key)
  {
    var n := First(entries, key);
    if n < |entries| {
      assert entries[n] in entries;
    }
  }

  /** One more entry. */
  lemma CollectedMore(m: Params, entries: seq<Entry>, e: Entry)
    requires Collected(m, entries)
    ensures Collected(Put(m, e.0, e.1), entries + [e])
  {
    var more := Put(m, e.0, e.1);
    PutGrows(m, e);
    KeysKept(m, entries, e, more);
    LastsKept(m, entries, e, more);
    PlacesKept(m, entries, e, more);
  }

  /** Inserting entries one by one leaves one per name, in the first one's place, with the last one's value. */
  lemma {:induction false} PutAllCollects(entries: seq<Entry>)
    ensures Collected(PutAll([], entries), entries)
    decreases |entries|
  {
    if entries != [] {
      var n := |entries| - 1;
      PutAllCollects(entries[..n]);
      PutLast([], entries);
      CollectedMore(PutAll([], entries[..n]), entries[..n], entries[n]);
      assert entries[..n] + [entries[n]] == entries;
    }
  }

  /** Distinct names stay as they are. */
  lemma {:induction false} PutAllDistinct(m: Params, entries: seq<Entry>)
    requires DistinctKeys(m + entries)
    ensures PutAll(m, entries) == m + entries
    decreases |entries|
  {
    if entries == [] {
      assert m + entries == m;
    } else {
      var e := entries[0];
      assert forall i :: 0 <= i < |m| ==> (m + entries)[i] == m[i];
      assert (m + entries)[|m|] == e;
      PutNew(m, e.0, e.1);
      assert m + [e] + entries[1..] == m + entries;
      PutAllDistinct(m + [e], entries[1..]);
    }
  }
}
