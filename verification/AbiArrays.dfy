/** Fixed arrays whose elements are more than one word long. */
module AbiArrays {
  import opened Tables
  import opened Utf8
  import opened AbiTypes
  import opened AbiEncoding
  import opened AbiDecoder
  import opened AbiRoundTrip

  /** The decoder reads a fixed array of static elements rightly, but takes 32 bytes per element: it finds
      the next parameter exactly if the array is empty or its elements are one word long. */
  lemma FixedArrayAdvance(t: AbiType, ds: seq<DecodedParam>, data: seq<byte>, at: nat)
    requires StaticType(t) && AllFit(Repeated(t, |ds|), ds) && |data| < Usize
    requires Holds(data, at, EncodeAll(Repeated(t, |ds|), ds)) && !AnyBreaks(Repeated(t, |ds|), ds)
    ensures ParamAt(FixedArray(t, |ds|), data, at) == Ok((List(ds), 32 * |ds|))
    ensures Encode(FixedArray(t, |ds|), List(ds)) == EncodeAll(Repeated(t, |ds|), ds)
    ensures 32 * |ds| == |Encode(FixedArray(t, |ds|), List(ds))| <==> ds == [] || StaticSize(t) == 32
  {
    FixedArrayReads(t, ds, data, at);
    FixedArrayLength(t, ds);
  }

  lemma FixedArrayLength(t: AbiType, ds: seq<DecodedParam>)
    requires StaticType(t) && AllFit(Repeated(t, |ds|), ds)
    ensures Encode(FixedArray(t, |ds|), List(ds)) == EncodeAll(Repeated(t, |ds|), ds)
    ensures 32 * |ds| == |Encode(FixedArray(t, |ds|), List(ds))| <==> ds == [] || StaticSize(t) == 32
  {
    ItemsLength(t, ds);
    SameProduct(|ds|, 32, StaticSize(t));
  }

  lemma FixedArrayReads(t: AbiType, ds: seq<DecodedParam>, data: seq<byte>, at: nat)
    requires StaticType(t) && AllFit(Repeated(t, |ds|), ds) && |data| < Usize
    requires Holds(data, at, EncodeAll(Repeated(t, |ds|), ds)) && !AnyBreaks(Repeated(t, |ds|), ds)
    ensures ParamAt(FixedArray(t, |ds|), data, at) == Ok((List(ds), 32 * |ds|))
  {
    StaticNotDynamic(t);
    assert ItemsLaid(t, ds, data, at);
    StaticItems(t, ds, data, at);
  }

  lemma SameProduct(n: nat, a: nat, b: nat)
    ensures a * n == n * b <==> n == 0 || b == a
  {
    if n > 0 && a < b {
      assert (b - a) * n > 0;
    } else if n > 0 && a > b {
      assert (a - b) * n > 0;
    }
  }
}
