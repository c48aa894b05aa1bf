/** Decoding the specified encoding gives back the encoded values, for every value of the supported types. */
module AbiRoundTrip {
  import opened Tables
  import opened Utf8
  import opened AbiTypes
  import opened AbiWords
  import opened AbiEncoding
  import opened AbiDecoder
  import opened AbiNumbers

  // The supported types

  /** Static types whose size the decoder gets right: one-word types, fixed arrays whose elements take one
      word, and tuples of static types, nested at any depth. */
  predicate StaticType(t: AbiType) {
    match t
    case FixedArray(inner, n) => StaticType(inner) && (n == 0 || StaticSize(inner) == 32)
    case Tuple(params) => forall p <- params :: StaticType(p.abiType)
    case _ => OneWord(t)
  }

  /** The bytes a static value takes. */
  function StaticSize(t: AbiType): nat
    decreases t
  {
    match t
    case FixedArray(_, n) => 32 * n
    case Tuple(params) => StaticSizes(params)
    case _ => 32
  }

  function StaticSizes(params: seq<AbiParam>): nat
    decreases params
  {
    if params == [] then 0 else StaticSize(params[0].abiType) + StaticSizes(params[1..])
  }

  /** Dynamic types that may be members of a tuple. */
  predicate LeafType(t: AbiType) {
    t.Bytes? || t.String? || (t.Array? && StaticType(t.inner))
  }

  predicate MemberType(t: AbiType) {
    StaticType(t) || LeafType(t)
  }

  /** Types of event parameters. */
  predicate TopType(t: AbiType) {
    MemberType(t) || (t.Tuple? && forall p <- t.params :: MemberType(p.abiType))
  }

  lemma {:induction false} StaticNotDynamic(t: AbiType)
    requires StaticType(t)
    ensures !IsDynamic(t)
  {
    if t.FixedArray? {
      StaticNotDynamic(t.inner);
    } else if t.Tuple? {
      forall p | p in t.params
        ensures !IsDynamic(p.abiType)
      {
        StaticNotDynamic(p.abiType);
      }
    }
  }

  /** A negative number of exactly 128 bits occurs in the value. */
  predicate Breaks(t: AbiType, d: DecodedParam)
    decreases d
  {
    match d
    case Signed(k) => t == AbiType.Int(128) && k < 0
    case List(items) => (t.Array? || t.FixedArray?) && AnyBreaks(Repeated(t.inner, |items|), items)
    case Struct(items) => t.Tuple? && |t.params| == |items| && AnyBreaks(Types(t.params), items)
    case _ => false
  }

  predicate AnyBreaks(ts: seq<AbiType>, ds: seq<DecodedParam>)
    requires |ts| == |ds|
    decreases ds
  {
    ds != [] && (Breaks(ts[0], ds[0]) || AnyBreaks(ts[1..], ds[1..]))
  }

  lemma AnyBreaksFirst(ts: seq<AbiType>, ds: seq<DecodedParam>)
    requires |ts| == |ds| && ds != []
    ensures AnyBreaks(ts, ds) == (Breaks(ts[0], ds[0]) || AnyBreaks(ts[1..], ds[1..]))
  {
  }

  /** What decoding should give: the value and the bytes its head takes. */
  function Expected<T>(breaks: bool, value: T): Result<T, AbiError> {
    if breaks then Err(Overflow) else Ok(value)
  }

  // Data that holds an encoding

  predicate Holds(data: seq<byte>, at: nat, e: seq<byte>) {
    at + |e| <= |data| && data[at..at + |e|] == e
  }

  lemma HoldsSplit(data: seq<byte>, at: nat, a: seq<byte>, b: seq<byte>)
    requires Holds(data, at, a + b)
    ensures Holds(data, at, a) && Holds(data, at + |a|, b)
  {
    var whole := data[at..at + |a + b|];
    assert whole == a + b;
    assert data[at..at + |a|] == whole[..|a|] == a;
    assert data[at + |a|..at + |a| + |b|] == whole[|a|..] == b;
  }

  lemma ReadHeld(data: seq<byte>, at: nat, slot: seq<byte>)
    requires Holds(data, at, slot) && |slot| == 32
    ensures ReadSlot(data, at) == Ok(slot)
  {
  }

  lemma UsizeRoundTrip(n: nat)
    requires n < Usize
    ensures ToUsize(Word(n)) == Ok(n)
  {
    var width, low := WordBits / 8, 8;
    assert Pow2(8 * low) == Usize by {
      UsizeIsPower();
    }
    forall i | 0 <= i < 24
      ensures Word(n)[i] == 0
    {
      HighBytes(n, width, low, i);
    }
    LowBytes(n, width, low);
    BigEndianOf(n, low);
    SmallMod(n, Usize);
  }

  lemma {:induction false} UsizeIsPower()
    ensures Pow2(64) == Usize
  {
    Pow2Byte(8);
    Pow2Byte(16);
    Pow2Byte(24);
    Pow2Byte(32);
    Pow2Byte(40);
    Pow2Byte(48);
    Pow2Byte(56);
  }

  lemma ReadHeldUsize(data: seq<byte>, at: nat, n: nat)
    requires Holds(data, at, Word(n)) && n < Usize
    ensures ReadUsize(data, at) == Ok(n)
  {
    ReadHeld(data, at, Word(n));
    UsizeRoundTrip(n);
  }

  // One word

  lemma OneWordLength(t: AbiType, d: DecodedParam)
    requires OneWord(t) && Fits(t, d)
    ensures |Encode(t, d)| == 32
  {
  }

  lemma {:induction false} WordRoundTrip(t: AbiType, d: DecodedParam)
    requires OneWord(t) && Fits(t, d)
    ensures |Encode(t, d)| == 32
    ensures WordValue(t, Encode(t, d)) == Expected(Breaks(t, d), d)
  {
    OneWordLength(t, d);
    match t {
      case Uint(bits) => UintRoundTrip(if bits <= 128 then d.n else UnsignedNumber(d.text), bits);
      case Int(bits) => IntRoundTrip(if bits <= 128 then d.k else SignedNumber(d.text), bits);
      case Address => AddressRoundTrip(d.bytes);
      case Bool => FlagRoundTrip(d.b);
      case FixedBytes(n) => FixedRoundTrip(d.bytes);
    }
  }

  lemma AddressRoundTrip(b: seq<byte>)
    ensures (Zeros(12) + b)[12..] == b
  {
  }

  lemma FlagRoundTrip(b: bool)
    ensures Word(if b then 1 else 0)[31] == if b then 1 else 0
  {
    var n := if b then 1 else 0;
    LowBytes(n, WordBits / 8, 1);
    assert Word(n)[31..] == BytesOf(n, 1);
    assert BytesOf(n, 1) == [n % 256];
    assert Word(n)[31] == Word(n)[31..][0];
  }

  lemma FixedRoundTrip(b: seq<byte>)
    requires 0 < |b| <= 32
    ensures |Padded(b)| == 32 && Padded(b)[..|b|] == b
  {
  }

  // Static values

  lemma RepeatedTail(t: AbiType, n: nat)
    requires n > 0
    ensures Repeated(t, n)[1..] == Repeated(t, n - 1)
  {
  }

  lemma TypesTail(params: seq<AbiParam>)
    requires params != []
    ensures Types(params)[1..] == Types(params[1..]) && Types(params)[0] == params[0].abiType
  {
  }

  /** Without dynamic values the encoding is the heads. */
  lemma {:induction false} StaticAll(ts: seq<AbiType>, ds: seq<DecodedParam>)
    requires |ts| == |ds| && NoneDynamic(ts)
    ensures Tails(ts, ds) == []
    ensures EncodeAll(ts, ds) == Heads(ts, ds, HeadLength(ts, ds))
    decreases |ds|
  {
    if ds != [] {
      StaticAll(ts[1..], ds[1..]);
    }
  }

  /** The tail position does not matter if there are no tails. */
  lemma {:induction false} StaticHeads(ts: seq<AbiType>, ds: seq<DecodedParam>, tail: nat, tail': nat)
    requires |ts| == |ds| && NoneDynamic(ts)
    ensures Heads(ts, ds, tail) == Heads(ts, ds, tail')
    decreases |ds|
  {
    if ds != [] {
      StaticHeads(ts[1..], ds[1..], tail, tail');
    }
  }

  predicate NoneDynamic(ts: seq<AbiType>) {
    forall i :: 0 <= i < |ts| ==> !IsDynamic(ts[i])
  }

  lemma HeadsFirst(ts: seq<AbiType>, ds: seq<DecodedParam>, n: nat)
    requires |ts| == |ds| && ds != [] && !IsDynamic(ts[0])
    ensures Heads(ts, ds, n) == Encode(ts[0], ds[0]) + Heads(ts[1..], ds[1..], n)
  {
  }

  lemma EncodeFirst(ts: seq<AbiType>, ds: seq<DecodedParam>)
    requires |ts| == |ds| && ds != [] && NoneDynamic(ts)
    ensures EncodeAll(ts, ds) == Encode(ts[0], ds[0]) + EncodeAll(ts[1..], ds[1..])
  {
    var n, m := HeadLength(ts, ds), HeadLength(ts[1..], ds[1..]);
    StaticAll(ts, ds);
    StaticAll(ts[1..], ds[1..]);
    StaticHeads(ts[1..], ds[1..], n, m);
    HeadsFirst(ts, ds, n);
  }

  lemma StaticFirst(t: AbiType, ds: seq<DecodedParam>)
    requires ds != [] && !IsDynamic(t)
    ensures EncodeAll(Repeated(t, |ds|), ds) == Encode(t, ds[0]) + EncodeAll(Repeated(t, |ds| - 1), ds[1..])
  {
    RepeatedTail(t, |ds|);
    EncodeFirst(Repeated(t, |ds|), ds);
  }

  lemma {:induction false} StaticSizeIs(t: AbiType, d: DecodedParam)
    requires StaticType(t) && Fits(t, d)
    ensures |Encode(t, d)| == StaticSize(t)
    decreases t, 0, 0
  {
    if t.FixedArray? {
      ItemsLength(t.inner, d.items);
    } else if t.Tuple? {
      var ts := Types(t.params);
      StaticSizesAre(t.params, ts, d.items);
      StaticTypes(t.params);
      StaticAll(ts, d.items);
      HeadsLength(ts, d.items, HeadLength(ts, d.items));
    } else {
      OneWordLength(t, d);
    }
  }

  lemma {:induction false} StaticSizesAre(params: seq<AbiParam>, ts: seq<AbiType>, ds: seq<DecodedParam>)
    requires ts == Types(params) && |ts| == |ds| && AllFit(ts, ds)
    requires forall p <- params :: StaticType(p.abiType)
    ensures HeadLength(ts, ds) == StaticSizes(params)
    decreases params, 0, 0
  {
    if params != [] {
      TypesTail(params);
      assert params[0] in params;
      StaticNotDynamic(ts[0]);
      StaticSizeIs(ts[0], ds[0]);
      StaticSizesAre(params[1..], ts[1..], ds[1..]);
    }
  }

  lemma {:induction false} ItemsLength(t: AbiType, ds: seq<DecodedParam>)
    requires StaticType(t) && AllFit(Repeated(t, |ds|), ds)
    ensures |EncodeAll(Repeated(t, |ds|), ds)| == |ds| * StaticSize(t)
    decreases t, 1, |ds|
  {
    if ds == [] {
      assert EncodeAll(Repeated(t, 0), []) == [];
    } else {
      RepeatedTail(t, |ds|);
      ItemsLength(t, ds[1..]);
      StaticSizeIs(t, ds[0]);
      StaticNotDynamic(t);
      StaticFirst(t, ds);
      assert |ds| * StaticSize(t) == StaticSize(t) + (|ds| - 1) * StaticSize(t);
    }
  }

  lemma {:induction false} StaticParam(t: AbiType, d: DecodedParam, data: seq<byte>, at: nat)
    requires StaticType(t) && Fits(t, d) && Holds(data, at, Encode(t, d)) && |data| < Usize
    ensures ParamAt(t, data, at) == Expected(Breaks(t, d), (d, |Encode(t, d)|))
    decreases t, 1, 0
  {
    if t.FixedArray? {
      assert ItemsLaid(t.inner, d.items, data, at);
      StaticItems(t.inner, d.items, data, at);
      FixedArrayParam(t.inner, t.len, d, data, at);
    } else if t.Tuple? {
      StaticNotDynamic(t);
      StaticLaid(t.params, d.items, data, at);
      TupleParam(t.params, Types(t.params), d.items, data, at, at, HeadLength(Types(t.params), d.items));
    } else {
      WordRoundTrip(t, d);
      ReadHeld(data, at, Encode(t, d));
    }
  }

  /** A fixed array whose elements are read rightly and take one word. */
  lemma FixedArrayParam(inner: AbiType, n: nat, d: DecodedParam, data: seq<byte>, at: nat)
    requires StaticType(FixedArray(inner, n)) && Fits(FixedArray(inner, n), d)
    requires ItemsFrom(inner, n, data, at) == Expected(AnyBreaks(Repeated(inner, n), d.items), d.items)
    ensures var t := FixedArray(inner, n);
      ParamAt(t, data, at) == Expected(Breaks(t, d), (d, |Encode(t, d)|))
  {
    StaticNotDynamic(inner);
    ItemsLength(inner, d.items);
    assert Encode(FixedArray(inner, n), d) == EncodeAll(Repeated(inner, n), d.items);
    assert n == 0 || StaticSize(inner) == 32;
    assert |d.items| * StaticSize(inner) == 32 * n;
  }

  lemma StaticTypes(params: seq<AbiParam>)
    requires forall p <- params :: StaticType(p.abiType)
    ensures NoneDynamic(Types(params))
  {
    forall i | 0 <= i < |params|
      ensures !IsDynamic(Types(params)[i])
    {
      assert params[i] in params;
      StaticNotDynamic(params[i].abiType);
    }
  }

  lemma StaticLaid(params: seq<AbiParam>, ds: seq<DecodedParam>, data: seq<byte>, at: nat)
    requires |params| == |ds| && (forall p <- params :: StaticType(p.abiType))
    requires Holds(data, at, EncodeAll(Types(params), ds))
    ensures Laid(Types(params), ds, data, at, at, HeadLength(Types(params), ds))
    ensures |EncodeAll(Types(params), ds)| == HeadLength(Types(params), ds)
  {
    var ts := Types(params);
    StaticTypes(params);
    StaticAll(ts, ds);
    HeadsLength(ts, ds, HeadLength(ts, ds));
  }

  lemma ItemsHeld(t: AbiType, ds: seq<DecodedParam>, data: seq<byte>, at: nat)
    requires StaticType(t) && ds != [] && Holds(data, at, EncodeAll(Repeated(t, |ds|), ds))
    ensures Holds(data, at, Encode(t, ds[0]))
    ensures Holds(data, at + |Encode(t, ds[0])|, EncodeAll(Repeated(t, |ds| - 1), ds[1..]))
  {
    StaticNotDynamic(t);
    StaticFirst(t, ds);
    HoldsSplit(data, at, Encode(t, ds[0]), EncodeAll(Repeated(t, |ds| - 1), ds[1..]));
  }

  lemma ItemsStep(t: AbiType, ds: seq<DecodedParam>, data: seq<byte>, at: nat, first: bool, others: bool, n: nat)
    requires ds != []
    requires ParamAt(t, data, at) == Expected(first, (ds[0], n))
    requires ItemsFrom(t, |ds| - 1, data, at + n) == Expected(others, ds[1..])
    ensures ItemsFrom(t, |ds|, data, at) == Expected(first || others, ds)
  {
    assert ds == [ds[0]] + ds[1..];
    var all := ItemsFrom(t, |ds|, data, at);
    if first {
      assert all == Err(Overflow);
    } else if others {
      assert all == Err(Overflow);
    } else {
      assert all == Ok([ds[0]] + ds[1..]);
    }
  }

  lemma ItemsFit(t: AbiType, ds: seq<DecodedParam>)
    requires ds != [] && AllFit(Repeated(t, |ds|), ds)
    ensures Fits(t, ds[0]) && AllFit(Repeated(t, |ds| - 1), ds[1..])
  {
    RepeatedTail(t, |ds|);
  }

  lemma ItemsBreak(t: AbiType, ds: seq<DecodedParam>)
    requires ds != []
    ensures AnyBreaks(Repeated(t, |ds|), ds) == (Breaks(t, ds[0]) || AnyBreaks(Repeated(t, |ds| - 1), ds[1..]))
  {
    RepeatedTail(t, |ds|);
    AnyBreaksFirst(Repeated(t, |ds|), ds);
  }

  /** The data hold the encodings of ds, one behind the other. */
  predicate ItemsLaid(t: AbiType, ds: seq<DecodedParam>, data: seq<byte>, at: nat) {
    && StaticType(t) && AllFit(Repeated(t, |ds|), ds) && |data| < Usize
    && Holds(data, at, EncodeAll(Repeated(t, |ds|), ds))
  }

  lemma FirstLaid(t: AbiType, ds: seq<DecodedParam>, data: seq<byte>, at: nat)
    requires ds != []
    ensures ItemsLaid(t, ds, data, at) ==>
      && Fits(t, ds[0]) && Holds(data, at, Encode(t, ds[0]))
      && ItemsLaid(t, ds[1..], data, at + |Encode(t, ds[0])|)
  {
    if ItemsLaid(t, ds, data, at) {
      ItemsHeld(t, ds, data, at);
      ItemsFit(t, ds);
    }
  }

  lemma {:induction false} StaticItems(t: AbiType, ds: seq<DecodedParam>, data: seq<byte>, at: nat)
    ensures ItemsLaid(t, ds, data, at) ==>
      ItemsFrom(t, |ds|, data, at) == Expected(AnyBreaks(Repeated(t, |ds|), ds), ds)
    decreases t, 2, |ds|
  {
    if ds != [] && ItemsLaid(t, ds, data, at) {
      var n := |Encode(t, ds[0])|;
      FirstLaid(t, ds, data, at);
      FirstItem(t, ds, data, at);
      StaticItems(t, ds[1..], data, at + n);
      ItemsConclude(t, ds, data, at, n);
    }
  }

  lemma FirstItem(t: AbiType, ds: seq<DecodedParam>, data: seq<byte>, at: nat)
    requires ds != []
    ensures ItemsLaid(t, ds, data, at) ==>
      ParamAt(t, data, at) == Expected(Breaks(t, ds[0]), (ds[0], |Encode(t, ds[0])|))
    decreases t, 2, 0
  {
    if ItemsLaid(t, ds, data, at) {
      FirstLaid(t, ds, data, at);
      StaticParam(t, ds[0], data, at);
    }
  }

  lemma ItemsConclude(t: AbiType, ds: seq<DecodedParam>, data: seq<byte>, at: nat, n: nat)
    requires ds != [] && ParamAt(t, data, at) == Expected(Breaks(t, ds[0]), (ds[0], n))
    requires ItemsFrom(t, |ds[1..]|, data, at + n) == Expected(AnyBreaks(Repeated(t, |ds[1..]|), ds[1..]), ds[1..])
    ensures ItemsFrom(t, |ds|, data, at) == Expected(AnyBreaks(Repeated(t, |ds|), ds), ds)
  {
    ItemsBreak(t, ds);
    ItemsStep(t, ds, data, at, Breaks(t, ds[0]), AnyBreaks(Repeated(t, |ds| - 1), ds[1..]), n);
  }

  // Dynamic values at their own position

  lemma HeldBytes(b: seq<byte>, data: seq<byte>, at: nat)
    requires Holds(data, at, Word(|b|) + Padded(b)) && |data| < Usize
    ensures CountedBytes(data, at) == Ok(b)
  {
    HoldsSplit(data, at, Word(|b|), Padded(b));
    ReadHeldUsize(data, at, |b|);
    var start := at + 32;
    assert data[start..start + |b|] == data[start..start + |Padded(b)|][..|b|];
  }

  lemma LeafParam(t: AbiType, d: DecodedParam, data: seq<byte>, at: nat)
    requires LeafType(t) && Fits(t, d) && Holds(data, at, Encode(t, d)) && |data| < Usize
    ensures AtOffset(t, data, at) == Expected(Breaks(t, d), (d, 32))
    decreases t, 2, 0
  {
    if t.Array? {
      var e := EncodeAll(Repeated(t.inner, |d.items|), d.items);
      HoldsSplit(data, at, Word(|d.items|), e);
      ReadHeldUsize(data, at, |d.items|);
      assert ItemsLaid(t.inner, d.items, data, at + 32);
      StaticItems(t.inner, d.items, data, at + 32);
    } else {
      HeldBytes(d.bytes, data, at);
      if t.String? {
        LossyExact(d.bytes);
      }
    }
  }

  /** Heads that start at pos, and tails that start at the offset `tail` from the base. */
  predicate Laid(ts: seq<AbiType>, ds: seq<DecodedParam>, data: seq<byte>, base: nat, pos: nat, tail: nat) {
    && |ts| == |ds|
    && Holds(data, pos, Heads(ts, ds, tail))
    && Holds(data, base + tail, Tails(ts, ds))
  }

  /** The first head and tail. */
  lemma LaidFirst(ts: seq<AbiType>, ds: seq<DecodedParam>, data: seq<byte>, base: nat, pos: nat, tail: nat)
    requires Laid(ts, ds, data, base, pos, tail) && ds != []
    ensures Holds(data, pos, HeadOf(ts[0], ds[0], tail)) && Holds(data, base + tail, TailOf(ts[0], ds[0]))
  {
    HeadHeld(ts, ds, data, pos, tail, pos + |HeadOf(ts[0], ds[0], tail)|, tail + |TailOf(ts[0], ds[0])|);
    TailHeld(ts, ds, data, base + tail, base + tail + |TailOf(ts[0], ds[0])|);
  }

  /** The others. */
  lemma LaidRest(ts: seq<AbiType>, ds: seq<DecodedParam>, data: seq<byte>, base: nat, pos: nat, tail: nat,
                 pos': nat, tail': nat)
    requires Laid(ts, ds, data, base, pos, tail) && ds != []
    requires pos' == pos + |HeadOf(ts[0], ds[0], tail)| && tail' == tail + |TailOf(ts[0], ds[0])|
    ensures Laid(ts[1..], ds[1..], data, base, pos', tail')
  {
    HeadHeld(ts, ds, data, pos, tail, pos', tail');
    TailHeld(ts, ds, data, base + tail, base + tail');
    Lays(ts[1..], ds[1..], data, base, pos', tail', base + tail');
  }

  lemma Lays(ts: seq<AbiType>, ds: seq<DecodedParam>, data: seq<byte>, base: nat, pos: nat, tail: nat, at: nat)
    requires |ts| == |ds| && at == base + tail
    requires Holds(data, pos, Heads(ts, ds, tail)) && Holds(data, at, Tails(ts, ds))
    ensures Laid(ts, ds, data, base, pos, tail)
  {
  }

  lemma HeadLengthStep(ts: seq<AbiType>, ds: seq<DecodedParam>, tail: nat)
    requires |ts| == |ds| && ds != []
    ensures HeadLength(ts, ds) == |HeadOf(ts[0], ds[0], tail)| + HeadLength(ts[1..], ds[1..])
  {
  }

  lemma HeadHeld(ts: seq<AbiType>, ds: seq<DecodedParam>, data: seq<byte>, pos: nat, tail: nat,
                 pos': nat, tail': nat)
    requires |ts| == |ds| && ds != [] && Holds(data, pos, Heads(ts, ds, tail))
    requires pos' == pos + |HeadOf(ts[0], ds[0], tail)| && tail' == tail + |TailOf(ts[0], ds[0])|
    ensures Holds(data, pos, HeadOf(ts[0], ds[0], tail)) && Holds(data, pos', Heads(ts[1..], ds[1..], tail'))
  {
    EncodeStep(ts, ds, tail);
    HoldsSplit(data, pos, HeadOf(ts[0], ds[0], tail), Heads(ts[1..], ds[1..], tail'));
  }

  lemma TailHeld(ts: seq<AbiType>, ds: seq<DecodedParam>, data: seq<byte>, at: nat, next: nat)
    requires |ts| == |ds| && ds != [] && Holds(data, at, Tails(ts, ds)) && next == at + |TailOf(ts[0], ds[0])|
    ensures Holds(data, at, TailOf(ts[0], ds[0])) && Holds(data, next, Tails(ts[1..], ds[1..]))
  {
    HoldsSplit(data, at, TailOf(ts[0], ds[0]), Tails(ts[1..], ds[1..]));
  }

  lemma EncodeStep(ts: seq<AbiType>, ds: seq<DecodedParam>, tail: nat)
    requires |ts| == |ds| && ds != []
    ensures var head, tailed := HeadOf(ts[0], ds[0], tail), TailOf(ts[0], ds[0]);
            && Heads(ts, ds, tail) == head + Heads(ts[1..], ds[1..], tail + |tailed|)
            && Tails(ts, ds) == tailed + Tails(ts[1..], ds[1..])
            && HeadLength(ts, ds) == |head| + HeadLength(ts[1..], ds[1..])
  {
  }

  /** The members of a tuple are read as ds, and their heads end at `end`. */
  predicate Reads(r: Result<(seq<DecodedParam>, nat), AbiError>, breaks: bool, ds: seq<DecodedParam>, end: nat) {
    if breaks then r == Err(Overflow) else r.Ok? && r.value.0 == ds && r.value.1 == end
  }

  lemma TupleStep(params: seq<AbiParam>, ts: seq<AbiType>, ds: seq<DecodedParam>, data: seq<byte>,
                  base: nat, pos: nat, n: nat, end: nat)
    requires |params| == |ts| == |ds| && ds != []
    requires MemberAt(params[0].abiType, data, base, pos) == Expected(Breaks(ts[0], ds[0]), (ds[0], n))
    requires Reads(TupleFrom(params[1..], data, base, pos + n), AnyBreaks(ts[1..], ds[1..]), ds[1..], end)
    ensures Reads(TupleFrom(params, data, base, pos), AnyBreaks(ts, ds), ds, end)
  {
    AnyBreaksFirst(ts, ds);
    assert ds == [ds[0]] + ds[1..];
  }

  lemma TupleNone(ts: seq<AbiType>, data: seq<byte>, base: nat, pos: nat)
    requires ts == []
    ensures Reads(TupleFrom([], data, base, pos), AnyBreaks(ts, []), [], pos + HeadLength(ts, []))
  {
  }

  /** The members of a tuple, given the heads that are left, where their tails start and what base the
      offsets count from. */
  lemma {:induction false} TupleParam(params: seq<AbiParam>, ts: seq<AbiType>, ds: seq<DecodedParam>,
                                      data: seq<byte>, base: nat, pos: nat, tail: nat)
    requires ts == Types(params) && Laid(ts, ds, data, base, pos, tail) && AllFit(ts, ds) && |data| < Usize
    requires forall p <- params :: MemberType(p.abiType)
    ensures Reads(TupleFrom(params, data, base, pos), AnyBreaks(ts, ds), ds, pos + HeadLength(ts, ds))
    decreases params, 1, 0
  {
    if ds == [] {
      TupleNone(ts, data, base, pos);
    } else {
      var n, tail' := TupleFirst(params, ts, ds, data, base, pos, tail);
      TupleParam(params[1..], ts[1..], ds[1..], data, base, pos + n, tail');
      TupleStep(params, ts, ds, data, base, pos, n, pos + n + HeadLength(ts[1..], ds[1..]));
    }
  }

  /** The first member, and what is left for the others. */
  lemma {:induction false} TupleFirst(params: seq<AbiParam>, ts: seq<AbiType>, ds: seq<DecodedParam>,
                   data: seq<byte>, base: nat, pos: nat, tail: nat)
    returns (n: nat, tail': nat)
    requires ts == Types(params) && Laid(ts, ds, data, base, pos, tail) && AllFit(ts, ds) && |data| < Usize
    requires ds != [] && MemberType(params[0].abiType)
    ensures MemberAt(params[0].abiType, data, base, pos) == Expected(Breaks(ts[0], ds[0]), (ds[0], n))
    ensures ts[1..] == Types(params[1..]) && Laid(ts[1..], ds[1..], data, base, pos + n, tail')
    ensures AllFit(ts[1..], ds[1..]) && HeadLength(ts, ds) == n + HeadLength(ts[1..], ds[1..])
    decreases params, 0, 0
  {
    TypesTail(params);
    n, tail' := |HeadOf(ts[0], ds[0], tail)|, tail + |TailOf(ts[0], ds[0])|;
    LaidFirst(ts, ds, data, base, pos, tail);
    LaidRest(ts, ds, data, base, pos, tail, pos + n, tail');
    HeadLengthStep(ts, ds, tail);
    Member(ts[0], ds[0], data, base, pos, tail);
  }

  lemma Member(t: AbiType, d: DecodedParam, data: seq<byte>, base: nat, pos: nat, tail: nat)
    requires MemberType(t) && Fits(t, d) && |data| < Usize
    requires Holds(data, pos, HeadOf(t, d, tail)) && Holds(data, base + tail, TailOf(t, d))
    ensures MemberAt(t, data, base, pos) == Expected(Breaks(t, d), (d, |HeadOf(t, d, tail)|))
    decreases t, 3, 0
  {
    if StaticType(t) {
      StaticNotDynamic(t);
      StaticParam(t, d, data, pos);
    } else {
      ReadHeldUsize(data, pos, tail);
      LeafParam(t, d, data, base + tail);
    }
  }

  // Event parameters

  lemma PointedLeaf(t: AbiType, data: seq<byte>, offset: nat, at: nat)
    requires LeafType(t) && ReadUsize(data, offset) == Ok(at)
    ensures ParamAt(t, data, offset) == AtOffset(t, data, at)
  {
  }

  lemma DynamicLaid(params: seq<AbiParam>, ds: seq<DecodedParam>, data: seq<byte>, at: nat)
    requires |params| == |ds| && Holds(data, at, EncodeAll(Types(params), ds))
    ensures Laid(Types(params), ds, data, at, at, HeadLength(Types(params), ds))
  {
    var ts := Types(params);
    var n := HeadLength(ts, ds);
    HeadsLength(ts, ds, n);
    HoldsSplit(data, at, Heads(ts, ds, n), Tails(ts, ds));
  }

  lemma NotStaticDynamic(t: AbiType)
    requires TopType(t) && !StaticType(t)
    ensures IsDynamic(t)
  {
    if t.Tuple? {
      var p :| p in t.params && !StaticType(p.abiType);
      assert IsDynamic(p.abiType);
    }
  }

  lemma TupleEncodes(t: AbiType, d: DecodedParam)
    requires t.Tuple? && Fits(t, d)
    ensures t == Tuple(t.params) && d == Struct(d.items) && |t.params| == |d.items|
    ensures Encode(t, d) == EncodeAll(Types(t.params), d.items)
    ensures Breaks(t, d) == AnyBreaks(Types(t.params), d.items)
    ensures AllFit(Types(t.params), d.items)
  {
  }

  lemma DynamicTuple(params: seq<AbiParam>, ds: seq<DecodedParam>, data: seq<byte>, offset: nat, tail: nat)
    requires |params| == |ds| && AllFit(Types(params), ds) && |data| < Usize && IsDynamic(Tuple(params))
    requires forall p <- params :: MemberType(p.abiType)
    requires Holds(data, offset, Word(tail)) && Holds(data, tail, EncodeAll(Types(params), ds))
    ensures ParamAt(Tuple(params), data, offset) == Expected(AnyBreaks(Types(params), ds), (Struct(ds), 32))
  {
    ReadHeldUsize(data, offset, tail);
    DynamicLaid(params, ds, data, tail);
    TupleParam(params, Types(params), ds, data, tail, tail, HeadLength(Types(params), ds));
  }

  /** A parameter in the data of an event, given its head and its tail. */
  lemma TopParam(t: AbiType, d: DecodedParam, data: seq<byte>, offset: nat, tail: nat)
    requires TopType(t) && Fits(t, d) && |data| < Usize
    requires Holds(data, offset, HeadOf(t, d, tail)) && Holds(data, tail, TailOf(t, d))
    ensures ParamAt(t, data, offset) == Expected(Breaks(t, d), (d, |HeadOf(t, d, tail)|))
  {
    if StaticType(t) {
      StaticNotDynamic(t);
      StaticParam(t, d, data, offset);
    } else {
      NotStaticDynamic(t);
      if t.Tuple? {
        TupleEncodes(t, d);
        DynamicTuple(t.params, d.items, data, offset, tail);
      } else {
        ReadHeldUsize(data, offset, tail);
        LeafParam(t, d, data, tail);
        PointedLeaf(t, data, offset, tail);
      }
    }
  }
}
