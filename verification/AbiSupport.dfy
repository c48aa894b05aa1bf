/** Which types the decoder supports: one constructor above the supported types, a type's values are all read
    back if and only if it is supported too. */
module AbiSupport {
  import opened Tables
  import opened Utf8
  import opened AbiTypes
  import opened AbiWords
  import opened AbiEncoding
  import opened AbiDecoder
  import opened AbiRoundTrip
  import opened AbiArrays

  /** Types of the Contract ABI Specification that Solidity can declare: it has neither arrays of length
      zero nor empty structs. */
  predicate ValidType(t: AbiType) {
    match t
    case Uint(bits) => 8 <= bits <= 256 && bits % 8 == 0
    case Int(bits) => 8 <= bits <= 256 && bits % 8 == 0
    case FixedBytes(n) => 0 < n <= 32
    case Array(inner) => ValidType(inner)
    case FixedArray(inner, n) => n > 0 && ValidType(inner)
    case Tuple(params) => params != [] && forall p <- params :: ValidType(p.abiType)
    case _ => true
  }

  /** The type's head and tail are read back as the value, wherever they lie in the data. */
  ghost predicate RoundTrips(t: AbiType) {
    forall d, data, offset: nat, tail: nat ::
      Fits(t, d) && |data| < Usize && Holds(data, offset, HeadOf(t, d, tail)) && Holds(data, tail, TailOf(t, d)) ==>
        ParamAt(t, data, offset) == Expected(Breaks(t, d), (d, |HeadOf(t, d, tail)|))
  }

  // Zero values

  function Zero(t: AbiType): DecodedParam
    decreases t
  {
    match t
    case Uint(bits) => if bits <= 128 then Unsigned(0) else Unsigned256("0")
    case Int(bits) => if bits <= 128 then Signed(0) else Signed256("0")
    case Address => AddressOf(Zeros(20))
    case Bool => Flag(false)
    case FixedBytes(n) => FixedBlob(Zeros(n))
    case Bytes => Blob([])
    case String => Str([])
    case Array(_) => List([])
    case FixedArray(inner, n) => List(Copies(Zero(inner), n))
    case Tuple(params) => Struct(ZeroMembers(params))
  }

  function ZeroMembers(params: seq<AbiParam>): (ds: seq<DecodedParam>)
    ensures |ds| == |params|
    decreases params
  {
    if params == [] then [] else [Zero(params[0].abiType)] + ZeroMembers(params[1..])
  }

  function Copies(d: DecodedParam, n: nat): (ds: seq<DecodedParam>)
    ensures |ds| == n
  {
    if n == 0 then [] else [d] + Copies(d, n - 1)
  }

  lemma ZeroText()
    ensures UnsignedNumber("0") == 0 && SignedNumber("0") == 0
    ensures Decimal(0) == "0" && SignedDecimal(0) == "0"
  {
    DecimalRoundTrip(0);
  }

  lemma ZeroWord(t: AbiType)
    requires OneWord(t) && ValidType(t)
    ensures Fits(t, Zero(t)) && !Breaks(t, Zero(t))
  {
    ZeroText();
    if t.Int? {
      assert Pow2(t.bits - 1) > 0;
    }
  }

  lemma {:induction false} ZeroFits(t: AbiType)
    requires ValidType(t)
    ensures Fits(t, Zero(t)) && !Breaks(t, Zero(t))
    decreases t
  {
    match t {
      case FixedArray(inner, n) =>
        ZeroFits(inner);
        CopiesFit(inner, Zero(inner), n);
      case Tuple(params) => ZeroMembersFit(params);
      case Bytes =>
      case String =>
      case Array(_) =>
      case _ => ZeroWord(t);
    }
  }

  lemma {:induction false} CopiesFit(t: AbiType, d: DecodedParam, n: nat)
    requires Fits(t, d) && !Breaks(t, d)
    ensures AllFit(Repeated(t, n), Copies(d, n)) && !AnyBreaks(Repeated(t, n), Copies(d, n))
  {
    if n > 0 {
      RepeatedTail(t, n);
      assert Copies(d, n)[1..] == Copies(d, n - 1);
      CopiesFit(t, d, n - 1);
    }
  }

  lemma {:induction false} ZeroMembersFit(params: seq<AbiParam>)
    requires forall p <- params :: ValidType(p.abiType)
    ensures AllFit(Types(params), ZeroMembers(params)) && !AnyBreaks(Types(params), ZeroMembers(params))
    decreases params
  {
    if params != [] {
      TypesTail(params);
      assert params[0] in params;
      assert ZeroMembers(params)[1..] == ZeroMembers(params[1..]);
      ZeroFits(params[0].abiType);
      ZeroMembersFit(params[1..]);
    }
  }

  /** The encoding of a static zero value starts with a zero word. */
  predicate StartsWithWord(e: seq<byte>, n: nat) {
    Word(n) <= e
  }

  lemma {:induction false} ZeroBytes(width: nat)
    ensures BytesOf(0, width) == Zeros(width)
  {
    if width > 0 {
      ZeroBytes(width - 1);
    }
  }

  lemma ZeroWords()
    ensures Word(0) == Zeros(32) && SignedWord(0) == Word(0)
  {
    ZeroBytes(32);
    var p := Pow2(WordBits);
    assert p > 0 && 0 % p == 0;
  }

  lemma ZeroPadded(n: nat)
    requires 0 < n <= 32
    ensures Padded(Zeros(n)) == Zeros(32)
  {
  }

  lemma ZeroWordEncodes(t: AbiType)
    requires OneWord(t) && ValidType(t)
    ensures Encode(t, Zero(t)) == Word(0)
  {
    match t {
      case Uint(_) => ZeroText();
      case Int(_) =>
        ZeroText();
        ZeroWords();
      case Address =>
        ZeroWords();
        assert Zeros(12) + Zeros(20) == Zeros(32);
      case Bool =>
      case FixedBytes(n) =>
        ZeroWords();
        ZeroPadded(n);
    }
  }

  lemma PrefixOfBoth(a: seq<byte>, b: seq<byte>, n: nat)
    requires StartsWithWord(a, n)
    ensures StartsWithWord(a + b, n)
  {
  }

  lemma {:induction false} ZeroStarts(t: AbiType)
    requires StaticType(t) && ValidType(t)
    ensures StartsWithWord(Encode(t, Zero(t)), 0)
    decreases t
  {
    match t {
      case FixedArray(inner, n) =>
        var ds := Copies(Zero(inner), n);
        ZeroStarts(inner);
        StaticNotDynamic(inner);
        StaticFirst(inner, ds);
        PrefixOfBoth(Encode(inner, ds[0]), EncodeAll(Repeated(inner, n - 1), ds[1..]), 0);
        assert Encode(t, Zero(t)) == EncodeAll(Repeated(inner, n), ds);
      case Tuple(params) =>
        var ts, ds := Types(params), ZeroMembers(params);
        assert params[0] in params;
        ZeroStarts(params[0].abiType);
        StaticTypes(params);
        EncodeFirst(ts, ds);
        PrefixOfBoth(Encode(ts[0], ds[0]), EncodeAll(ts[1..], ds[1..]), 0);
        assert Encode(t, Zero(t)) == EncodeAll(ts, ds);
      case _ => ZeroWordEncodes(t);
    }
  }

  // Reading where the data are all ones

  predicate Ones(data: seq<byte>, end: nat) {
    end <= |data| && forall i :: 0 <= i < end ==> data[i] == 255
  }

  lemma OnesNoUsize(data: seq<byte>, end: nat, at: nat)
    requires Ones(data, end) && at + 32 <= end
    ensures ReadUsize(data, at).Err?
  {
    assert data[at..at + 32][0] == 255;
  }

  /** The bytes that the heads of a tuple take in the decoder. */
  function HeadSizes(params: seq<AbiParam>): nat {
    if params == [] then 0
    else (if IsDynamic(params[0].abiType) then 32 else StaticSize(params[0].abiType)) + HeadSizes(params[1..])
  }

  /** A static parameter takes its size, whatever the data. */
  lemma {:induction false} ParamTakes(t: AbiType, data: seq<byte>, at: nat)
    requires StaticType(t) && ParamAt(t, data, at).Ok?
    ensures ParamAt(t, data, at).value.1 == StaticSize(t)
    decreases t
  {
    StaticNotDynamic(t);
    if t.Tuple? {
      MembersTake(t.params, data, at, at);
    }
  }

  lemma {:induction false} MembersTake(params: seq<AbiParam>, data: seq<byte>, base: nat, pos: nat)
    requires (forall p <- params :: StaticType(p.abiType)) && TupleFrom(params, data, base, pos).Ok?
    ensures TupleFrom(params, data, base, pos).value.1 == pos + StaticSizes(params)
    decreases params
  {
    if params != [] {
      var t := params[0].abiType;
      assert params[0] in params;
      StaticNotDynamic(t);
      ParamTakes(t, data, pos);
      MembersTake(params[1..], data, base, pos + StaticSize(t));
    }
  }

  /** A tuple with a dynamic member cannot be read there. */
  lemma {:induction false} TupleInOnes(params: seq<AbiParam>, data: seq<byte>, base: nat, pos: nat, end: nat)
    requires (forall p <- params :: MemberType(p.abiType)) && exists p <- params :: IsDynamic(p.abiType)
    requires Ones(data, end) && pos + HeadSizes(params) <= end
    ensures TupleFrom(params, data, base, pos).Err?
    decreases params
  {
    var t := params[0].abiType;
    assert params[0] in params;
    if IsDynamic(t) {
      OnesNoUsize(data, end, pos);
    } else {
      assert params == [params[0]] + params[1..];
      if ParamAt(t, data, pos).Ok? {
        ParamTakes(t, data, pos);
        TupleInOnes(params[1..], data, base, pos + StaticSize(t), end);
      }
    }
  }

  /** The bytes that are read first behind the pointer to a dynamic value. */
  function Reach(t: AbiType): nat {
    if t.Tuple? then 32 + HeadSizes(t.params) else 32
  }

  lemma DynamicInOnes(t: AbiType, data: seq<byte>, at: nat, p: nat, end: nat)
    requires TopType(t) && IsDynamic(t) && ReadUsize(data, at) == Ok(p)
    requires Ones(data, end) && p + Reach(t) <= end
    ensures ParamAt(t, data, at).Err?
  {
    if t.Tuple? {
      TupleMembers(t);
      TupleInOnes(t.params, data, p, p, end);
    } else {
      NotStaticLeaf(t);
      OnesNoUsize(data, end, p);
    }
  }

  lemma TupleMembers(t: AbiType)
    requires TopType(t) && IsDynamic(t) && t.Tuple?
    ensures forall p <- t.params :: MemberType(p.abiType)
    ensures exists p <- t.params :: IsDynamic(p.abiType)
  {
    if StaticType(t) {
      StaticNotDynamic(t);
      assert false;
    }
  }

  lemma NotStaticLeaf(t: AbiType)
    requires TopType(t) && IsDynamic(t) && !t.Tuple?
    ensures LeafType(t)
  {
    if StaticType(t) {
      StaticNotDynamic(t);
      assert false;
    }
  }

  // Types that are not supported

  /** One constructor above the supported types. */
  predicate PartsSupported(t: AbiType) {
    match t
    case Array(inner) => TopType(inner)
    case FixedArray(inner, _) => TopType(inner)
    case Tuple(params) => forall p <- params :: TopType(p.abiType)
    case _ => true
  }

  function Sample(t: AbiType): DecodedParam {
    if t.Array? then List(Copies(Zero(t.inner), 1)) else Zero(t)
  }

  /** The bytes in front of a sample that its misread pointers reach. */
  function Frame(t: AbiType): nat {
    match t
    case Array(inner) => 32 + Reach(inner)
    case FixedArray(inner, n) => 32 * n + Reach(inner)
    case Tuple(params) => MemberFrames(params)
    case _ => 0
  }

  function MemberFrames(params: seq<AbiParam>): nat {
    if params == [] then 0
    else 32 + 2 * Reach(params[0].abiType) + MemberFrames(params[1..])
  }

  /** A log with a sample of the type has fewer than 2 to the 64 bytes. */
  predicate InMemory(t: AbiType) {
    Frame(t) + 32 + |Encode(t, Sample(t))| < Usize
  }

  lemma SampleFits(t: AbiType)
    requires ValidType(t)
    ensures Fits(t, Sample(t)) && !Breaks(t, Sample(t))
  {
    if t.Array? {
      ZeroFits(t.inner);
      CopiesFit(t.inner, Zero(t.inner), 1);
    } else {
      ZeroFits(t);
    }
  }

  function AllOnes(n: nat): (s: seq<byte>)
    ensures |s| == n
  {
    seq(n, i => 255)
  }

  /** The head and tail of a dynamic value, behind bytes that are all ones. */
  predicate Framed(t: AbiType, d: DecodedParam, data: seq<byte>, end: nat, at: nat) {
    && Ones(data, end) && |data| < Usize
    && Holds(data, end, Word(at)) && Holds(data, at, Encode(t, d))
  }

  lemma SampleFrame(t: AbiType) returns (data: seq<byte>, at: nat)
    requires InMemory(t)
    ensures Framed(t, Sample(t), data, Frame(t), at)
  {
    var end, e := Frame(t), Encode(t, Sample(t));
    at := end + 32;
    var front := AllOnes(end) + Word(at);
    data := front + e;
    assert front[end..at] == Word(at);
    assert data[end..at] == Word(at);
    assert data[at..at + |e|] == e;
  }

  /** A sample that is not read from there shows that the type does not round-trip. */
  lemma FrameFails(t: AbiType, d: DecodedParam, data: seq<byte>, end: nat, at: nat)
    requires IsDynamic(t) && Fits(t, d) && !Breaks(t, d) && Framed(t, d, data, end, at)
    requires ParamAt(t, data, end).Err?
    ensures !RoundTrips(t)
  {
    assert Fits(t, d) && Holds(data, end, HeadOf(t, d, at)) && Holds(data, at, TailOf(t, d));
  }

  // Arrays of dynamic elements

  lemma {:induction false} DynamicHeads(t: AbiType, ds: seq<DecodedParam>)
    requires IsDynamic(t)
    ensures HeadLength(Repeated(t, |ds|), ds) == 32 * |ds|
    decreases |ds|
  {
    if ds != [] {
      RepeatedTail(t, |ds|);
      DynamicHeads(t, ds[1..]);
    }
  }

  /** The encoding of a sequence starts with the first head. */
  lemma StartHeld(ts: seq<AbiType>, ds: seq<DecodedParam>, n: nat, data: seq<byte>, at: nat)
    requires |ts| == |ds| && ds != [] && n == HeadLength(ts, ds)
    requires Holds(data, at, EncodeAll(ts, ds))
    ensures Holds(data, at, HeadOf(ts[0], ds[0], n))
  {
    HoldsSplit(data, at, Heads(ts, ds, n), Tails(ts, ds));
    HeadHeld(ts, ds, data, at, n, at + |HeadOf(ts[0], ds[0], n)|, n + |TailOf(ts[0], ds[0])|);
  }

  /** Their encoding starts with an offset that counts from its own start. */
  lemma ItemsStart(t: AbiType, ds: seq<DecodedParam>, data: seq<byte>, at: nat)
    requires IsDynamic(t) && ds != [] && 32 * |ds| < Usize
    requires Holds(data, at, EncodeAll(Repeated(t, |ds|), ds))
    ensures ReadUsize(data, at) == Ok(32 * |ds|)
  {
    var ts, n := Repeated(t, |ds|), 32 * |ds|;
    DynamicHeads(t, ds);
    StartHeld(ts, ds, n, data, at);
    ReadHeldUsize(data, at, n);
  }

  /** The decoder takes it from the start of the data. */
  lemma ItemsInOnes(t: AbiType, ds: seq<DecodedParam>, data: seq<byte>, at: nat, end: nat)
    requires TopType(t) && IsDynamic(t) && ds != [] && 32 * |ds| < Usize
    requires Holds(data, at, EncodeAll(Repeated(t, |ds|), ds))
    requires Ones(data, end) && 32 * |ds| + Reach(t) <= end
    ensures ItemsFrom(t, |ds|, data, at).Err?
  {
    ItemsStart(t, ds, data, at);
    DynamicInOnes(t, data, at, 32 * |ds|, end);
  }

  lemma ArrayInFrame(inner: AbiType, ds: seq<DecodedParam>, data: seq<byte>, end: nat, at: nat)
    requires TopType(inner) && IsDynamic(inner) && |ds| == 1 && 32 + Reach(inner) <= end
    requires Framed(Array(inner), List(ds), data, end, at)
    ensures ParamAt(Array(inner), data, end).Err?
  {
    var e := EncodeAll(Repeated(inner, 1), ds);
    ReadHeldUsize(data, end, at);
    assert Encode(Array(inner), List(ds)) == Word(1) + e;
    HoldsSplit(data, at, Word(1), e);
    ReadHeldUsize(data, at, 1);
    ItemsInOnes(inner, ds, data, at + 32, end);
  }

  lemma ArrayFails(inner: AbiType)
    requires TopType(inner) && IsDynamic(inner) && ValidType(inner) && InMemory(Array(inner))
    ensures !RoundTrips(Array(inner))
  {
    var t := Array(inner);
    var data, at := SampleFrame(t);
    SampleFits(t);
    ArrayInFrame(inner, Copies(Zero(inner), 1), data, Frame(t), at);
    FrameFails(t, Sample(t), data, Frame(t), at);
  }

  lemma FixedArrayInFrame(inner: AbiType, ds: seq<DecodedParam>, data: seq<byte>, end: nat, at: nat)
    requires TopType(inner) && IsDynamic(inner) && ds != [] && 32 * |ds| + Reach(inner) <= end
    requires Framed(FixedArray(inner, |ds|), List(ds), data, end, at)
    ensures ParamAt(FixedArray(inner, |ds|), data, end).Err?
  {
    ReadHeldUsize(data, end, at);
    assert Encode(FixedArray(inner, |ds|), List(ds)) == EncodeAll(Repeated(inner, |ds|), ds);
    ItemsInOnes(inner, ds, data, at, end);
  }

  lemma FixedArrayFails(inner: AbiType, n: nat)
    requires TopType(inner) && IsDynamic(inner) && ValidType(FixedArray(inner, n)) && InMemory(FixedArray(inner, n))
    ensures !RoundTrips(FixedArray(inner, n))
  {
    var t := FixedArray(inner, n);
    var data, at := SampleFrame(t);
    SampleFits(t);
    FixedArrayInFrame(inner, Copies(Zero(inner), n), data, Frame(t), at);
    FrameFails(t, Sample(t), data, Frame(t), at);
  }

  /** A fixed array of longer elements is taken to be shorter than it is. */
  lemma LongElementsFail(inner: AbiType, n: nat)
    requires StaticType(inner) && StaticSize(inner) != 32
    requires ValidType(FixedArray(inner, n)) && InMemory(FixedArray(inner, n))
    ensures !RoundTrips(FixedArray(inner, n))
  {
    var t := FixedArray(inner, n);
    var d, ds := Zero(t), Copies(Zero(inner), n);
    var data := Encode(t, d);
    StaticNotDynamic(inner);
    ZeroFits(inner);
    CopiesFit(inner, Zero(inner), n);
    SampleFits(t);
    assert data == EncodeAll(Repeated(inner, n), ds);
    assert Holds(data, 0, data);
    FixedArrayAdvance(inner, ds, data, 0);
    assert HeadOf(t, d, 0) == data && TailOf(t, d) == [] && Holds(data, 0, []);
    assert Fits(t, d) && Holds(data, 0, HeadOf(t, d, 0)) && Holds(data, 0, TailOf(t, d));
    assert ParamAt(t, data, 0) != Expected(Breaks(t, d), (d, |HeadOf(t, d, 0)|));
  }

  // Dynamic tuples inside tuples

  lemma {:induction false} HeadSizesAre(params: seq<AbiParam>, ds: seq<DecodedParam>)
    requires |params| == |ds| && AllFit(Types(params), ds) && forall p <- params :: MemberType(p.abiType)
    ensures HeadLength(Types(params), ds) == HeadSizes(params)
    decreases params
  {
    if params != [] {
      var t := params[0].abiType;
      assert params[0] in params;
      TypesTail(params);
      HeadSizesAre(params[1..], ds[1..]);
      if StaticType(t) {
        StaticNotDynamic(t);
        StaticSizeIs(t, ds[0]);
      }
    }
  }

  /** The encoding of a tuple's zero value starts with zero or with an offset. */
  lemma TupleStarts(t: AbiType, data: seq<byte>, at: nat) returns (p: nat)
    requires t.Tuple? && ValidType(t) && TopType(t) && IsDynamic(t) && HeadSizes(t.params) < Usize
    requires Holds(data, at, Encode(t, Zero(t)))
    ensures p <= HeadSizes(t.params) && ReadUsize(data, at) == Ok(p)
  {
    var ts, ds := Types(t.params), ZeroMembers(t.params);
    var n := HeadSizes(t.params);
    TupleMembers(t);
    ZeroMembersFit(t.params);
    HeadSizesAre(t.params, ds);
    assert Encode(t, Zero(t)) == EncodeAll(ts, ds);
    StartHeld(ts, ds, n, data, at);
    p := FirstHead(t.params[0].abiType, n, data, at);
  }

  lemma FirstHead(t: AbiType, n: nat, data: seq<byte>, at: nat) returns (p: nat)
    requires MemberType(t) && ValidType(t) && n < Usize && Holds(data, at, HeadOf(t, Zero(t), n))
    ensures p <= n && ReadUsize(data, at) == Ok(p)
  {
    if StaticType(t) {
      var e := Encode(t, Zero(t));
      p := 0;
      StaticNotDynamic(t);
      ZeroStarts(t);
      assert e == Word(0) + e[32..];
      HoldsSplit(data, at, Word(0), e[32..]);
      ReadHeldUsize(data, at, 0);
    } else {
      p := n;
      ReadHeldUsize(data, at, n);
    }
  }

  /** A dynamic tuple as a member is read through one pointer too many. */
  lemma InnerTupleFails(t: AbiType, data: seq<byte>, base: nat, pos: nat, tail: nat, at: nat, end: nat)
    requires TopType(t) && !MemberType(t) && ValidType(t) && at == base + tail
    requires Holds(data, pos, Word(tail)) && Holds(data, at, Encode(t, Zero(t)))
    requires |data| < Usize && Ones(data, end) && 2 * Reach(t) <= end
    ensures MemberAt(t, data, base, pos).Err?
  {
    NotStaticDynamic(t);
    ReadHeldUsize(data, pos, tail);
    var p := TupleStarts(t, data, at);
    DynamicInOnes(t, data, at, p, end);
  }

  lemma TupleStuck(params: seq<AbiParam>, data: seq<byte>, base: nat, pos: nat, n: nat)
    requires params != []
    requires var one := MemberAt(params[0].abiType, data, base, pos);
      one.Err? || (one.value.1 == n && TupleFrom(params[1..], data, base, pos + n).Err?)
    ensures TupleFrom(params, data, base, pos).Err?
  {
  }

  /** One such member makes the whole tuple unreadable. */
  lemma {:induction false} OuterTupleFails(params: seq<AbiParam>, ts: seq<AbiType>, ds: seq<DecodedParam>,
                                           data: seq<byte>, base: nat, pos: nat, tail: nat, end: nat)
    requires ts == Types(params) && ds == ZeroMembers(params) && Laid(ts, ds, data, base, pos, tail)
    requires forall p <- params :: TopType(p.abiType) && ValidType(p.abiType)
    requires exists p <- params :: !MemberType(p.abiType)
    requires |data| < Usize && Ones(data, end) && MemberFrames(params) <= end
    ensures TupleFrom(params, data, base, pos).Err?
    decreases params
  {
    var t := params[0].abiType;
    assert params[0] in params && params == [params[0]] + params[1..];
    if MemberType(t) {
      ZeroMembersFit(params);
      var n, tail' := TupleFirst(params, ts, ds, data, base, pos, tail);
      OuterTupleFails(params[1..], ts[1..], ds[1..], data, base, pos + n, tail', end);
      TupleStuck(params, data, base, pos, n);
    } else {
      InnerFirst(params, ts, ds, data, base, pos, tail, end);
      TupleStuck(params, data, base, pos, 0);
    }
  }

  lemma InnerFirst(params: seq<AbiParam>, ts: seq<AbiType>, ds: seq<DecodedParam>, data: seq<byte>,
                   base: nat, pos: nat, tail: nat, end: nat)
    requires params != [] && TopType(params[0].abiType) && ValidType(params[0].abiType)
    requires !MemberType(params[0].abiType)
    requires ts == Types(params) && ds == ZeroMembers(params) && Laid(ts, ds, data, base, pos, tail)
    requires |data| < Usize && Ones(data, end) && 2 * Reach(params[0].abiType) <= end
    ensures MemberAt(params[0].abiType, data, base, pos).Err?
  {
    var t := params[0].abiType;
    NotStaticDynamic(t);
    LaidFirst(ts, ds, data, base, pos, tail);
    InnerTupleFails(t, data, base, pos, tail, base + tail, end);
  }

  lemma TupleInFrame(params: seq<AbiParam>, ds: seq<DecodedParam>, data: seq<byte>, end: nat, at: nat)
    requires ds == ZeroMembers(params) && IsDynamic(Tuple(params))
    requires forall p <- params :: TopType(p.abiType) && ValidType(p.abiType)
    requires exists p <- params :: !MemberType(p.abiType)
    requires MemberFrames(params) <= end && Framed(Tuple(params), Struct(ds), data, end, at)
    ensures ParamAt(Tuple(params), data, end).Err?
  {
    ReadHeldUsize(data, end, at);
    assert Encode(Tuple(params), Struct(ds)) == EncodeAll(Types(params), ds);
    DynamicLaid(params, ds, data, at);
    OuterTupleFails(params, Types(params), ds, data, at, at, HeadLength(Types(params), ds), end);
  }

  lemma TupleFails(params: seq<AbiParam>)
    requires ValidType(Tuple(params)) && InMemory(Tuple(params))
    requires forall p <- params :: TopType(p.abiType)
    requires exists p <- params :: !MemberType(p.abiType)
    ensures !RoundTrips(Tuple(params))
  {
    var t := Tuple(params);
    var p :| p in params && !MemberType(p.abiType);
    NotStaticDynamic(p.abiType);
    assert IsDynamic(t);
    var data, at := SampleFrame(t);
    SampleFits(t);
    TupleInFrame(params, ZeroMembers(params), data, Frame(t), at);
    FrameFails(t, Sample(t), data, Frame(t), at);
  }

  /** For the types one constructor above the supported ones: every value is read back, wherever its head and
      tail lie, if and only if the type is supported. */
  lemma SupportedIff(t: AbiType)
    requires ValidType(t) && PartsSupported(t) && InMemory(t)
    ensures RoundTrips(t) <==> TopType(t)
  {
    if TopType(t) {
      forall d, data, offset: nat, tail: nat |
        Fits(t, d) && |data| < Usize && Holds(data, offset, HeadOf(t, d, tail)) && Holds(data, tail, TailOf(t, d))
        ensures ParamAt(t, data, offset) == Expected(Breaks(t, d), (d, |HeadOf(t, d, tail)|))
      {
        TopParam(t, d, data, offset, tail);
      }
    } else {
      match t {
        case Array(inner) =>
          NotStaticDynamic(inner);
          ArrayFails(inner);
        case FixedArray(inner, n) =>
          if StaticType(inner) {
            LongElementsFail(inner, n);
          } else {
            NotStaticDynamic(inner);
            FixedArrayFails(inner, n);
          }
        case Tuple(params) => TupleFails(params);
      }
    }
  }
}
