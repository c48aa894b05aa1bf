/** Decoded parameter values and their encoding, as the Solidity Contract ABI Specification defines it in
    its section "Formal Specification of the Encoding". */
module AbiEncoding {
  import opened AbiTypes
  import opened AbiWords
  import opened Utf8

  /** A decoded value (crates/forge-index-core/src/abi/decoder.rs:11-34). Numbers of more than 128 bits are
      decimal texts. */
  datatype DecodedParam =
    | Unsigned(n: nat)
    | Unsigned256(text: string)
    | Signed(k: int)
    | Signed256(text: string)
    | AddressOf(bytes: seq<byte>)
    | Flag(b: bool)
    | Blob(bytes: seq<byte>)
    | FixedBlob(bytes: seq<byte>)
    | Str(bytes: seq<byte>)
    | List(items: seq<DecodedParam>)
    | Struct(items: seq<DecodedParam>)

  function SignedDecimal(k: int): string {
    if k < 0 then "-" + Decimal(-k) else Decimal(k)
  }

  function UnsignedNumber(s: string): nat {
    if AllDigits(s) then Number(s) else 0
  }

  function SignedNumber(s: string): int {
    if s != "" && s[0] == '-' then 0 - UnsignedNumber(s[1..]) else UnsignedNumber(s)
  }

  predicate InSigned(k: int, bits: nat)
    requires bits > 0
  {
    0 - Pow2(bits - 1) <= k < Pow2(bits - 1)
  }

  function Types(params: seq<AbiParam>): (ts: seq<AbiType>)
    ensures |ts| == |params|
  {
    seq(|params|, i requires 0 <= i < |params| => params[i].abiType)
  }

  function Repeated(t: AbiType, n: nat): (ts: seq<AbiType>)
    ensures |ts| == n && forall i :: 0 <= i < n ==> ts[i] == t
  {
    seq(n, i => t)
  }

  /** d is a value of type t. */
  predicate Fits(t: AbiType, d: DecodedParam)
    decreases d
  {
    match t
    case Uint(bits) =>
      if bits <= 128 then d.Unsigned? && d.n < Pow2(bits)
      else
        && bits <= 256 && d.Unsigned256?
        && d.text == Decimal(UnsignedNumber(d.text)) && UnsignedNumber(d.text) < Pow2(bits)
    case Int(bits) =>
      0 < bits <= 256 &&
      if bits <= 128 then d.Signed? && InSigned(d.k, bits)
      else d.Signed256? && d.text == SignedDecimal(SignedNumber(d.text)) && InSigned(SignedNumber(d.text), bits)
    case Address => d.AddressOf? && |d.bytes| == 20
    case Bool => d.Flag?
    case FixedBytes(n) => 0 < n <= 32 && d.FixedBlob? && |d.bytes| == n
    case Bytes => d.Blob? && |d.bytes| < Usize
    case String => d.Str? && |d.bytes| < Usize && WellFormed(d.bytes)
    case Array(inner) => d.List? && |d.items| < Usize && AllFit(Repeated(inner, |d.items|), d.items)
    case FixedArray(inner, n) => d.List? && |d.items| == n && AllFit(Repeated(inner, n), d.items)
    case Tuple(params) => d.Struct? && |d.items| == |params| && AllFit(Types(params), d.items)
  }

  predicate AllFit(ts: seq<AbiType>, ds: seq<DecodedParam>)
    requires |ts| == |ds|
    decreases ds
  {
    ds == [] || (Fits(ts[0], ds[0]) && AllFit(ts[1..], ds[1..]))
  }

  // The encoding

  function Zeros(n: nat): (s: seq<byte>)
    ensures |s| == n
  {
    seq(n, i => 0)
  }

  function Word(n: nat): (s: seq<byte>)
    ensures |s| == 32
  {
    BytesOf(n, WordBits / 8)
  }

  /** Two's complement. */
  function SignedWord(k: int): (s: seq<byte>)
    ensures |s| == 32
  {
    Word(k % Pow2(WordBits))
  }

  function Padded(s: seq<byte>): (p: seq<byte>)
    ensures |p| % 32 == 0 && |p| >= |s| && p[..|s|] == s
  {
    s + Zeros((32 - |s| % 32) % 32)
  }

  function Encode(t: AbiType, d: DecodedParam): seq<byte>
    decreases d, 0
  {
    match d
    case Unsigned(n) => Word(n)
    case Unsigned256(s) => Word(UnsignedNumber(s))
    case Signed(k) => SignedWord(k)
    case Signed256(s) => SignedWord(SignedNumber(s))
    case AddressOf(b) => Zeros(12) + b
    case Flag(b) => Word(if b then 1 else 0)
    case Blob(b) => Word(|b|) + Padded(b)
    case FixedBlob(b) => Padded(b)
    case Str(b) => Word(|b|) + Padded(b)
    case List(items) =>
      if t.Array? then Word(|items|) + EncodeAll(Repeated(t.inner, |items|), items)
      else if t.FixedArray? then EncodeAll(Repeated(t.inner, |items|), items)
      else []
    case Struct(items) =>
      if t.Tuple? && |t.params| == |items| then EncodeAll(Types(t.params), items) else []
  }

  /** The heads of a sequence of values, then the tails of its dynamic ones. */
  function EncodeAll(ts: seq<AbiType>, ds: seq<DecodedParam>): seq<byte>
    requires |ts| == |ds|
    decreases ds, 1
  {
    Heads(ts, ds, HeadLength(ts, ds)) + Tails(ts, ds)
  }

  /** The head of a static value is its encoding, that of a dynamic one the offset of its tail. */
  function HeadOf(t: AbiType, d: DecodedParam, tail: nat): seq<byte>
    decreases d, 1
  {
    if IsDynamic(t) then Word(tail) else Encode(t, d)
  }

  function TailOf(t: AbiType, d: DecodedParam): seq<byte>
    decreases d, 1
  {
    if IsDynamic(t) then Encode(t, d) else []
  }

  function Heads(ts: seq<AbiType>, ds: seq<DecodedParam>, tail: nat): seq<byte>
    requires |ts| == |ds|
    decreases ds, 0
  {
    if ds == [] then []
    else HeadOf(ts[0], ds[0], tail) + Heads(ts[1..], ds[1..], tail + |TailOf(ts[0], ds[0])|)
  }

  function Tails(ts: seq<AbiType>, ds: seq<DecodedParam>): seq<byte>
    requires |ts| == |ds|
    decreases ds, 0
  {
    if ds == [] then [] else TailOf(ts[0], ds[0]) + Tails(ts[1..], ds[1..])
  }

  function HeadLength(ts: seq<AbiType>, ds: seq<DecodedParam>): nat
    requires |ts| == |ds|
    decreases ds, 0
  {
    if ds == [] then 0 else |HeadOf(ts[0], ds[0], 0)| + HeadLength(ts[1..], ds[1..])
  }

  lemma {:induction false} HeadsLength(ts: seq<AbiType>, ds: seq<DecodedParam>, tail: nat)
    requires |ts| == |ds|
    ensures |Heads(ts, ds, tail)| == HeadLength(ts, ds)
    decreases |ds|
  {
    if ds != [] {
      HeadsLength(ts[1..], ds[1..], tail + |TailOf(ts[0], ds[0])|);
    }
  }
}
