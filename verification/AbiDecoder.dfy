/** The log decoder (crates/forge-index-core/src/abi/decoder.rs). Offsets and lengths are unbounded here;
    the program's are machine words. */
module AbiDecoder {
  import opened Tables
  import opened Utf8
  import opened AbiTypes
  import opened AbiWords
  import opened AbiEncoding

  // Slots

  function ReadSlot(data: seq<byte>, offset: nat): (r: Result<seq<byte>, AbiError>)
    ensures r.Ok? ==> |r.value| == 32
  {
    if offset + 32 > |data| then Err(DecodeMismatch) else Ok(data[offset..offset + 32])
  }

  /** A slot as a machine word; its high 24 bytes must be zero. */
  function ToUsize(slot: seq<byte>): Result<nat, AbiError>
    requires |slot| == 32
  {
    if exists i :: 0 <= i < 24 && slot[i] != 0 then Err(DecodeMismatch) else Ok(BigEndian(slot[24..]))
  }

  function ReadUsize(data: seq<byte>, offset: nat): Result<nat, AbiError> {
    match ReadSlot(data, offset)
    case Ok(slot) => ToUsize(slot)
    case Err(e) => Err(e)
  }

  function UintOf(slot: seq<byte>, bits: nat): DecodedParam
    requires |slot| == 32
  {
    if bits <= 128 then Unsigned(BigEndian(slot[16..])) else Unsigned256(Decimal(BigEndian(slot)))
  }

  /** The number of a width of at most 128 bits in the low 16 bytes; the shift that extends a set sign bit
      overflows at exactly 128. */
  function SignExtended(raw: nat, bits: nat): Option<int>
    requires bits > 0
  {
    ReadSigned(raw, Pow2(bits - 1), bits == HalfBits, Pow2(HalfBits - 1))
  }

  /** With the given sign bit, in a word of twice `half`. */
  function ReadSigned(raw: nat, sign: nat, last: bool, half: nat): Option<int>
    requires sign > 0
  {
    if raw / sign % 2 == 1 then
      if last then None else Some(raw % (2 * sign) - 2 * sign)
    else Some(if raw < half then raw else raw - 2 * half)
  }

  /** Two's complement in 256 bits, with wrap-around. */
  function Complement(n: nat): nat {
    (Pow2(WordBits) - n) % Pow2(WordBits)
  }

  function SignedText(n: nat, negative: bool): string {
    if negative then "-" + Decimal(Complement(n)) else Decimal(n)
  }

  /** A width of 0 overflows the subtraction that finds the sign bit. */
  function IntOf(slot: seq<byte>, bits: nat): Result<DecodedParam, AbiError>
    requires |slot| == 32
  {
    if bits == 0 then Err(Overflow)
    else if bits <= 128 then
      match SignExtended(BigEndian(slot[16..]), bits)
      case Some(k) => Ok(Signed(k))
      case None => Err(Overflow)
    else Ok(Signed256(SignedText(BigEndian(slot), slot[0] >= 0x80)))
  }

  predicate OneWord(t: AbiType) {
    t.Uint? || t.Int? || t.Address? || t.Bool? || t.FixedBytes?
  }

  /** The value of a one-word type in a slot. */
  function WordValue(t: AbiType, slot: seq<byte>): Result<DecodedParam, AbiError>
    requires OneWord(t) && |slot| == 32
  {
    match t
    case Uint(bits) => Ok(UintOf(slot, bits))
    case Int(bits) => IntOf(slot, bits)
    case Address => Ok(AddressOf(slot[12..]))
    case Bool => Ok(Flag(slot[31] != 0))
    case FixedBytes(n) => Ok(FixedBlob(slot[..if n <= 32 then n else 32]))
  }

  /** Other indexed types come as a hash, which is kept as it is. */
  function IndexedValue(t: AbiType, topic: seq<byte>): Result<DecodedParam, AbiError>
    requires |topic| == 32
  {
    if OneWord(t) then WordValue(t, topic) else Ok(FixedBlob(topic))
  }

  // Data. Each result is the value and the number of bytes its head takes.

  function ParamAt(t: AbiType, data: seq<byte>, offset: nat): Result<(DecodedParam, nat), AbiError>
    decreases t, 0, 0
  {
    match t
    case Bytes => BlobHead(PointedBytes(data, offset))
    case String => StrHead(PointedBytes(data, offset))
    case Array(inner) =>
      (match ReadUsize(data, offset)
       case Ok(at) => ListHead(CountedItems(inner, data, at))
       case Err(e) => Err(e))
    case FixedArray(inner, len) =>
      if IsDynamic(inner) then
        match ReadUsize(data, offset)
        case Ok(at) => ListHead(ItemsFrom(inner, len, data, at))
        case Err(e) => Err(e)
      else
        (match ItemsFrom(inner, len, data, offset)
         case Ok(items) => Ok((List(items), 32 * len))
         case Err(e) => Err(e))
    case Tuple(params) =>
      if IsDynamic(t) then
        match ReadUsize(data, offset)
        case Ok(at) => StructHead(TupleFrom(params, data, at, at))
        case Err(e) => Err(e)
      else
        (match TupleFrom(params, data, offset, offset)
         case Ok((items, end)) => Ok((Struct(items), end - offset))
         case Err(e) => Err(e))
    case _ =>
      match ReadSlot(data, offset)
      case Ok(slot) =>
        (match WordValue(t, slot)
         case Ok(d) => Ok((d, 32))
         case Err(e) => Err(e))
      case Err(e) => Err(e)
  }

  // A dynamic value's head takes one word.

  function BlobHead(r: Result<seq<byte>, AbiError>): Result<(DecodedParam, nat), AbiError> {
    match r
    case Ok(b) => Ok((Blob(b), 32))
    case Err(e) => Err(e)
  }

  function StrHead(r: Result<seq<byte>, AbiError>): Result<(DecodedParam, nat), AbiError> {
    match r
    case Ok(b) => Ok((Str(Lossy(b)), 32))
    case Err(e) => Err(e)
  }

  function ListHead(r: Result<seq<DecodedParam>, AbiError>): Result<(DecodedParam, nat), AbiError> {
    match r
    case Ok(ds) => Ok((List(ds), 32))
    case Err(e) => Err(e)
  }

  function StructHead(r: Result<(seq<DecodedParam>, nat), AbiError>): Result<(DecodedParam, nat), AbiError> {
    match r
    case Ok((ds, _)) => Ok((Struct(ds), 32))
    case Err(e) => Err(e)
  }

  /** Bytes behind a length; they may be cut off by the end of the data. */
  function CountedBytes(data: seq<byte>, at: nat): Result<seq<byte>, AbiError> {
    match ReadUsize(data, at)
    case Ok(len) =>
      var start := at + 32;
      Ok(data[start..if start + len <= |data| then start + len else |data|])
    case Err(e) => Err(e)
  }

  function PointedBytes(data: seq<byte>, offset: nat): Result<seq<byte>, AbiError> {
    match ReadUsize(data, offset)
    case Ok(at) => CountedBytes(data, at)
    case Err(e) => Err(e)
  }

  function CountedItems(inner: AbiType, data: seq<byte>, at: nat): Result<seq<DecodedParam>, AbiError>
    decreases inner, 3, 0
  {
    match ReadUsize(data, at)
    case Ok(len) => ItemsFrom(inner, len, data, at + 32)
    case Err(e) => Err(e)
  }

  function ItemsFrom(inner: AbiType, len: nat, data: seq<byte>, pos: nat): Result<seq<DecodedParam>, AbiError>
    decreases inner, 2, len
  {
    if len == 0 then Ok([])
    else
      match ParamAt(inner, data, pos)
      case Ok((d, consumed)) =>
        (match ItemsFrom(inner, len - 1, data, pos + consumed)
         case Ok(ds) => Ok([d] + ds)
         case Err(e) => Err(e))
      case Err(e) => Err(e)
  }

  /** The members of a tuple and the position behind its heads. */
  function TupleFrom(params: seq<AbiParam>, data: seq<byte>, base: nat, pos: nat)
    : (r: Result<(seq<DecodedParam>, nat), AbiError>)
    ensures r.Ok? ==> r.value.1 >= pos
    decreases params, 0, 0
  {
    if params == [] then Ok(([], pos))
    else
      match MemberAt(params[0].abiType, data, base, pos)
      case Ok((d, consumed)) =>
        (match TupleFrom(params[1..], data, base, pos + consumed)
         case Ok((ds, end)) => Ok(([d] + ds, end))
         case Err(e) => Err(e))
      case Err(e) => Err(e)
  }

  function MemberAt(t: AbiType, data: seq<byte>, base: nat, pos: nat): Result<(DecodedParam, nat), AbiError>
    decreases t, 2, 0
  {
    if IsDynamic(t) then
      match ReadUsize(data, pos)
      case Ok(offset) => AtOffset(t, data, base + offset)
      case Err(e) => Err(e)
    else ParamAt(t, data, pos)
  }

  /** A dynamic member of a tuple at its own position. */
  function AtOffset(t: AbiType, data: seq<byte>, at: nat): Result<(DecodedParam, nat), AbiError>
    decreases t, 1, 0
  {
    match t
    case Bytes => BlobHead(CountedBytes(data, at))
    case String => StrHead(CountedBytes(data, at))
    case Array(inner) => ListHead(CountedItems(inner, data, at))
    case _ =>
      match ParamAt(t, data, at)
      case Ok((d, _)) => Ok((d, 32))
      case Err(e) => Err(e)
  }

  // The decoder's loops, proved against the functions above

  method SlotToUsize(slot: seq<byte>) returns (r: Result<nat, AbiError>)
    requires |slot| == 32
    ensures r == ToUsize(slot)
  {
    for i := 0 to 24
      invariant forall j :: 0 <= j < i ==> slot[j] == 0
    {
      if slot[i] != 0 {
        return Err(DecodeMismatch);
      }
    }
    return Ok(BigEndian(slot[24..]));
  }

  method DecodeUsize(data: seq<byte>, offset: nat) returns (r: Result<nat, AbiError>)
    ensures r == ReadUsize(data, offset)
  {
    var slot := ReadSlot(data, offset);
    if slot.Err? {
      return Err(slot.error);
    }
    r := SlotToUsize(slot.value);
  }

  function Prefixed(items: seq<DecodedParam>, r: Result<seq<DecodedParam>, AbiError>)
    : Result<seq<DecodedParam>, AbiError>
  {
    match r
    case Ok(ds) => Ok(items + ds)
    case Err(e) => Err(e)
  }

  method DecodeItems(inner: AbiType, len: nat, data: seq<byte>, start: nat)
    returns (r: Result<seq<DecodedParam>, AbiError>)
    ensures r == ItemsFrom(inner, len, data, start)
    decreases inner, 2, 0
  {
    var items: seq<DecodedParam> := [];
    var pos := start;
    var left := len;
    ghost var all := ItemsFrom(inner, len, data, start);
    PrefixNone(all);
    while left > 0
      invariant all == Prefixed(items, ItemsFrom(inner, left, data, pos))
    {
      var item := DecodeParam(inner, data, pos);
      if item.Err? {
        ItemsFail(inner, left, data, pos);
        return Err(item.error);
      }
      ItemsPrefixed(inner, left, data, pos, items);
      assert all == Prefixed(items + [item.value.0], ItemsFrom(inner, left - 1, data, pos + item.value.1));
      items, pos, left := items + [item.value.0], pos + item.value.1, left - 1;
    }
    assert items + [] == items;
    return Ok(items);
  }

  lemma PrefixNone(r: Result<seq<DecodedParam>, AbiError>)
    ensures Prefixed([], r) == r
  {
    assert r.Ok? ==> [] + r.value == r.value;
  }

  lemma ItemsFail(inner: AbiType, len: nat, data: seq<byte>, pos: nat)
    requires len > 0 && ParamAt(inner, data, pos).Err?
    ensures ItemsFrom(inner, len, data, pos) == Err(ParamAt(inner, data, pos).error)
  {
  }

  lemma ItemsPrefixed(inner: AbiType, len: nat, data: seq<byte>, pos: nat, items: seq<DecodedParam>)
    requires len > 0 && ParamAt(inner, data, pos).Ok?
    ensures var one := ParamAt(inner, data, pos).value;
            Prefixed(items, ItemsFrom(inner, len, data, pos))
            == Prefixed(items + [one.0], ItemsFrom(inner, len - 1, data, pos + one.1))
  {
    var one := ParamAt(inner, data, pos).value;
    var rest := ItemsFrom(inner, len - 1, data, pos + one.1);
    if rest.Ok? {
      assert items + ([one.0] + rest.value) == items + [one.0] + rest.value;
    }
  }

  method DecodeCountedItems(inner: AbiType, data: seq<byte>, at: nat) returns (r: Result<seq<DecodedParam>, AbiError>)
    ensures r == CountedItems(inner, data, at)
    decreases inner, 3, 0
  {
    var len := DecodeUsize(data, at);
    if len.Err? {
      return Err(len.error);
    }
    r := DecodeItems(inner, len.value, data, at + 32);
  }

  function PrefixedTuple(items: seq<DecodedParam>, r: Result<(seq<DecodedParam>, nat), AbiError>)
    : Result<(seq<DecodedParam>, nat), AbiError>
  {
    match r
    case Ok((ds, end)) => Ok((items + ds, end))
    case Err(e) => Err(e)
  }

  /** The members of a tuple and the size of its heads. */
  method DecodeTupleAt(params: seq<AbiParam>, data: seq<byte>, base: nat)
    returns (r: Result<(seq<DecodedParam>, nat), AbiError>)
    ensures r == match TupleFrom(params, data, base, base)
                 case Ok((items, end)) => Ok((items, end - base))
                 case Err(e) => Err(e)
    decreases params, 0, 0
  {
    var items: seq<DecodedParam> := [];
    var pos := base;
    assert params[0..] == params;
    PrefixNoMember(TupleFrom(params, data, base, base));
    for i := 0 to |params|
      invariant pos >= base
      invariant TupleFrom(params, data, base, base) == PrefixedTuple(items, TupleFrom(params[i..], data, base, pos))
    {
      var t := params[i].abiType;
      assert params[i..][0] == params[i] && params[i..][1..] == params[i + 1..];
      var item: Result<(DecodedParam, nat), AbiError>;
      if IsDynamic(t) {
        var offset := DecodeUsize(data, pos);
        if offset.Err? {
          return Err(offset.error);
        }
        item := DecodeAtOffset(t, data, base + offset.value);
      } else {
        item := DecodeParam(t, data, pos);
      }
      assert item == MemberAt(t, data, base, pos);
      if item.Err? {
        return Err(item.error);
      }
      TuplePrefixed(params[i..], data, base, pos, items);
      items := items + [item.value.0];
      pos := pos + item.value.1;
    }
    assert items + [] == items;
    return Ok((items, pos - base));
  }

  lemma PrefixNoMember(r: Result<(seq<DecodedParam>, nat), AbiError>)
    ensures PrefixedTuple([], r) == r
  {
    assert r.Ok? ==> [] + r.value.0 == r.value.0;
  }

  lemma TuplePrefixed(params: seq<AbiParam>, data: seq<byte>, base: nat, pos: nat, items: seq<DecodedParam>)
    requires params != [] && MemberAt(params[0].abiType, data, base, pos).Ok?
    ensures var (d, consumed) := MemberAt(params[0].abiType, data, base, pos).value;
            PrefixedTuple(items, TupleFrom(params, data, base, pos))
            == PrefixedTuple(items + [d], TupleFrom(params[1..], data, base, pos + consumed))
  {
    var (d, consumed) := MemberAt(params[0].abiType, data, base, pos).value;
    var rest := TupleFrom(params[1..], data, base, pos + consumed);
    if rest.Ok? {
      assert items + ([d] + rest.value.0) == items + [d] + rest.value.0;
    }
  }

  method DecodeAtOffset(t: AbiType, data: seq<byte>, at: nat) returns (r: Result<(DecodedParam, nat), AbiError>)
    ensures r == AtOffset(t, data, at)
    decreases t, 1, 0
  {
    match t {
      case Bytes =>
        r := BlobHead(CountedBytes(data, at));
      case String =>
        r := StrHead(CountedBytes(data, at));
      case Array(inner) =>
        var items := DecodeCountedItems(inner, data, at);
        r := ListHead(items);
      case _ =>
        var item := DecodeParam(t, data, at);
        r := match item
             case Ok((d, _)) => Ok((d, 32))
             case Err(e) => Err(e);
    }
  }

  method DecodeParam(t: AbiType, data: seq<byte>, offset: nat) returns (r: Result<(DecodedParam, nat), AbiError>)
    ensures r == ParamAt(t, data, offset)
    decreases t, 0, 0
  {
    match t {
      case Bytes =>
        r := BlobHead(PointedBytes(data, offset));
      case String =>
        r := StrHead(PointedBytes(data, offset));
      case Array(inner) =>
        var at := DecodeUsize(data, offset);
        if at.Err? {
          return Err(at.error);
        }
        var items := DecodeCountedItems(inner, data, at.value);
        r := ListHead(items);
      case FixedArray(inner, len) =>
        if IsDynamic(inner) {
          var at := DecodeUsize(data, offset);
          if at.Err? {
            return Err(at.error);
          }
          var items := DecodeItems(inner, len, data, at.value);
          r := ListHead(items);
        } else {
          var items := DecodeItems(inner, len, data, offset);
          r := match items
               case Ok(ds) => Ok((List(ds), 32 * len))
               case Err(e) => Err(e);
        }
      case Tuple(params) =>
        if IsDynamic(t) {
          var at := DecodeUsize(data, offset);
          if at.Err? {
            return Err(at.error);
          }
          var items := DecodeTupleAt(params, data, at.value);
          r := StructHead(items);
        } else {
          var items := DecodeTupleAt(params, data, offset);
          r := match items
               case Ok((ds, total)) => Ok((Struct(ds), total))
               case Err(e) => Err(e);
        }
      case _ =>
        var slot := ReadSlot(data, offset);
        r := match slot
             case Ok(s) => (match WordValue(t, s)
                            case Ok(d) => Ok((d, 32))
                            case Err(e) => Err(e))
             case Err(e) => Err(e);
    }
  }
}
