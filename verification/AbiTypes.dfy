/** Solidity types, their canonical text and the parser of that text
    (crates/forge-index-core/src/abi/types.rs, crates/forge-index-core/src/abi/parser.rs). */
module AbiTypes {
  import opened Tables

  datatype AbiType =
    | Uint(bits: nat)
    | Int(bits: nat)
    | Address
    | Bool
    | FixedBytes(size: nat)
    | Bytes
    | String
    | Array(inner: AbiType)
    | FixedArray(inner: AbiType, len: nat)
    | Tuple(params: seq<AbiParam>)

  datatype AbiParam = AbiParam(name: string, abiType: AbiType, indexed: bool)

  datatype AbiError =
    | UnknownType(text: string)
    | InvalidSelector
    | DecodeMismatch
    | Overflow // arithmetic overflow, a panic in the program

  predicate IsDynamic(t: AbiType) {
    match t
    case Bytes => true
    case String => true
    case Array(_) => true
    case FixedArray(inner, _) => IsDynamic(inner)
    case Tuple(params) => exists p <- params :: IsDynamic(p.abiType)
    case _ => false
  }

  // Decimal numbers

  predicate IsDigit(c: char) {
    '0' <= c <= '9'
  }

  function Digit(d: nat): (c: char)
    requires d < 10
    ensures IsDigit(c)
  {
    '0' + d as char
  }

  function Decimal(n: nat): string {
    if n < 10 then [Digit(n)] else Decimal(n / 10) + [Digit(n % 10)]
  }

  predicate AllDigits(s: string) {
    forall c <- s :: IsDigit(c)
  }

  function Number(s: string): nat
    requires AllDigits(s)
  {
    if s == [] then 0
    else
      assert IsDigit(s[|s| - 1]);
      10 * Number(s[..|s| - 1]) + (s[|s| - 1] - '0') as nat
  }

  const Usize: int := 0x1_0000_0000_0000_0000

  /** A number of the machine's word size: digits, perhaps after a plus sign, without overflow. */
  function ParseUsize(s: string): Option<nat> {
    var digits := if s != [] && s[0] == '+' then s[1..] else s;
    if digits != [] && AllDigits(digits) && Number(digits) < Usize then Some(Number(digits)) else None
  }

  lemma {:induction false} DecimalRoundTrip(n: nat)
    ensures Decimal(n) != [] && AllDigits(Decimal(n)) && Number(Decimal(n)) == n
  {
    if n >= 10 {
      DecimalRoundTrip(n / 10);
      var s := Decimal(n);
      assert s[..|s| - 1] == Decimal(n / 10);
    } else {
      var s := Decimal(n);
      assert s[..|s| - 1] == [];
    }
  }

  lemma ParseDecimal(n: nat)
    ensures ParseUsize(Decimal(n)) == if n < Usize then Some(n) else None
  {
    DecimalRoundTrip(n);
    assert IsDigit(Decimal(n)[0]);
  }

  // Printing

  function SolString(t: AbiType): string
    decreases t
  {
    match t
    case Uint(bits) => "uint" + Decimal(bits)
    case Int(bits) => "int" + Decimal(bits)
    case Address => "address"
    case Bool => "bool"
    case FixedBytes(n) => "bytes" + Decimal(n)
    case Bytes => "bytes"
    case String => "string"
    case Array(inner) => SolString(inner) + "[]"
    case FixedArray(inner, n) => SolString(inner) + "[" + Decimal(n) + "]"
    case Tuple(params) => "(" + SolStrings(params) + ")"
  }

  function SolStrings(params: seq<AbiParam>): string
    decreases params
  {
    if params == [] then ""
    else if |params| == 1 then SolString(params[0].abiType)
    else SolString(params[0].abiType) + "," + SolStrings(params[1..])
  }

  // Parsing

  predicate EndsWith(s: string, suffix: string) {
    |suffix| <= |s| && s[|s| - |suffix|..] == suffix
  }

  predicate StartsWith(s: string, prefix: string) {
    |prefix| <= |s| && s[..|prefix|] == prefix
  }

  /** The last position of c in s. */
  function LastIndex(s: string, c: char): (r: Option<nat>)
    ensures r.Some? ==> r.value < |s| && s[r.value] == c && c !in s[r.value + 1..]
    ensures r.None? ==> c !in s
  {
    if s == [] then None
    else if s[|s| - 1] == c then Some(|s| - 1)
    else
      var r := LastIndex(s[..|s| - 1], c);
      assert r.Some? ==> s[r.value + 1..] == s[..|s| - 1][r.value + 1..] + [s[|s| - 1]];
      assert s == s[..|s| - 1] + [s[|s| - 1]];
      r
  }

  /** The length of a fixed array type text and where its element type ends. */
  function FixedLength(s: string): (r: Option<(nat, nat)>)
    ensures r.Some? ==> r.value.0 < |s|
  {
    var at := LastIndex(s, '[');
    if at.Some? && EndsWith(s, "]") then
      assert s[|s| - 1] == ']';
      var size := ParseUsize(s[at.value + 1..|s| - 1]);
      if size.Some? then Some((at.value, size.value)) else None
    else None
  }

  function SizeOr(s: string, default: nat): nat {
    var n := ParseUsize(s);
    if n.Some? then n.value else default
  }

  function ParsePlain(s: string): Result<AbiType, AbiError> {
    if s == "address" then Ok(Address)
    else if s == "bool" then Ok(Bool)
    else if s == "string" then Ok(String)
    else if s == "bytes" then Ok(AbiType.Bytes)
    else if StartsWith(s, "uint") then Ok(Uint(SizeOr(s[4..], 256)))
    else if StartsWith(s, "int") then Ok(AbiType.Int(SizeOr(s[3..], 256)))
    else if StartsWith(s, "bytes") then
      var n := ParseUsize(s[5..]);
      if n.Some? then Ok(FixedBytes(n.value)) else Err(UnknownType(s))
    else Err(UnknownType(s))
  }

  function ParseType(s: string): Result<AbiType, AbiError>
    decreases |s|
  {
    if EndsWith(s, "[]") then
      match ParseType(s[..|s| - 2])
      case Ok(t) => Ok(Array(t))
      case Err(e) => Err(e)
    else
      match FixedLength(s)
      case Some((at, n)) =>
        (match ParseType(s[..at])
         case Ok(t) => Ok(FixedArray(t, n))
         case Err(e) => Err(e))
      case None => ParsePlain(s)
  }

  /** No tuple at any depth, and sizes that the machine can hold. */
  predicate Printable(t: AbiType) {
    match t
    case Uint(bits) => bits < Usize
    case Int(bits) => bits < Usize
    case FixedBytes(n) => n < Usize
    case Array(inner) => Printable(inner)
    case FixedArray(inner, n) => n < Usize && Printable(inner)
    case Tuple(_) => false
    case _ => true
  }

  /** The text of a size ends in a digit and holds no bracket. */
  lemma SizeText(d: string)
    requires ParseUsize(d).Some?
    ensures d != "" && IsDigit(d[|d| - 1]) && '[' !in d
  {
    var digits := if d[0] == '+' then d[1..] else d;
    assert d[|d| - 1] == digits[|digits| - 1] && digits[|digits| - 1] in digits;
    assert d == [d[0]] + d[1..];
  }

  lemma SizedFront(front: string, d: string)
    requires ParseUsize(d).Some?
    ensures var s := front + "[" + d + "]";
            && !EndsWith(s, "[]")
            && FixedLength(s) == Some((|front|, ParseUsize(d).value))
            && s[..|front|] == front
  {
    var s := front + "[" + d + "]";
    SizeText(d);
    DigitBeforeBracket(front + "[", d);
    assert s[|s| - 1..] == "]";
    assert s[|front| + 1..|s| - 1] == d;
    assert LastIndex(s, '[') == Some(|front|) by {
      LastBracket(front, d + "]");
      assert s == front + "[" + (d + "]");
    }
  }

  lemma FixedText(prefix: string, n: nat)
    requires n < Usize
    ensures var s := prefix + "[" + Decimal(n) + "]";
            && !EndsWith(s, "[]")
            && FixedLength(s) == Some((|prefix|, n))
            && s[..|prefix|] == prefix
  {
    ParseDecimal(n);
    SizedFront(prefix, Decimal(n));
  }

  lemma DigitBeforeBracket(front: string, d: string)
    requires d != "" && IsDigit(d[|d| - 1])
    ensures !EndsWith(front + d + "]", "[]")
  {
    var s := front + d + "]";
    assert s[|s| - 2] == d[|d| - 1];
    assert s[|s| - 2..][0] == s[|s| - 2];
  }

  lemma {:induction false} LastBracket(prefix: string, rest: string)
    requires '[' !in rest
    ensures LastIndex(prefix + "[" + rest, '[') == Some(|prefix|)
    decreases |rest|
  {
    var s := prefix + "[" + rest;
    if rest == "" {
      assert s[|s| - 1] == '[';
    } else {
      assert s[|s| - 1] == rest[|rest| - 1];
      assert s[..|s| - 1] == prefix + "[" + rest[..|rest| - 1];
      LastBracket(prefix, rest[..|rest| - 1]);
    }
  }

  lemma SameLast(s: string, suffix: string)
    requires s != "" && suffix != "" && EndsWith(s, suffix)
    ensures s[|s| - 1] == suffix[|suffix| - 1]
  {
    assert s[|s| - 1] == s[|s| - |suffix|..][|suffix| - 1];
  }

  lemma NoArray(s: string)
    requires s != "" && s[|s| - 1] != ']'
    ensures !EndsWith(s, "[]") && FixedLength(s).None?
  {
    if EndsWith(s, "[]") {
      SameLast(s, "[]");
    }
    if EndsWith(s, "]") {
      SameLast(s, "]");
    }
  }

  lemma PlainText(t: AbiType)
    requires Printable(t) && !t.Array? && !t.FixedArray?
    ensures ParseType(SolString(t)) == Ok(t)
  {
    match t {
      case Uint(n) => Digits("uint", n); PlainUint(Decimal(n));
      case Int(n) => Digits("int", n); PlainInt(Decimal(n));
      case FixedBytes(n) => Digits("bytes", n); PlainFixed(Decimal(n));
      case _ => NoArray(SolString(t));
    }
  }

  lemma Digits(word: string, n: nat)
    requires n < Usize
    ensures var d := Decimal(n);
            && d != "" && IsDigit(d[|d| - 1])
            && ParseUsize(d) == Some(n)
            && !EndsWith(word + d, "[]") && FixedLength(word + d).None?
  {
    var d := Decimal(n);
    DecimalRoundTrip(n);
    ParseDecimal(n);
    assert IsDigit(d[|d| - 1]);
    assert (word + d)[|word + d| - 1] == d[|d| - 1];
    NoArray(word + d);
  }

  lemma PlainUint(d: string)
    requires d != "" && IsDigit(d[|d| - 1])
    ensures ParsePlain("uint" + d) == Ok(Uint(SizeOr(d, 256)))
  {
    var s := "uint" + d;
    assert s[0] == 'u' && s[..4] == "uint" && s[4..] == d;
  }

  lemma PlainInt(d: string)
    requires d != "" && IsDigit(d[|d| - 1])
    ensures ParsePlain("int" + d) == Ok(AbiType.Int(SizeOr(d, 256)))
  {
    var s := "int" + d;
    assert s[0] == 'i' && s[..3] == "int" && s[3..] == d;
    if |s| >= 4 {
      assert s[..4][0] == 'i';
    }
  }

  lemma PlainFixed(d: string)
    requires d != "" && ParseUsize(d).Some?
    ensures ParsePlain("bytes" + d) == Ok(FixedBytes(ParseUsize(d).value))
  {
    var s := "bytes" + d;
    assert s[0] == 'b' && s[1] == 'y' && |s| > 5 && s[..5] == "bytes" && s[5..] == d;
    assert s[..4][0] == 'b' && s[..3][0] == 'b';
  }

  /** Printing and parsing are inverse on every tuple-free type, at any depth. */
  lemma {:induction false} TypeRoundTrip(t: AbiType)
    requires Printable(t)
    ensures ParseType(SolString(t)) == Ok(t)
  {
    var s := SolString(t);
    match t {
      case Array(inner) =>
        TypeRoundTrip(inner);
        assert s[|s| - 2..] == "[]" && s[..|s| - 2] == SolString(inner);
      case FixedArray(inner, n) =>
        TypeRoundTrip(inner);
        FixedText(SolString(inner), n);
      case _ =>
        PlainText(t);
    }
  }

  lemma {:induction false} ParsedPrintable(s: string)
    requires ParseType(s).Ok?
    ensures Printable(ParseType(s).value)
    decreases |s|
  {
    if EndsWith(s, "[]") {
      ParsedPrintable(s[..|s| - 2]);
    } else if FixedLength(s).Some? {
      ParsedPrintable(s[..FixedLength(s).value.0]);
    }
  }

  /** The printable types are exactly the results of the parser. */
  lemma ParserOnto(t: AbiType)
    ensures Printable(t) <==> exists s :: ParseType(s) == Ok(t)
  {
    if Printable(t) {
      TypeRoundTrip(t);
    }
    if s :| ParseType(s) == Ok(t) {
      ParsedPrintable(s);
    }
  }

  /** Different types have different texts. */
  lemma PrinterInjective(t: AbiType, u: AbiType)
    requires Printable(t) && Printable(u) && SolString(t) == SolString(u)
    ensures t == u
  {
    TypeRoundTrip(t);
    TypeRoundTrip(u);
  }

  // Texts that name no type

  /** A text of a type without arrays: a word, or one of the sized kinds with a size behind it; a size that is none
      counts as 256 for numbers. */
  predicate PlainName(s: string) {
    || s == "address" || s == "bool" || s == "string" || s == "bytes"
    || "uint" <= s || "int" <= s
    || ("bytes" <= s && ParseUsize(s[5..]).Some?)
  }

  lemma PlainNameIff(s: string)
    ensures ParsePlain(s) == Err(UnknownType(s)) <==> !PlainName(s)
    ensures ParsePlain(s).Ok? <==> PlainName(s)
    ensures "uint" <= s ==> ParsePlain(s) == Ok(Uint(SizeOr(s[4..], 256)))
  {
    if "uint" <= s {
      assert s[0] == 'u' && s[..4] == "uint";
    }
    if "int" <= s {
      assert s[0] == 'i' && s[..3] == "int";
    }
    if "bytes" <= s {
      assert s[0] == 'b' && s[..5] == "bytes";
    }
  }

  /** s is `front` with an array suffix: brackets with nothing or a length between them. */
  ghost predicate Suffixed(s: string, front: string) {
    s == front + "[]" || exists d :: ParseUsize(d).Some? && s == front + "[" + d + "]"
  }

  /** A text has at most one array suffix at its end, and the parser goes on in front of it. */
  lemma SuffixParsed(s: string, front: string)
    requires Suffixed(s, front)
    ensures |front| < |s| && (ParseType(s).Err? <==> ParseType(front).Err?)
    ensures ParseType(s).Err? ==> ParseType(s).error == ParseType(front).error
  {
    if s == front + "[]" {
      assert s[|s| - 2..] == "[]" && s[..|s| - 2] == front;
    } else {
      var d :| ParseUsize(d).Some? && s == front + "[" + d + "]";
      SizedFront(front, d);
    }
  }

  lemma EmptySuffix(s: string)
    ensures EndsWith(s, "[]") ==> Suffixed(s, s[..|s| - 2])
  {
    if EndsWith(s, "[]") {
      assert s == s[..|s| - 2] + s[|s| - 2..];
    }
  }

  lemma SizedSuffix(s: string)
    ensures FixedLength(s).Some? ==> Suffixed(s, s[..FixedLength(s).value.0])
  {
    if FixedLength(s).Some? {
      var at := FixedLength(s).value.0;
      var d := s[at + 1..|s| - 1];
      Brackets(s, at);
      assert ParseUsize(d).Some? && s == s[..at] + "[" + d + "]";
    }
  }

  lemma Brackets(s: string, at: nat)
    requires at < |s| - 1 && s[at] == '[' && s[|s| - 1] == ']'
    ensures s == s[..at] + "[" + s[at + 1..|s| - 1] + "]"
  {
  }

  lemma NoSuffixParsed(s: string)
    requires forall front :: !Suffixed(s, front)
    ensures ParseType(s) == ParsePlain(s)
  {
    EmptySuffix(s);
    SizedSuffix(s);
  }

  /** s is `base` with any number of array suffixes, and `base` has none. */
  ghost predicate Stripped(s: string, base: string)
    decreases |s|
  {
    if s == base then forall front :: !Suffixed(s, front)
    else exists front :: |front| < |s| && Suffixed(s, front) && Stripped(front, base)
  }

  lemma {:induction false} StrippedParsed(s: string, base: string)
    requires Stripped(s, base)
    ensures ParseType(s).Err? <==> !PlainName(base)
    ensures ParseType(s).Err? ==> ParseType(s).error == UnknownType(base)
    decreases |s|
  {
    if s == base {
      NoSuffixParsed(s);
      PlainNameIff(s);
    } else {
      var front :| |front| < |s| && Suffixed(s, front) && Stripped(front, base);
      SuffixParsed(s, front);
      StrippedParsed(front, base);
    }
  }

  lemma {:induction false} SomeBase(s: string) returns (base: string)
    ensures Stripped(s, base)
    decreases |s|
  {
    if front :| Suffixed(s, front) {
      SuffixParsed(s, front);
      base := SomeBase(front);
      StrippedShorter(front, base);
    } else {
      base := s;
    }
  }

  lemma {:induction false} StrippedShorter(s: string, base: string)
    requires Stripped(s, base)
    ensures |base| <= |s|
    decreases |s|
  {
    if s != base {
      var front :| |front| < |s| && Suffixed(s, front) && Stripped(front, base);
      StrippedShorter(front, base);
    }
  }

  /** A text is refused if and only if what is left of it without its array suffixes names no type; the error carries
      that rest. */
  lemma RefusedIff(s: string)
    ensures ParseType(s).Err? <==> exists base :: Stripped(s, base) && !PlainName(base)
    ensures forall base :: Stripped(s, base) && !PlainName(base) ==> ParseType(s) == Err(UnknownType(base))
  {
    var base := SomeBase(s);
    StrippedParsed(s, base);
    forall b | Stripped(s, b)
      ensures ParseType(s).Err? <==> !PlainName(b)
      ensures ParseType(s).Err? ==> ParseType(s) == Err(UnknownType(b))
    {
      StrippedParsed(s, b);
    }
  }
}
