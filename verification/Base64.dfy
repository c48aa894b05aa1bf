/** The cursor text codec (crates/forge-index-api/src/graphql/pagination.rs), base64 as in section 4 of
    RFC 4648. Text is given by its bytes. */
module Base64 {
  import opened Tables
  import opened Utf8
  import opened Naturals

  type sextet = x: int | 0 <= x < 64

  datatype CodecError = NotUtf8

  const Pad: byte := '=' as int

  const Capitals := "ABCDEFGHIJKLMNOPQRSTUVWXYZ"

  const Smalls := "abcdefghijklmnopqrstuvwxyz"

  const Alphabet: string := Capitals + Smalls + "0123456789" + "+/"

  /** The letter of a value, as a byte. */
  function Letter(v: sextet): byte {
    if v < 26 then 'A' as int + v
    else if v < 52 then 'a' as int + (v - 26)
    else if v < 62 then '0' as int + (v - 52)
    else if v == 62 then '+' as int
    else '/' as int
  }

  /** The value of a byte; a byte outside the alphabet counts as zero. */
  function Value(b: byte): sextet {
    if 'A' as int <= b <= 'Z' as int then b - 'A' as int
    else if 'a' as int <= b <= 'z' as int then b - 'a' as int + 26
    else if '0' as int <= b <= '9' as int then b - '0' as int + 52
    else if b == '+' as int then 62
    else if b == '/' as int then 63
    else 0
  }

  lemma CapitalLetter(v: nat)
    requires v < 26
    ensures |Capitals| == 26 && Capitals[v] as int == 'A' as int + v
  {
  }

  lemma SmallLetter(v: nat)
    requires v < 26
    ensures |Smalls| == 26 && Smalls[v] as int == 'a' as int + v
  {
  }

  lemma AlphabetParts(v: sextet)
    ensures |Alphabet| == 64
    ensures v < 26 ==> Alphabet[v] == Capitals[v]
    ensures 26 <= v < 52 ==> Alphabet[v] == Smalls[v - 26]
    ensures 52 <= v < 62 ==> Alphabet[v] == "0123456789"[v - 52]
    ensures 62 <= v ==> Alphabet[v] == "+/"[v - 62]
  {
    CapitalLetter(0);
    SmallLetter(0);
  }

  lemma AlphabetLetters(v: sextet)
    ensures |Alphabet| == 64
    ensures Alphabet[v] as int == Letter(v)
  {
    AlphabetParts(v);
    if v < 26 {
      CapitalLetter(v);
    } else if v < 52 {
      SmallLetter(v - 26);
    } else if v < 62 {
      assert "0123456789"[v - 52] as int == '0' as int + (v - 52);
    }
  }

  lemma LetterValue(v: sextet)
    ensures Value(Letter(v)) == v && Letter(v) != Pad
  {
  }

  // Three bytes are four values: what each value takes from the bytes, and back.

  function First(a: byte): sextet {
    a / 4
  }

  function Second(a: byte, b: byte): sextet {
    a % 4 * 16 + b / 16
  }

  function Third(b: byte, c: byte): sextet {
    b % 16 * 4 + c / 64
  }

  function Fourth(c: byte): sextet {
    c % 64
  }

  function ByteA(u: sextet, v: sextet): byte {
    u * 4 + v / 16
  }

  function ByteB(v: sextet, w: sextet): byte {
    v % 16 * 16 + w / 4
  }

  function ByteC(w: sextet, x: sextet): byte {
    w % 4 * 64 + x
  }

  lemma GroupRoundTrip(a: byte, b: byte, c: byte)
    ensures ByteA(First(a), Second(a, b)) == a
    ensures ByteB(Second(a, b), Third(b, c)) == b
    ensures ByteC(Third(b, c), Fourth(c)) == c
  {
  }

  lemma ValuesRoundTrip(u: sextet, v: sextet, w: sextet, x: sextet)
    ensures First(ByteA(u, v)) == u
    ensures Second(ByteA(u, v), ByteB(v, w)) == v
    ensures Third(ByteB(v, w), ByteC(w, x)) == w
    ensures Fourth(ByteC(w, x)) == x
  {
  }

  /** The values of a text, padding aside. */
  function Packed(s: seq<byte>): seq<sextet> {
    if s == [] then []
    else if |s| == 1 then [First(s[0]), Second(s[0], 0)]
    else if |s| == 2 then [First(s[0]), Second(s[0], s[1]), Third(s[1], 0)]
    else [First(s[0]), Second(s[0], s[1]), Third(s[1], s[2]), Fourth(s[2])] + Packed(s[3..])
  }

  /** The bytes of a sequence of values; a single value left over at the end is dropped. */
  function Unpacked(v: seq<sextet>): seq<byte> {
    if |v| < 2 then []
    else if |v| == 2 then [ByteA(v[0], v[1])]
    else if |v| == 3 then [ByteA(v[0], v[1]), ByteB(v[1], v[2])]
    else [ByteA(v[0], v[1]), ByteB(v[1], v[2]), ByteC(v[2], v[3])] + Unpacked(v[4..])
  }

  function Letters(v: seq<sextet>): (s: seq<byte>)
    ensures |s| == |v|
  {
    seq(|v|, i requires 0 <= i < |v| => Letter(v[i]))
  }

  function Values(s: seq<byte>): (v: seq<sextet>)
    ensures |v| == |s|
  {
    seq(|s|, i requires 0 <= i < |s| => Value(s[i]))
  }

  function Padding(n: nat): seq<byte> {
    if n % 3 == 0 then [] else if n % 3 == 1 then [Pad, Pad] else [Pad]
  }

  /** The encoding: the letters of the packed values, then the padding. */
  function Encoded(s: seq<byte>): seq<byte> {
    Letters(Packed(s)) + Padding(|s|)
  }

  function Trimmed(t: seq<byte>): seq<byte> {
    if t != [] && t[|t| - 1] == Pad then Trimmed(t[..|t| - 1]) else t
  }

  function Decoded(t: seq<byte>): seq<byte> {
    Unpacked(Values(Trimmed(t)))
  }

  // Round trips

  lemma {:induction false} UnpackPacked(s: seq<byte>)
    ensures Unpacked(Packed(s)) == s
  {
    if |s| >= 3 {
      UnpackPacked(s[3..]);
      GroupRoundTrip(s[0], s[1], s[2]);
      UnpackGroup(First(s[0]), Second(s[0], s[1]), Third(s[1], s[2]), Fourth(s[2]), Packed(s[3..]));
      assert s == [s[0], s[1], s[2]] + s[3..];
    } else {
      UnpackLast(s);
    }
  }

  lemma UnpackGroup(u: sextet, v: sextet, w: sextet, x: sextet, rest: seq<sextet>)
    ensures Unpacked([u, v, w, x] + rest) == [ByteA(u, v), ByteB(v, w), ByteC(w, x)] + Unpacked(rest)
  {
    assert ([u, v, w, x] + rest)[4..] == rest;
  }

  lemma UnpackLast(s: seq<byte>)
    requires |s| < 3
    ensures Unpacked(Packed(s)) == s
  {
    if |s| == 2 {
      UnpackTwo(s[0], s[1]);
      assert s == [s[0], s[1]];
    } else if |s| == 1 {
      UnpackOne(s[0]);
      assert s == [s[0]];
    }
  }

  lemma UnpackOne(a: byte)
    ensures Unpacked(Packed([a])) == [a]
  {
    var u, v := First(a), Second(a, 0);
    assert ByteA(u, v) == a by {
      GroupRoundTrip(a, 0, 0);
    }
    UnpackFew(u, v, 0);
    assert Packed([a]) == [u, v];
  }

  lemma UnpackTwo(a: byte, b: byte)
    ensures Unpacked(Packed([a, b])) == [a, b]
  {
    var u, v, w := First(a), Second(a, b), Third(b, 0);
    assert ByteA(u, v) == a && ByteB(v, w) == b by {
      GroupRoundTrip(a, b, 0);
    }
    UnpackFew(u, v, w);
    assert Packed([a, b]) == [u, v, w];
  }

  lemma UnpackFew(u: sextet, v: sextet, w: sextet)
    ensures Unpacked([u, v]) == [ByteA(u, v)]
    ensures Unpacked([u, v, w]) == [ByteA(u, v), ByteB(v, w)]
  {
  }

  lemma TrimLetters(v: seq<sextet>, n: nat)
    ensures Trimmed(Letters(v) + Padding(n)) == Letters(v)
  {
    var s := Letters(v);
    if v != [] {
      LetterValue(v[|v| - 1]);
    }
    assert Trimmed(s) == s;
    assert (s + [Pad])[..|s|] == s && (s + [Pad, Pad])[..|s| + 1] == s + [Pad];
    assert s + [] == s;
    assert Trimmed(s + [Pad]) == s;
  }

  lemma ValuesOfLetters(v: seq<sextet>)
    ensures Values(Letters(v)) == v
  {
    forall i | 0 <= i < |v|
      ensures Values(Letters(v))[i] == v[i]
    {
      LetterValue(v[i]);
    }
  }

  /** Every byte string survives the round trip. */
  lemma BytesRoundTrip(s: seq<byte>)
    ensures Decoded(Encoded(s)) == s
  {
    TrimLetters(Packed(s), |s|);
    ValuesOfLetters(Packed(s));
    UnpackPacked(s);
  }

  lemma ThreeFewer(n: nat)
    requires n >= 3
    ensures (n + 2) / 3 == (n - 3 + 2) / 3 + 1 && n % 3 == (n - 3) % 3
  {
  }

  lemma PackedSteps(s: seq<byte>)
    requires |s| >= 3
    ensures |Packed(s)| == 4 + |Packed(s[3..])|
    ensures Padding(|s|) == Padding(|s[3..]|)
  {
    ThreeFewer(|s|);
  }

  lemma {:induction false} PackedLength(s: seq<byte>)
    ensures |Packed(s)| + |Padding(|s|)| == (|s| + 2) / 3 * 4
  {
    if |s| >= 3 {
      PackedLength(s[3..]);
      PackedSteps(s);
      ThreeFewer(|s|);
    }
  }

  /** The encoding has 4 * ceil(n / 3) bytes; the padding stands at its end and only there. */
  lemma EncodedShape(s: seq<byte>)
    ensures |Encoded(s)| == (|s| + 2) / 3 * 4
    ensures forall i :: 0 <= i < |Encoded(s)| ==> (Encoded(s)[i] == Pad <==> i >= |Encoded(s)| - |Padding(|s|)|)
  {
    PackedLength(s);
    var v := Packed(s);
    forall i | 0 <= i < |v|
      ensures Encoded(s)[i] != Pad
    {
      assert Encoded(s)[i] == Letter(v[i]);
      LetterValue(v[i]);
    }
  }

  // Group by group, as the encoder appends

  lemma EncodedGroup(s: seq<byte>)
    requires |s| >= 3
    ensures Encoded(s) == [Letter(First(s[0])), Letter(Second(s[0], s[1])),
                           Letter(Third(s[1], s[2])), Letter(Fourth(s[2]))] + Encoded(s[3..])
  {
    var u, v, w, x := First(s[0]), Second(s[0], s[1]), Third(s[1], s[2]), Fourth(s[2]);
    var rest := Packed(s[3..]);
    assert Packed(s) == [u, v, w, x] + rest;
    LettersGroup(u, v, w, x, rest);
    PackedSteps(s);
  }

  lemma LettersGroup(u: sextet, v: sextet, w: sextet, x: sextet, rest: seq<sextet>)
    ensures Letters([u, v, w, x] + rest) == [Letter(u), Letter(v), Letter(w), Letter(x)] + Letters(rest)
  {
  }

  lemma EncodedTwo(a: byte, b: byte)
    ensures Encoded([a, b]) == [Letter(First(a)), Letter(Second(a, b)), Letter(Third(b, 0)), Pad]
  {
    assert Packed([a, b]) == [First(a), Second(a, b), Third(b, 0)];
  }

  lemma EncodedOne(a: byte)
    ensures Encoded([a]) == [Letter(First(a)), Letter(Second(a, 0)), Pad, Pad]
  {
    assert Packed([a]) == [First(a), Second(a, 0)];
  }

  // Canonical texts

  predicate IsLetter(b: byte) {
    Letter(Value(b)) == b
  }

  /** Section 3.5 of RFC 4648: whole groups of letters, the last one perhaps padded, with zero bits
      where the padding is. */
  predicate Canonical(t: seq<byte>) {
    if |t| < 4 then t == []
    else if |t| == 4 then LastGroup(t[0], t[1], t[2], t[3])
    else IsLetter(t[0]) && IsLetter(t[1]) && IsLetter(t[2]) && IsLetter(t[3]) && Canonical(t[4..])
  }

  predicate LastGroup(a: byte, b: byte, c: byte, d: byte) {
    && IsLetter(a)
    && IsLetter(b)
    && if IsLetter(c) then IsLetter(d) || (d == Pad && Value(c) % 4 == 0)
       else c == Pad && d == Pad && Value(b) % 16 == 0
  }

  lemma {:induction false} EncodedCanonical(s: seq<byte>)
    ensures Canonical(Encoded(s))
  {
    if |s| >= 3 {
      EncodedGroup(s);
      EncodedCanonical(s[3..]);
      LettersAre(First(s[0]), Second(s[0], s[1]), Third(s[1], s[2]), Fourth(s[2]));
      assert Encoded(s)[4..] == Encoded(s[3..]);
    } else if |s| == 2 {
      EncodedTwo(s[0], s[1]);
      LettersAre(First(s[0]), Second(s[0], s[1]), Third(s[1], 0), 0);
      assert s == [s[0], s[1]];
    } else if |s| == 1 {
      EncodedOne(s[0]);
      LettersAre(First(s[0]), Second(s[0], 0), 0, 0);
      assert s == [s[0]];
    }
  }

  lemma LettersAre(u: sextet, v: sextet, w: sextet, x: sextet)
    ensures IsLetter(Letter(u)) && IsLetter(Letter(v)) && IsLetter(Letter(w)) && IsLetter(Letter(x))
    ensures Value(Letter(v)) == v && Value(Letter(w)) == w
    ensures !IsLetter(Pad)
  {
    LetterValue(u);
    LetterValue(v);
    LetterValue(w);
    LetterValue(x);
  }

  lemma {:induction false} TrimmedConcat(a: seq<byte>, b: seq<byte>)
    requires a != [] && a[|a| - 1] != Pad
    ensures Trimmed(a + b) == a + Trimmed(b)
    decreases |b|
  {
    if b == [] {
      assert a + b == a;
    } else if b[|b| - 1] == Pad {
      assert (a + b)[..|a + b| - 1] == a + b[..|b| - 1];
      TrimmedConcat(a, b[..|b| - 1]);
    }
  }

  lemma DecodedGroup(a: byte, b: byte, c: byte, d: byte, rest: seq<byte>)
    requires d != Pad
    ensures Decoded([a, b, c, d] + rest)
            == [ByteA(Value(a), Value(b)), ByteB(Value(b), Value(c)), ByteC(Value(c), Value(d))] + Decoded(rest)
  {
    TrimmedConcat([a, b, c, d], rest);
    var v := Values(Trimmed(rest));
    assert Values([a, b, c, d] + Trimmed(rest)) == [Value(a), Value(b), Value(c), Value(d)] + v;
    UnpackGroup(Value(a), Value(b), Value(c), Value(d), v);
  }

  lemma DecodedFew(a: byte, b: byte, c: byte)
    requires b != Pad && c != Pad
    ensures Decoded([a, b, Pad, Pad]) == [ByteA(Value(a), Value(b))]
    ensures Decoded([a, b, c, Pad]) == [ByteA(Value(a), Value(b)), ByteB(Value(b), Value(c))]
  {
    TrimmedConcat([a, b], [Pad, Pad]);
    TrimmedConcat([a, b, c], [Pad]);
    assert [Pad, Pad][..1] == [Pad] && [Pad][..0] == [];
    assert Trimmed([Pad]) == [] && Trimmed([Pad, Pad]) == [];
    assert [a, b, Pad, Pad] == [a, b] + [Pad, Pad] && [a, b, c, Pad] == [a, b, c] + [Pad];
    assert Values([a, b]) == [Value(a), Value(b)];
    assert Values([a, b, c]) == [Value(a), Value(b), Value(c)];
    UnpackFew(Value(a), Value(b), Value(c));
  }

  /** Zero bits under the padding come back as zero. */
  lemma FewRoundTrip(u: sextet, v: sextet, w: sextet)
    ensures First(ByteA(u, v)) == u && Second(ByteA(u, v), ByteB(v, w)) == v
    ensures v % 16 == 0 ==> Second(ByteA(u, v), 0) == v
    ensures w % 4 == 0 ==> Third(ByteB(v, w), 0) == w
  {
    ValuesRoundTrip(u, v, w, 0);
  }

  lemma RebuildGroup(a: byte, b: byte, c: byte, d: byte, rest: seq<byte>)
    requires IsLetter(a) && IsLetter(b) && IsLetter(c) && IsLetter(d)
    requires Encoded(Decoded(rest)) == rest
    ensures Encoded(Decoded([a, b, c, d] + rest)) == [a, b, c, d] + rest
  {
    var u, v, w, x := Value(a), Value(b), Value(c), Value(d);
    LetterValue(x);
    DecodedGroup(a, b, c, d, rest);
    var s := Decoded([a, b, c, d] + rest);
    assert s[3..] == Decoded(rest);
    EncodedGroup(s);
    ValuesRoundTrip(u, v, w, x);
  }

  lemma RebuildLast(a: byte, b: byte, c: byte, d: byte)
    requires LastGroup(a, b, c, d)
    ensures Encoded(Decoded([a, b, c, d])) == [a, b, c, d]
  {
    var u, v, w := Value(a), Value(b), Value(c);
    LettersAre(u, v, w, Value(d));
    FewRoundTrip(u, v, w);
    if IsLetter(c) && IsLetter(d) {
      assert Decoded([]) == [] && Encoded([]) == [];
      RebuildGroup(a, b, c, d, []);
      assert [a, b, c, d] + [] == [a, b, c, d];
    } else if IsLetter(c) {
      DecodedFew(a, b, c);
      EncodedTwo(ByteA(u, v), ByteB(v, w));
    } else {
      DecodedFew(a, b, a);
      EncodedOne(ByteA(u, v));
    }
  }

  lemma {:induction false} CanonicalRebuilt(t: seq<byte>)
    requires Canonical(t)
    ensures Encoded(Decoded(t)) == t
  {
    if |t| > 4 {
      CanonicalRebuilt(t[4..]);
      RebuildMore(t);
    } else if t != [] {
      RebuildLast(t[0], t[1], t[2], t[3]);
      FourOf(t);
    } else {
      assert Encoded(Decoded([])) == [];
    }
  }

  lemma {:induction false} RebuildMore(t: seq<byte>)
    requires |t| > 4 && Canonical(t) && Encoded(Decoded(t[4..])) == t[4..]
    ensures Encoded(Decoded(t)) == t
  {
    var rest := t[4..];
    assert t == [t[0], t[1], t[2], t[3]] + rest;
    RebuildGroup(t[0], t[1], t[2], t[3], rest);
  }

  lemma FourOf(t: seq<byte>)
    requires |t| == 4
    ensures t == [t[0], t[1], t[2], t[3]]
  {
  }

  /** The texts that decoding and encoding return unchanged are the canonical ones, and these are the
      texts that encoding produces. */
  lemma RebuiltIff(t: seq<byte>)
    ensures Encoded(Decoded(t)) == t <==> Canonical(t)
    ensures (exists s :: Encoded(s) == t) <==> Canonical(t)
  {
    if Canonical(t) {
      CanonicalRebuilt(t);
    }
    if s :| Encoded(s) == t {
      EncodedCanonical(s);
    }
  }

  // Letter by letter, as section 4 of RFC 4648 describes it

  /** The byte at a position, and zero behind the end. */
  function ByteOr0(s: seq<byte>, i: nat): byte {
    if i < |s| then s[i] else 0
  }

  function LetterAt(v: nat): byte
    requires v < 64
  {
    AlphabetLetters(v);
    Alphabet[v] as int
  }

  lemma LettersIndex(v: sextet)
    ensures LetterAt(v) == Letter(v)
  {
    AlphabetLetters(v);
  }

  /** Four values and three bytes that are the same number. */
  predicate SameNumber(u: sextet, v: sextet, w: sextet, x: sextet, a: byte, b: byte, c: byte) {
    u * 0x4_0000 + v * 0x1000 + w * 64 + x == a * 0x1_0000 + b * 0x100 + c
  }

  lemma GroupNumber(a: byte, b: byte, c: byte)
    ensures SameNumber(First(a), Second(a, b), Third(b, c), Fourth(c), a, b, c)
  {
    assert a == a / 4 * 4 + a % 4 && b == b / 16 * 16 + b % 16 && c == c / 64 * 64 + c % 64;
  }

  /** The values of a group, as far as the group has bytes. */
  predicate HasValues(vs: seq<sextet>, at: nat, n: nat, u: sextet, v: sextet, w: sextet, x: sextet) {
    && (n > 0 ==> at + 1 < |vs| && vs[at] == u && vs[at + 1] == v)
    && (n > 1 ==> at + 2 < |vs| && vs[at + 2] == w)
    && (n > 2 ==> at + 3 < |vs| && vs[at + 3] == x)
  }

  lemma {:induction false} PackedAt(s: seq<byte>, g: nat, at: nat) returns (u: sextet, v: sextet, w: sextet, x: sextet)
    requires 3 * g < |s| && at == 4 * g
    ensures HasValues(Packed(s), at, |s| - 3 * g, u, v, w, x)
    ensures SameNumber(u, v, w, x, s[3 * g], ByteOr0(s, 3 * g + 1), ByteOr0(s, 3 * g + 2))
    decreases g
  {
    if g == 0 {
      var a, b, c := s[0], ByteOr0(s, 1), ByteOr0(s, 2);
      u, v, w, x := First(a), Second(a, b), Third(b, c), Fourth(c);
      GroupNumber(a, b, c);
    } else {
      u, v, w, x := PackedAt(s[3..], g - 1, at - 4);
      ValuesShift(s, at, |s| - 3 * g, u, v, w, x);
    }
  }

  lemma ValuesShift(s: seq<byte>, at: nat, n: nat, u: sextet, v: sextet, w: sextet, x: sextet)
    requires |s| >= 3 && at >= 4 && HasValues(Packed(s[3..]), at - 4, n, u, v, w, x)
    ensures HasValues(Packed(s), at, n, u, v, w, x)
  {
    ValuesBehind([First(s[0]), Second(s[0], s[1]), Third(s[1], s[2]), Fourth(s[2])], Packed(s[3..]), at, n, u, v, w, x);
  }

  lemma ValuesBehind(front: seq<sextet>, vs: seq<sextet>, at: nat, n: nat, u: sextet, v: sextet, w: sextet, x: sextet)
    requires at >= |front| && HasValues(vs, at - |front|, n, u, v, w, x)
    ensures HasValues(front + vs, at, n, u, v, w, x)
  {
  }

  lemma EncodedLetter(s: seq<byte>, i: nat, v: sextet)
    requires i < |Packed(s)| && Packed(s)[i] == v
    ensures i < |Encoded(s)| && Encoded(s)[i] == LetterAt(v)
  {
    LettersIndex(v);
  }

  lemma EncodedPad(s: seq<byte>, i: nat)
    requires |Packed(s)| <= i < |Encoded(s)|
    ensures Encoded(s)[i] == Pad
  {
  }

  lemma LastLetters(s: seq<byte>, g: nat, at: nat)
    requires 3 * g < |s| && at == 4 * g
    ensures at + 3 < |Encoded(s)|
    ensures 3 * g + 1 == |s| ==> |Packed(s)| == at + 2
    ensures 3 * g + 2 == |s| ==> |Packed(s)| == at + 3
  {
    PackedLength(s);
    GroupsBefore(|s|, g);
  }

  lemma GroupsBefore(n: nat, g: nat)
    requires 3 * g < n
    ensures (n + 2) / 3 * 4 >= 4 * g + 4
    ensures 3 * g + 1 == n || 3 * g + 2 == n ==> (n + 2) / 3 * 4 == 4 * g + 4
    ensures 3 * g + 1 == n ==> n % 3 == 1
    ensures 3 * g + 2 == n ==> n % 3 == 2
  {
  }

  /** Group g of the encoding: the four letters are the base-64 digits of the number that the group's three bytes are;
      where the text ends within the group its missing bytes count as zero, and letters made of nothing else are
      padding. */
  lemma EncodedAt(s: seq<byte>, g: nat, at: nat) returns (u: sextet, v: sextet, w: sextet, x: sextet)
    requires 3 * g < |s| && at == 4 * g
    ensures SameNumber(u, v, w, x, s[3 * g], ByteOr0(s, 3 * g + 1), ByteOr0(s, 3 * g + 2))
    ensures at + 3 < |Encoded(s)| && Encoded(s)[at] == LetterAt(u) && Encoded(s)[at + 1] == LetterAt(v)
    ensures Encoded(s)[at + 2] == if 3 * g + 1 < |s| then LetterAt(w) else Pad
    ensures Encoded(s)[at + 3] == if 3 * g + 2 < |s| then LetterAt(x) else Pad
  {
    u, v, w, x := PackedAt(s, g, at);
    LastLetters(s, g, at);
    EncodedLetter(s, at, u);
    EncodedLetter(s, at + 1, v);
    if 3 * g + 1 < |s| {
      EncodedLetter(s, at + 2, w);
    } else {
      EncodedPad(s, at + 2);
    }
    if 3 * g + 2 < |s| {
      EncodedLetter(s, at + 3, x);
    } else {
      EncodedPad(s, at + 3);
    }
  }

  function ValueOr0(v: seq<sextet>, i: nat): sextet {
    if i < |v| then v[i] else 0
  }

  lemma QuadNumber(u: sextet, v: sextet, w: sextet, x: sextet)
    ensures SameNumber(u, v, w, x, ByteA(u, v), ByteB(v, w), ByteC(w, x))
  {
    assert v == v / 16 * 16 + v % 16 && w == w / 4 * 4 + w % 4;
  }

  /** The bytes of a group, as far as the group has values. */
  predicate HasBytes(d: seq<byte>, at: nat, n: nat, a: byte, b: byte, c: byte) {
    && (n > 1 ==> at < |d| && d[at] == a)
    && (n > 2 ==> at + 1 < |d| && d[at + 1] == b)
    && (n > 3 ==> at + 2 < |d| && d[at + 2] == c)
  }

  /** Group g of the decoded bytes: the base-256 digits of the number that the group's four values are, as far as the
      group has values; missing values count as zero, and a single value gives nothing. */
  lemma {:induction false} UnpackedAt(v: seq<sextet>, g: nat, at: nat) returns (a: byte, b: byte, c: byte)
    requires 4 * g < |v| && at == 3 * g
    ensures HasBytes(Unpacked(v), at, |v| - 4 * g, a, b, c)
    ensures SameNumber(v[4 * g], ValueOr0(v, 4 * g + 1), ValueOr0(v, 4 * g + 2), ValueOr0(v, 4 * g + 3), a, b, c)
    decreases g
  {
    if g == 0 {
      var w, x, y := ValueOr0(v, 1), ValueOr0(v, 2), ValueOr0(v, 3);
      a, b, c := ByteA(v[0], w), ByteB(w, x), ByteC(x, y);
      QuadNumber(v[0], w, x, y);
    } else {
      a, b, c := UnpackedAt(v[4..], g - 1, at - 3);
      BytesShift(v, at, |v| - 4 * g, a, b, c);
    }
  }

  lemma BytesShift(v: seq<sextet>, at: nat, n: nat, a: byte, b: byte, c: byte)
    requires |v| >= 4 && at >= 3 && HasBytes(Unpacked(v[4..]), at - 3, n, a, b, c)
    ensures HasBytes(Unpacked(v), at, n, a, b, c)
  {
    var front := [ByteA(v[0], v[1]), ByteB(v[1], v[2]), ByteC(v[2], v[3])];
    assert Unpacked(v) == front + Unpacked(v[4..]);
  }

  lemma {:induction false} UnpackedLength(v: seq<sextet>)
    ensures |Unpacked(v)| == |v| / 4 * 3 + if |v| % 4 == 0 then 0 else |v| % 4 - 1
  {
    if |v| >= 4 {
      UnpackedLength(v[4..]);
      assert |v[4..]| / 4 == |v| / 4 - 1 && |v[4..]| % 4 == |v| % 4;
    }
  }

  /** A letter of the alphabet has its position for value, any other byte has zero. */
  lemma ValueIs(b: byte)
    ensures Value(b) == 0 || LetterAt(Value(b)) == b
    ensures forall v: sextet :: LetterAt(v) == b ==> Value(b) == v
  {
    LettersIndex(Value(b));
    forall v: sextet | LetterAt(v) == b
      ensures Value(b) == v
    {
      LettersIndex(v);
      LetterValue(v);
    }
  }

  // The encoder and the decoder

  lemma Over64(q: int, r: int)
    requires 0 <= r < 64
    ensures (q * 64 + r) / 64 == q && (q * 64 + r) % 64 == r
  {
  }

  lemma Over256(q: int, r: int)
    requires 0 <= r < 256
    ensures (q * 0x100 + r) / 0x100 == q && (q * 0x100 + r) % 0x100 == r
  {
  }

  /** The shifts and masks of the encoder: bits that do not overlap add up. */
  lemma TripleParts(a: byte, b: byte, c: byte)
    ensures var t := a * 0x1_0000 + b * 0x100 + c;
            && t / 64 / 64 / 64 % 64 == First(a)
            && t / 64 / 64 % 64 == Second(a, b)
            && t / 64 % 64 == Third(b, c)
            && t % 64 == Fourth(c)
  {
    var t := a * 0x1_0000 + b * 0x100 + c;
    Over64(a * 1024 + b * 4 + c / 64, c % 64);
    assert t / 64 == a * 1024 + b * 4 + c / 64;
    Over64(a * 16 + b / 16, b % 16 * 4 + c / 64);
    assert t / 64 / 64 == a * 16 + b / 16;
    Over64(a / 4, a % 4 * 16 + b / 16);
  }

  lemma QuadParts(u: sextet, v: sextet, w: sextet, x: sextet)
    ensures var q := u * 0x4_0000 + v * 0x1000 + w * 64 + x;
            && q / 0x100 / 0x100 % 256 == ByteA(u, v)
            && q / 0x100 % 256 == ByteB(v, w)
            && q % 256 == ByteC(w, x)
  {
    var q := u * 0x4_0000 + v * 0x1000 + w * 64 + x;
    Over256(u * 1024 + v * 16 + w / 4, w % 4 * 64 + x);
    assert q / 0x100 == u * 1024 + v * 16 + w / 4;
    Over256(u * 4 + v / 16, v % 16 * 16 + w / 4);
  }

  lemma EncodedChunks(s: seq<byte>, i: nat)
    requires i < |s|
    ensures var j := Min(i + 3, |s|);
            Encoded(s[i..]) == Encoded(s[i..j]) + Encoded(s[j..])
  {
    var j := Min(i + 3, |s|);
    assert s[i..] == s[i..j] + s[j..];
    EncodedAppend(s[i..j], s[j..]);
  }

  lemma EncodedAppend(chunk: seq<byte>, rest: seq<byte>)
    requires |chunk| == 3 || rest == []
    ensures Encoded(chunk + rest) == Encoded(chunk) + Encoded(rest)
  {
    if rest == [] {
      assert chunk + rest == chunk && Encoded([]) == [];
    } else {
      assert (chunk + rest)[3..] == rest;
      EncodedGroup(chunk + rest);
      ChunkEncoded(chunk, chunk[0], chunk[1], chunk[2]);
    }
  }

  method EncodeThree(a: byte, b: byte, c: byte) returns (u: sextet, v: sextet, w: sextet, x: sextet)
    ensures u == First(a) && v == Second(a, b) && w == Third(b, c) && x == Fourth(c)
  {
    var triple := a * 0x1_0000 + b * 0x100 + c;
    TripleParts(a, b, c);
    u := triple / 64 / 64 / 64 % 64;
    v := triple / 64 / 64 % 64;
    w := triple / 64 % 64;
    x := triple % 64;
  }

  method EncodeChunk(chunk: seq<byte>) returns (g: seq<byte>)
    requires 0 < |chunk| <= 3
    ensures g == Encoded(chunk)
  {
    var a: byte := chunk[0];
    var b: byte := if |chunk| > 1 then chunk[1] else 0;
    var c: byte := if |chunk| > 2 then chunk[2] else 0;
    var u, v, w, x := EncodeThree(a, b, c);
    g := [Letter(u), Letter(v)];
    g := g + [if |chunk| > 1 then Letter(w) else Pad];
    g := g + [if |chunk| > 2 then Letter(x) else Pad];
    ChunkEncoded(chunk, a, b, c);
  }

  lemma ChunkEncoded(chunk: seq<byte>, a: byte, b: byte, c: byte)
    requires 0 < |chunk| <= 3 && a == chunk[0]
    requires b == (if |chunk| > 1 then chunk[1] else 0) && c == (if |chunk| > 2 then chunk[2] else 0)
    ensures Encoded(chunk) == [Letter(First(a)), Letter(Second(a, b)),
                               if |chunk| > 1 then Letter(Third(b, c)) else Pad,
                               if |chunk| > 2 then Letter(Fourth(c)) else Pad]
  {
    if |chunk| == 3 {
      EncodedGroup(chunk);
      assert chunk[3..] == [] && Encoded([]) == [];
    } else if |chunk| == 2 {
      assert chunk == [a, b];
      EncodedTwo(a, b);
    } else {
      assert chunk == [a];
      EncodedOne(a);
    }
  }

  method Encode(s: seq<byte>) returns (t: seq<byte>)
    ensures t == Encoded(s)
  {
    t := [];
    var i := 0;
    assert s[0..] == s;
    while i < |s|
      invariant i <= |s|
      invariant t + Encoded(s[i..]) == Encoded(s)
    {
      var j := Min(i + 3, |s|);
      var group := EncodeChunk(s[i..j]);
      EncodedChunks(s, i);
      t := t + group;
      i := j;
    }
    assert Encoded([]) == [];
  }

  /** The position of a byte in the alphabet, zero if it is not there. */
  method Find(b: byte) returns (v: sextet)
    ensures v == Value(b)
  {
    AlphabetLetters(0);
    for i := 0 to |Alphabet|
      invariant forall j: sextet :: j < i ==> Letter(j) != b
    {
      AlphabetLetters(i);
      if Alphabet[i] as int == b {
        LetterValue(i);
        return i;
      }
    }
    assert Letter(Value(b)) != b;
    return 0;
  }

  method Trim(t: seq<byte>) returns (r: seq<byte>)
    ensures r == Trimmed(t)
  {
    r := t;
    while r != [] && r[|r| - 1] == Pad
      invariant Trimmed(r) == Trimmed(t)
      decreases |r|
    {
      r := r[..|r| - 1];
    }
  }

  method DecodeFour(a: sextet, b: sextet, c: sextet, d: sextet) returns (x: byte, y: byte, z: byte)
    ensures x == ByteA(a, b) && y == ByteB(b, c) && z == ByteC(c, d)
  {
    var quad := a * 0x4_0000 + b * 0x1000 + c * 64 + d;
    QuadParts(a, b, c, d);
    x := quad / 0x100 / 0x100 % 256;
    y := quad / 0x100 % 256;
    z := quad % 256;
  }

  method DecodeChunk(chunk: seq<sextet>) returns (g: seq<byte>)
    requires 2 <= |chunk| <= 4
    ensures g == Unpacked(chunk)
  {
    var c: sextet := if |chunk| > 2 then chunk[2] else 0;
    var d: sextet := if |chunk| > 3 then chunk[3] else 0;
    var x, y, z := DecodeFour(chunk[0], chunk[1], c, d);
    g := [x];
    if |chunk| > 2 {
      g := g + [y];
    }
    if |chunk| > 3 {
      g := g + [z];
    }
  }

  lemma UnpackedChunks(v: seq<sextet>, i: nat)
    requires i < |v|
    ensures var j := Min(i + 4, |v|);
            Unpacked(v[i..]) == Unpacked(v[i..j]) + Unpacked(v[j..])
  {
    var j := Min(i + 4, |v|);
    if i + 4 <= |v| {
      var chunk := v[i..j];
      assert v[i..] == [v[i], v[i + 1], v[i + 2], v[i + 3]] + v[j..];
      assert chunk == [v[i], v[i + 1], v[i + 2], v[i + 3]] + [];
      UnpackGroup(v[i], v[i + 1], v[i + 2], v[i + 3], v[j..]);
      UnpackGroup(v[i], v[i + 1], v[i + 2], v[i + 3], []);
    } else {
      assert v[i..] == v[i..j] && v[j..] == [];
    }
  }

  method DecodeText(t: seq<byte>) returns (v: seq<sextet>)
    ensures v == Values(t)
  {
    v := [];
    for k := 0 to |t|
      invariant v == Values(t[..k])
    {
      var x := Find(t[k]);
      v := v + [x];
    }
    assert t[..|t|] == t;
  }

  method Decode(text: seq<byte>) returns (r: Result<seq<byte>, CodecError>)
    ensures r == if WellFormed(Decoded(text)) then Ok(Decoded(text)) else Err(NotUtf8)
  {
    var t := Trim(text);
    var v := DecodeText(t);
    var bytes: seq<byte> := [];
    var i := 0;
    assert v[0..] == v;
    while i < |v|
      invariant i <= |v|
      invariant bytes + Unpacked(v[i..]) == Unpacked(v)
    {
      var j := Min(i + 4, |v|);
      if j - i < 2 {
        break;
      }
      var group := DecodeChunk(v[i..j]);
      UnpackedChunks(v, i);
      bytes := bytes + group;
      i := j;
    }
    assert bytes == Decoded(text);
    return if WellFormed(bytes) then Ok(bytes) else Err(NotUtf8);
  }

  /** Encoding and then decoding: the original if and only if it is UTF-8, as every string is. */
  method RoundTrip(s: seq<byte>) returns (r: Result<seq<byte>, CodecError>)
    ensures r == Ok(s) <==> WellFormed(s)
    ensures r == Err(NotUtf8) <==> !WellFormed(s)
  {
    var t := Encode(s);
    r := Decode(t);
    BytesRoundTrip(s);
  }
}
