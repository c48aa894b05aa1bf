/** Bytes and the well-formedness of UTF-8, which every string of the program satisfies
    (table 3-7 of the Unicode Standard, the check behind the conversion of bytes to a string). */
module Utf8 {

  type byte = x: int | 0 <= x < 256

  predicate Tail(b: byte) {
    0x80 <= b <= 0xBF
  }

  predicate TwoBytes(a: byte, b: byte) {
    0xC2 <= a <= 0xDF && Tail(b)
  }

  predicate ThreeBytes(a: byte, b: byte, c: byte) {
    && Tail(c)
    && match a
       case 0xE0 => 0xA0 <= b <= 0xBF
       case 0xED => 0x80 <= b <= 0x9F
       case _ => 0xE1 <= a <= 0xEF && Tail(b)
  }

  predicate FourBytes(a: byte, b: byte, c: byte, d: byte) {
    && Tail(c)
    && Tail(d)
    && match a
       case 0xF0 => 0x90 <= b <= 0xBF
       case 0xF4 => 0x80 <= b <= 0x8F
       case _ => 0xF1 <= a <= 0xF3 && Tail(b)
  }

  /** The bytes of the first character, or 0 if they are ill-formed. */
  function Width(s: seq<byte>): (n: nat)
    requires s != []
    ensures n <= 4 && n <= |s|
  {
    if s[0] < 0x80 then 1
    else if |s| >= 2 && TwoBytes(s[0], s[1]) then 2
    else if |s| >= 3 && ThreeBytes(s[0], s[1], s[2]) then 3
    else if |s| >= 4 && FourBytes(s[0], s[1], s[2], s[3]) then 4
    else 0
  }

  predicate WellFormed(s: seq<byte>) {
    s == [] || (Width(s) > 0 && WellFormed(s[Width(s)..]))
  }

  // Lossy conversion

  /** How many bytes of an ill-formed start are replaced together: the longest start of a character. */
  function Broken(s: seq<byte>): (n: nat)
    requires s != []
    ensures 1 <= n <= |s|
  {
    if |s| >= 3 && FourBytes(s[0], s[1], s[2], 0x80) then 3
    else if |s| >= 2 && (ThreeBytes(s[0], s[1], 0x80) || FourBytes(s[0], s[1], 0x80, 0x80)) then 2
    else 1
  }

  const Replacement: seq<byte> := [0xEF, 0xBF, 0xBD]

  /** Every ill-formed part becomes the replacement character U+FFFD. */
  function Lossy(s: seq<byte>): seq<byte> {
    if s == [] then []
    else if Width(s) > 0 then s[..Width(s)] + Lossy(s[Width(s)..])
    else Replacement + Lossy(s[Broken(s)..])
  }

  lemma {:induction false} LossyExact(s: seq<byte>)
    requires WellFormed(s)
    ensures Lossy(s) == s
  {
    if s != [] {
      LossyExact(s[Width(s)..]);
      assert s == s[..Width(s)] + s[Width(s)..];
    }
  }

  lemma WidthOfStart(s: seq<byte>, rest: seq<byte>)
    requires s != [] && Width(s) > 0
    ensures Width(s[..Width(s)] + rest) == Width(s)
  {
    var w := Width(s);
    var r := s[..w] + rest;
    assert forall i :: 0 <= i < w ==> r[i] == s[i];
  }

  lemma {:induction false} LossyWellFormed(s: seq<byte>)
    ensures WellFormed(Lossy(s))
  {
    if s == [] {
    } else if Width(s) > 0 {
      var w := Width(s);
      var rest := Lossy(s[w..]);
      LossyWellFormed(s[w..]);
      WidthOfStart(s, rest);
      assert (s[..w] + rest)[w..] == rest;
    } else {
      var rest := Lossy(s[Broken(s)..]);
      LossyWellFormed(s[Broken(s)..]);
      assert (Replacement + rest)[3..] == rest;
    }
  }

  /** The conversion gives well-formed text, and the same bytes exactly when they were well-formed. */
  lemma LossyIff(s: seq<byte>)
    ensures WellFormed(Lossy(s))
    ensures Lossy(s) == s <==> WellFormed(s)
  {
    LossyWellFormed(s);
    if WellFormed(s) {
      LossyExact(s);
    }
  }

  // Characters

  /** A Unicode scalar value. */
  type scalar = x: int | 0 <= x < 0xD800 || 0xE000 <= x < 0x11_0000

  /** The bytes of a character, as table 3-6 of the Unicode Standard distributes its bits. */
  function Utf8Of(c: scalar): (s: seq<byte>)
    ensures 1 <= |s| <= 4
  {
    if c < 0x80 then [c]
    else if c < 0x800 then [0xC0 + c / 64, 0x80 + c % 64]
    else if c < 0x1_0000 then [0xE0 + c / 64 / 64, 0x80 + c / 64 % 64, 0x80 + c % 64]
    else [0xF0 + c / 64 / 64 / 64, 0x80 + c / 64 / 64 % 64, 0x80 + c / 64 % 64, 0x80 + c % 64]
  }

  lemma CharacterWidth(c: scalar)
    ensures Width(Utf8Of(c)) == |Utf8Of(c)|
  {
  }

  lemma Digits(high: nat, low: nat, c: nat)
    requires low < 64 && c == high * 64 + low
    ensures c / 64 == high && c % 64 == low
  {
  }

  lemma ThreeIs(s: seq<byte>) returns (c: scalar)
    requires |s| >= 3 && ThreeBytes(s[0], s[1], s[2])
    ensures 0x800 <= c < 0x1_0000 && Utf8Of(c) == [s[0], s[1], s[2]]
  {
    var high: int := (s[0] as int - 0xE0) * 64 + (s[1] as int - 0x80);
    c := high * 64 + (s[2] as int - 0x80);
    Digits(s[0] as int - 0xE0, s[1] as int - 0x80, high);
    Digits(high, s[2] as int - 0x80, c);
  }

  lemma FourIs(s: seq<byte>) returns (c: scalar)
    requires |s| >= 4 && FourBytes(s[0], s[1], s[2], s[3])
    ensures c >= 0x1_0000 && Utf8Of(c) == [s[0], s[1], s[2], s[3]]
  {
    var high: int := (s[0] as int - 0xF0) * 64 + (s[1] as int - 0x80);
    var middle: int := high * 64 + (s[2] as int - 0x80);
    c := middle * 64 + (s[3] as int - 0x80);
    Digits(s[0] as int - 0xF0, s[1] as int - 0x80, high);
    Digits(high, s[2] as int - 0x80, middle);
    Digits(middle, s[3] as int - 0x80, c);
  }

  /** A start that is well-formed is a character. */
  lemma WidthIsCharacter(s: seq<byte>) returns (c: scalar)
    requires s != [] && Width(s) > 0
    ensures s[..Width(s)] == Utf8Of(c)
  {
    var n := Width(s);
    if n == 1 {
      c := s[0];
    } else if n == 2 {
      c := (s[0] as int - 0xC0) * 64 + (s[1] as int - 0x80);
      Digits(s[0] as int - 0xC0, s[1] as int - 0x80, c);
    } else if n == 3 {
      c := ThreeIs(s);
    } else {
      c := FourIs(s);
    }
  }

  // What is replaced

  /** The bytes begin some character. */
  ghost predicate Begins(p: seq<byte>) {
    exists rest :: p + rest != [] && Width(p + rest) == |p + rest|
  }

  lemma NotBegun(s: seq<byte>, m: nat)
    requires s != [] && Width(s) == 0 && Broken(s) < m <= |s|
    ensures !Begins(s[..m])
  {
    forall rest | s[..m] + rest != []
      ensures Width(s[..m] + rest) != |s[..m] + rest|
    {
      var w := s[..m] + rest;
      assert forall i :: 0 <= i < m ==> w[i] == s[i];
    }
  }

  /** What is replaced together is the longest beginning of a character, or one byte that begins none. */
  lemma BrokenIsLongest(s: seq<byte>)
    requires s != [] && Width(s) == 0
    ensures Broken(s) > 1 ==> Begins(s[..Broken(s)])
    ensures forall m :: Broken(s) < m <= |s| ==> !Begins(s[..m])
  {
    var n := Broken(s);
    if n == 3 {
      var w := s[..3] + [0x80];
      assert w[0] == s[0] && w[1] == s[1] && w[2] == s[2];
      assert Width(w) == |w|;
    } else if n == 2 && ThreeBytes(s[0], s[1], 0x80) {
      var w := s[..2] + [0x80];
      assert w[0] == s[0] && w[1] == s[1];
      assert Width(w) == |w|;
    } else if n == 2 {
      var w := s[..2] + [0x80, 0x80];
      assert w[0] == s[0] && w[1] == s[1];
      assert Width(w) == |w|;
    }
    forall m | n < m <= |s|
      ensures !Begins(s[..m])
    {
      NotBegun(s, m);
    }
  }

  lemma LossyStep(front: seq<byte>, rest: seq<byte>)
    requires front != [] && Width(front) == |front|
    ensures Lossy(front + rest) == front + Lossy(rest)
  {
    assert front[..|front|] == front;
    WidthOfStart(front, rest);
    assert (front + rest)[..|front|] == front && (front + rest)[|front|..] == rest;
  }

  lemma Appended(a: seq<byte>, b: seq<byte>, c: seq<byte>)
    ensures a + b + c == a + (b + c)
  {
  }

  lemma {:induction false} LossyKeeps(good: seq<byte>, bad: seq<byte>, kept: seq<byte>)
    requires WellFormed(good) && kept == Lossy(bad)
    ensures Lossy(good + bad) == good + kept
  {
    if good == [] {
      assert good + bad == bad && good + kept == kept;
    } else {
      var front, rest := good[..Width(good)], good[Width(good)..];
      LossyKeeps(rest, bad, kept);
      WidthOfStart(good, []);
      assert front + [] == front && front + rest == good;
      LossyStep(front, rest + bad);
      Appended(front, rest, bad);
      Appended(front, rest, kept);
    }
  }

  /** Text is kept up to the first ill-formed part, which becomes U+FFFD; the conversion goes on behind it. */
  lemma LossyReplaces(good: seq<byte>, bad: seq<byte>)
    requires WellFormed(good) && bad != [] && Width(bad) == 0
    ensures Lossy(good + bad) == good + [0xEF, 0xBF, 0xBD] + Lossy(bad[Broken(bad)..])
  {
    LossyKeeps(good, bad, Lossy(bad));
  }
}
