/** One-word values survive encoding and decoding, except negative numbers of exactly 128 bits. */
module AbiNumbers {
  import opened Tables
  import opened AbiTypes
  import opened AbiWords
  import opened AbiEncoding
  import opened AbiDecoder

  lemma SmallMod(n: nat, p: nat)
    requires n < p
    ensures n % p == n
  {
  }

  lemma WordNumber(n: nat)
    requires n < Pow2(WordBits)
    ensures BigEndian(Word(n)) == n
  {
    BigEndianOf(n, WordBits / 8);
    SmallMod(n, Pow2(WordBits));
  }

  lemma WordLow(n: nat)
    ensures BigEndian(Word(n)[16..]) == n % Pow2(HalfBits)
  {
    LowBytes(n, WordBits / 8, HalfBits / 8);
    BigEndianOf(n, HalfBits / 8);
  }

  lemma UintRoundTrip(n: nat, bits: nat)
    requires n < Pow2(bits) && bits <= 256
    ensures UintOf(Word(n), bits) == if bits <= 128 then Unsigned(n) else Unsigned256(Decimal(n))
  {
    if bits <= 128 {
      Pow2Monotone(bits, HalfBits);
      WordLow(n);
      SmallMod(n, Pow2(HalfBits));
    } else {
      Pow2Monotone(bits, WordBits);
      WordNumber(n);
    }
  }

  /** The two's complement of a negative number. */
  lemma NegativeMod(k: int, p: nat)
    requires 0 < 0 - k <= p
    ensures k % p == p + k
  {
    DivModIs(k, p, -1, p + k);
  }

  /** The low 128 bits of a small negative number's two's complement in 256 bits. */
  lemma {:induction false} NegativeLow(k: int)
    requires 0 < 0 - k <= Pow2(HalfBits - 1)
    ensures k % Pow2(WordBits) % Pow2(HalfBits) == Pow2(HalfBits) + k
  {
    Pow2Monotone(HalfBits - 1, HalfBits);
    Pow2Adds(HalfBits, HalfBits);
    NegativeTwice(k, Pow2(HalfBits), Pow2(WordBits));
  }

  lemma NegativeTwice(k: int, p: nat, q: nat)
    requires 0 < 0 - k <= p && q == p * p
    ensures k % q % p == p + k
  {
    assert q >= p;
    NegativeMod(k, q);
    assert q + k == (p - 1) * p + (p + k);
    DivModIs(q + k, p, p - 1, p + k);
  }

  /** In 2 * m copies of s, shortened by less than s, the sign bit s is set. */
  lemma SignBit(s: nat, m: nat, k: int)
    requires s > 0 && m > 0 && 0 - s <= k < 0
    ensures (2 * m * s + k) / s % 2 == 1
    ensures (2 * m * s + k) % (2 * s) == 2 * s + k
  {
    var n := 2 * m * s + k;
    assert n == (2 * m - 1) * s + (s + k);
    DivModIs(n, s, 2 * m - 1, s + k);
    assert (2 * m - 1) % 2 == 1;
    assert n == (m - 1) * (2 * s) + (2 * s + k);
    DivModIs(n, 2 * s, m - 1, 2 * s + k);
  }

  lemma {:induction false} NegativeExtends(k: int, bits: nat)
    requires 0 < bits <= 128 && 0 < 0 - k <= Pow2(bits - 1)
    ensures Pow2(HalfBits) + k >= 0
    ensures SignExtended(Pow2(HalfBits) + k, bits) == if bits == 128 then None else Some(k)
  {
    HalfIs(bits);
    Pow2Monotone(bits - 1, HalfBits);
    ReadNegative(k, Pow2(bits - 1), Pow2(HalfBits - bits), Pow2(HalfBits), bits == HalfBits, Pow2(HalfBits - 1));
  }

  lemma {:induction false} ReadNegative(k: int, s: nat, m: nat, p: nat, last: bool, half: nat)
    requires s > 0 && m > 0 && 0 - s <= k < 0 && p == 2 * m * s && p + k >= 0
    ensures ReadSigned(p + k, s, last, half) == if last then None else Some(k)
  {
    SignBit(s, m, k);
  }

  lemma {:induction false} HalfIs(bits: nat)
    requires 0 < bits <= 128
    ensures Pow2(HalfBits) == 2 * Pow2(HalfBits - bits) * Pow2(bits - 1)
  {
    Pow2Adds(HalfBits - bits, bits);
    Halves(Pow2(HalfBits - bits), Pow2(bits - 1), Pow2(HalfBits));
  }

  lemma Halves(m: nat, s: nat, p: nat)
    requires p == m * (2 * s)
    ensures p == 2 * m * s
  {
  }

  lemma PositiveExtends(k: nat, bits: nat)
    requires 0 < bits <= 128 && k < Pow2(bits - 1)
    ensures SignExtended(k, bits) == Some(k)
  {
    Pow2Monotone(bits - 1, HalfBits - 1);
    DivModIs(k, Pow2(bits - 1), 0, k);
  }

  /** What the low 16 bytes of a two's complement hold. */
  lemma NarrowLow(k: int)
    requires 0 - Pow2(HalfBits - 1) <= k < Pow2(HalfBits - 1)
    ensures BigEndian(SignedWord(k)[16..]) == if k < 0 then Pow2(HalfBits) + k else k
  {
    WordLow(k % Pow2(WordBits));
    if k < 0 {
      NegativeLow(k);
    } else {
      Pow2Monotone(HalfBits - 1, HalfBits);
      Pow2Monotone(HalfBits - 1, WordBits);
      SmallMod(k, Pow2(WordBits));
      SmallMod(k, Pow2(HalfBits));
    }
  }

  /** The first bit of a word is set when the number is at least 2 to the 255. */
  lemma {:induction false} LeadingBit(n: nat)
    requires n < Pow2(WordBits)
    ensures Word(n)[0] >= 0x80 <==> n >= Pow2(WordBits - 1)
  {
    WordNumber(n);
    BigEndianLead(Word(n));
    var p := Pow2(WordBits - 8);
    Pow2Adds(WordBits - 8, 7);
    assert Pow2(7) == 128;
    LeadCompares(Word(n)[0], p, BigEndian(Word(n)[1..]));
  }

  lemma LeadCompares(a: nat, p: nat, r: nat)
    requires r < p
    ensures a >= 128 <==> a * p + r >= p * 128
  {
    if a >= 128 {
      Scaled(a - 128, p);
      assert (a - 128) * p == a * p - 128 * p;
    } else {
      Scaled(127 - a, p);
      assert (127 - a) * p == 127 * p - a * p;
    }
  }

  lemma Scaled(x: nat, y: nat)
    ensures x * y >= 0
  {
  }

  lemma WideNegative(k: int, q: nat, h: nat)
    requires q == 2 * h && 0 < 0 - k <= h
    ensures k % q == q + k && q + k >= h && (q - k % q) % q == 0 - k
  {
    NegativeMod(k, q);
    SmallMod(0 - k, q);
  }

  lemma {:induction false} WideText(k: int)
    requires 0 - Pow2(WordBits - 1) <= k < Pow2(WordBits - 1)
    ensures SignedText(k % Pow2(WordBits), k < 0) == SignedDecimal(k)
    ensures k % Pow2(WordBits) >= Pow2(WordBits - 1) <==> k < 0
  {
    if k < 0 {
      WideNegative(k, Pow2(WordBits), Pow2(WordBits - 1));
    } else {
      SmallMod(k, Pow2(WordBits));
    }
  }

  lemma {:induction false} WideRoundTrip(k: int, bits: nat)
    requires 128 < bits <= 256 && InSigned(k, bits)
    ensures IntOf(SignedWord(k), bits) == Ok(Signed256(SignedDecimal(k)))
  {
    Pow2Monotone(bits - 1, WordBits - 1);
    WordNumber(k % Pow2(WordBits));
    LeadingBit(k % Pow2(WordBits));
    WideText(k);
  }

  lemma {:induction false} NarrowRoundTrip(k: int, bits: nat)
    requires 0 < bits <= 128 && InSigned(k, bits)
    ensures IntOf(SignedWord(k), bits) == if bits == 128 && k < 0 then Err(Overflow) else Ok(Signed(k))
  {
    Pow2Monotone(bits - 1, HalfBits - 1);
    NarrowLow(k);
    if k < 0 {
      NegativeExtends(k, bits);
    } else {
      PositiveExtends(k, bits);
    }
  }

  /** Sign extension is right for every width, except that negative numbers of 128 bits overflow. */
  lemma IntRoundTrip(k: int, bits: nat)
    requires 0 < bits <= 256 && InSigned(k, bits)
    ensures IntOf(SignedWord(k), bits)
            == if bits == 128 && k < 0 then Err(Overflow)
               else Ok(if bits <= 128 then Signed(k) else Signed256(SignedDecimal(k)))
  {
    if bits > 128 {
      WideRoundTrip(k, bits);
    } else {
      NarrowRoundTrip(k, bits);
    }
  }
}
