/** What the decoder makes of data that are no proper encoding: short data, long data, and words with bits set that the
    type does not use (crates/forge-index-core/src/abi/decoder.rs:118-207, 275-394). */
module AbiLimits {
  import opened Tables
  import opened Utf8
  import opened AbiTypes
  import opened AbiWords
  import opened AbiEncoding
  import opened AbiDecoder
  import opened AbiNumbers
  import opened AbiRoundTrip

  /** Without 32 bytes at its position nothing is read, except a fixed array without elements and a static tuple. */
  lemma ShortData(t: AbiType, data: seq<byte>, at: nat)
    requires at + 32 > |data|
    requires OneWord(t) || t.Bytes? || t.String? || t.Array?
    ensures ParamAt(t, data, at) == Err(DecodeMismatch)
  {
  }

  /** A pointer or length of 2 to the 64 or more is refused, and a smaller one is read. */
  lemma PointerRead(data: seq<byte>, at: nat, n: nat)
    requires at + 32 <= |data| && data[at..at + 32] == Word(n)
    ensures n < Usize ==> ReadUsize(data, at) == Ok(n)
    ensures Usize <= n < Pow2(WordBits) ==> ReadUsize(data, at) == Err(DecodeMismatch)
  {
    if n < Usize {
      UsizeRoundTrip(n);
    } else if n < Pow2(WordBits) && forall i :: 0 <= i < 24 ==> Word(n)[i] == 0 {
      BigPointer(n);
    }
  }

  lemma BigPointer(n: nat)
    requires n < Pow2(WordBits) && forall i :: 0 <= i < 24 ==> Word(n)[i] == 0
    ensures n < Usize
  {
    BigEndianOf(n, 32);
    assert Pow2(8 * 32) == Pow2(WordBits);
    SmallMod(n, Pow2(WordBits));
    HighZero(Word(n), 24);
    LowBound(Word(n)[24..]);
  }

  /** Zero bytes in front count for nothing. */
  lemma {:induction false} HighZero(s: seq<byte>, n: nat)
    requires n <= |s| && forall i :: 0 <= i < n ==> s[i] == 0
    ensures BigEndian(s) == BigEndian(s[n..])
    decreases n
  {
    if n == 0 {
      assert s[0..] == s;
    } else {
      BigEndianLead(s);
      HighZero(s[1..], n - 1);
      assert s[1..][n - 1..] == s[n..];
    }
  }

  lemma LowBound(s: seq<byte>)
    requires |s| == 8
    ensures BigEndian(s) < Usize
  {
    UsizeIsPower();
    BigEndianBelow(s);
  }

  lemma {:induction false} BigEndianBelow(s: seq<byte>)
    ensures BigEndian(s) < Pow2(8 * |s|)
  {
    if s != [] {
      BigEndianBelow(s[..|s| - 1]);
      Pow2Byte(8 * (|s| - 1));
    }
  }

  /** Bytes and strings that claim more than there is are cut off at the end of the data. */
  lemma CutOff(data: seq<byte>, offset: nat, at: nat, n: nat)
    requires ReadUsize(data, offset) == Ok(at) && ReadUsize(data, at) == Ok(n) && at + 32 + n > |data|
    ensures ParamAt(AbiType.Bytes, data, offset) == Ok((Blob(data[at + 32..]), 32))
  {
    assert data[at + 32..|data|] == data[at + 32..];
  }

  // Bits that the type does not use

  /** Numbers of at most 128 bits, addresses and flags are read from the low 16, 20 and 1 bytes; a number is not cut to
      its own width, and any nonzero last byte is true. */
  lemma UnusedBytes(slot: seq<byte>, low: seq<byte>, bits: nat, size: nat)
    requires |slot| == |low| == 32
    ensures bits <= 128 && slot[16..] == low[16..] ==>
      WordValue(Uint(bits), slot) == WordValue(Uint(bits), low) == Ok(Unsigned(BigEndian(slot[16..])))
    ensures bits <= 128 && slot[16..] == low[16..] ==>
      WordValue(AbiType.Int(bits), slot) == WordValue(AbiType.Int(bits), low)
    ensures WordValue(Address, slot) == Ok(AddressOf(slot[12..]))
    ensures WordValue(Bool, slot) == Ok(Flag(slot[31] != 0))
    ensures WordValue(FixedBytes(size), slot) == Ok(FixedBlob(if size <= 32 then slot[..size] else slot))
  {
    assert slot[..32] == slot;
  }
}
