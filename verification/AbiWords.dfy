/** Numbers as big-endian bytes, and powers of two. */
module AbiWords {
  import opened Utf8

  const WordBits: nat := 256

  const HalfBits: nat := 128

  function Pow2(n: nat): (p: nat)
    ensures p >= 1
  {
    if n == 0 then 1 else 2 * Pow2(n - 1)
  }

  lemma {:induction false} Pow2Adds(m: nat, n: nat)
    ensures Pow2(m + n) == Pow2(m) * Pow2(n)
  {
    if m > 0 {
      Pow2Adds(m - 1, n);
      assert Pow2(m + n) == 2 * Pow2(m - 1 + n);
      assert 2 * (Pow2(m - 1) * Pow2(n)) == 2 * Pow2(m - 1) * Pow2(n);
    }
  }

  lemma Pow2Monotone(m: nat, n: nat)
    requires m <= n
    ensures Pow2(m) <= Pow2(n)
    decreases n
  {
    if m < n {
      Pow2Monotone(m, n - 1);
    }
  }

  lemma Pow2Byte(n: nat)
    ensures Pow2(n + 8) == 256 * Pow2(n)
  {
    Pow2Adds(n, 8);
    assert Pow2(8) == 256;
  }

  function BigEndian(s: seq<byte>): nat {
    if s == [] then 0 else BigEndian(s[..|s| - 1]) * 256 + s[|s| - 1]
  }

  /** The low `width` bytes of n. */
  function BytesOf(n: nat, width: nat): (s: seq<byte>)
    ensures |s| == width
  {
    if width == 0 then [] else BytesOf(n / 256, width - 1) + [n % 256]
  }

  lemma ModSteps(n: nat, p: nat)
    requires p > 0
    ensures n % (256 * p) == n / 256 % p * 256 + n % 256
  {
    var h, l := n / 256, n % 256;
    var q, r := h / p, h % p;
    assert h == q * p + r;
    assert n == q * (256 * p) + (r * 256 + l) by {
      assert 256 * (q * p) == q * (256 * p);
    }
    assert r * 256 + l < 256 * p;
    DivModIs(n, 256 * p, q, r * 256 + l);
  }

  lemma DivModIs(n: int, d: int, q: int, r: int)
    requires d > 0 && n == q * d + r && 0 <= r < d
    ensures n / d == q && n % d == r
  {
    var q', r' := n / d, n % d;
    assert n == q' * d + r' && 0 <= r' < d;
    SameQuotient(d, q, r, q', r');
  }

  lemma SameQuotient(d: int, q: int, r: int, q': int, r': int)
    requires 0 <= r < d && 0 <= r' < d && q * d + r == q' * d + r'
    ensures q == q' && r == r'
  {
    assert (q - q') * d == r' - r;
    if q != q' {
      Multiple(q - q', d);
      assert false;
    }
  }

  lemma Multiple(e: int, d: int)
    requires e != 0 && d > 0
    ensures e * d >= d || e * d <= -d
  {
    if e > 0 {
      assert (e - 1) * d >= 0;
    } else {
      assert (-1 - e) * d >= 0;
    }
  }

  lemma {:induction false} BigEndianOf(n: nat, width: nat)
    ensures BigEndian(BytesOf(n, width)) == n % Pow2(8 * width)
  {
    if width > 0 {
      var s := BytesOf(n, width);
      assert s[..|s| - 1] == BytesOf(n / 256, width - 1);
      BigEndianOf(n / 256, width - 1);
      Pow2Byte(8 * (width - 1));
      ModSteps(n, Pow2(8 * (width - 1)));
    }
  }

  lemma {:induction false} LowBytes(n: nat, width: nat, k: nat)
    requires k <= width
    ensures BytesOf(n, width)[width - k..] == BytesOf(n, k)
    decreases width
  {
    if k > 0 {
      LowBytes(n / 256, width - 1, k - 1);
      assert BytesOf(n, width)[width - k..] == BytesOf(n / 256, width - 1)[width - k..] + [n % 256];
    }
  }

  lemma {:induction false} HighBytes(n: nat, width: nat, k: nat, i: nat)
    requires n < Pow2(8 * k) && i + k < width
    ensures BytesOf(n, width)[i] == 0
    decreases width
  {
    if k > 0 {
      Pow2Byte(8 * (k - 1));
      HighBytes(n / 256, width - 1, k - 1, i);
    } else if i < width - 1 {
      HighBytes(0, width - 1, 0, i);
    }
  }

  lemma Regroup(a: int, p: int, b: int, c: int)
    ensures (a * p + b) * 256 + c == a * (256 * p) + (b * 256 + c)
  {
  }

  lemma {:induction false} BigEndianLead(s: seq<byte>)
    requires s != []
    ensures BigEndian(s) == s[0] * Pow2(8 * (|s| - 1)) + BigEndian(s[1..])
    ensures BigEndian(s[1..]) < Pow2(8 * (|s| - 1))
  {
    if |s| > 1 {
      var front := s[..|s| - 1];
      BigEndianLead(front);
      assert s[1..][..|s[1..]| - 1] == front[1..];
      Pow2Byte(8 * (|s| - 2));
      Regroup(s[0], Pow2(8 * (|s| - 2)), BigEndian(front[1..]), s[|s| - 1]);
    } else {
      assert s[..|s| - 1] == [] && s[1..] == [];
    }
  }
}
