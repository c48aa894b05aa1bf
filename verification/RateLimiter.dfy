/** The token bucket of crates/forge-index-rpc/src/rate_limiter.rs over real-valued time. */
module RateLimiter {

  datatype Bucket = Bucket(tokens: real, maxTokens: real, refillRate: real, lastRefill: real)

  function Min(a: real, b: real): real {
    if a < b then a else b
  }

  function Refilled(b: Bucket, now: real): Bucket {
    b.(tokens := Min(b.tokens + (now - b.lastRefill) * b.refillRate, b.maxTokens), lastRefill := now)
  }

  function Tried(b: Bucket, now: real): (bool, Bucket) {
    var r := Refilled(b, now);
    if r.tokens >= 1.0 then (true, r.(tokens := r.tokens - 1.0)) else (false, r)
  }

  /** How long until a token is there. */
  function Wait(b: Bucket, now: real): real
    requires b.refillRate > 0.0
  {
    var r := Refilled(b, now);
    if r.tokens >= 1.0 then 0.0 else (1.0 - r.tokens) / r.refillRate
  }

  predicate Sound(b: Bucket) {
    0.0 <= b.tokens <= b.maxTokens && b.refillRate >= 0.0
  }

  class TokenBucket {
    var bucket: Bucket

    constructor (maxRps: nat, now: real)
      ensures bucket == Bucket(maxRps as real, maxRps as real, maxRps as real, now) && Sound(bucket)
    {
      bucket := Bucket(maxRps as real, maxRps as real, maxRps as real, now);
    }

    method Refill(now: real)
      modifies this
      ensures bucket == Refilled(old(bucket), now)
    {
      var elapsed := now - bucket.lastRefill;
      bucket := bucket.(tokens := Min(bucket.tokens + elapsed * bucket.refillRate, bucket.maxTokens));
      bucket := bucket.(lastRefill := now);
    }

    method TryAcquire(now: real) returns (ok: bool)
      modifies this
      ensures (ok, bucket) == Tried(old(bucket), now)
    {
      Refill(now);
      ok := bucket.tokens >= 1.0;
      if ok {
        bucket := bucket.(tokens := bucket.tokens - 1.0);
      }
    }

    method TimeUntilAvailable(now: real) returns (wait: real)
      requires bucket.refillRate > 0.0
      modifies this
      ensures bucket == Refilled(old(bucket), now) && wait == Wait(old(bucket), now)
    {
      Refill(now);
      if bucket.tokens >= 1.0 {
        wait := 0.0;
      } else {
        wait := (1.0 - bucket.tokens) / bucket.refillRate;
      }
    }

    /** Acquiring without competitors, with a clock that sleeps exactly as long as asked: at most
        one wait, and the token is taken at the first moment there is one. */
    method Acquire(start: real) returns (now: real)
      requires Sound(bucket) && bucket.maxTokens >= 1.0 && bucket.refillRate > 0.0 && bucket.lastRefill <= start
      modifies this
      ensures now == start + Wait(old(bucket), start)
      ensures Sound(bucket)
      ensures bucket.tokens == Refilled(old(bucket), now).tokens - 1.0
    {
      now := start;
      ghost var waited := false;
      ghost var b := bucket;
      while true
        invariant Sound(bucket) && bucket.maxTokens == b.maxTokens && bucket.refillRate == b.refillRate
        invariant !waited ==> now == start && bucket == b
        invariant waited ==> now == start + Wait(b, start)
        invariant waited ==> bucket == Refilled(b, start) && Refilled(b, start).tokens < 1.0
        decreases !waited
      {
        WaitNonNegative(b, start);
        RefillKeepsSound(bucket, now);
        if waited {
          RefillTwice(b, start, now);
          WaitIsExact(b, start, now);
        }
        var ok := TryAcquire(now);
        if ok {
          break;
        }
        var wait := TimeUntilAvailable(now);
        RefillSame(b, start);
        now := now + wait;
        waited := true;
      }
    }
  }

  // Products of real numbers

  lemma NonNegativeProduct(x: real, y: real)
    requires x >= 0.0 && y >= 0.0
    ensures x * y >= 0.0
  {
  }

  lemma PositiveProduct(x: real, y: real)
    requires x > 0.0 && y > 0.0
    ensures x * y > 0.0
  {
  }

  lemma Distributes(x: real, y: real, z: real)
    ensures (x + y) * z == x * z + y * z
    ensures (x - y) * z == x * z - y * z
  {
  }

  lemma QuotientPositive(d: real, r: real)
    requires d > 0.0 && r > 0.0
    ensures d / r > 0.0 && (d / r) * r == d
  {
    var w := d / r;
    assert w * r == d;
    if w <= 0.0 {
      NonNegativeProduct(0.0 - w, r);
      assert false;
    }
  }

  lemma RefillKeepsSound(b: Bucket, now: real)
    requires Sound(b) && b.lastRefill <= now
    ensures Sound(Refilled(b, now))
  {
    NonNegativeProduct(now - b.lastRefill, b.refillRate);
  }

  lemma WaitNonNegative(b: Bucket, now: real)
    requires b.refillRate > 0.0
    ensures Wait(b, now) >= 0.0
  {
    var x := Refilled(b, now).tokens;
    if x < 1.0 {
      QuotientPositive(1.0 - x, b.refillRate);
    }
  }

  lemma RefillSame(b: Bucket, now: real)
    requires Sound(b) && b.lastRefill <= now
    ensures Refilled(Refilled(b, now), now) == Refilled(b, now)
  {
    RefillKeepsSound(b, now);
    assert now - now == 0.0 && 0.0 * b.refillRate == 0.0;
  }

  /** Refilling on the way changes nothing. */
  lemma RefillTwice(b: Bucket, t: real, u: real)
    requires Sound(b) && b.lastRefill <= t <= u
    ensures Refilled(Refilled(b, t), u) == Refilled(b, u)
  {
    var r := b.refillRate;
    assert u - b.lastRefill == (t - b.lastRefill) + (u - t);
    Distributes(t - b.lastRefill, u - t, r);
    NonNegativeProduct(u - t, r);
    NonNegativeProduct(t - b.lastRefill, r);
  }

  /** Asked at `now`, the wait is exact: trying later succeeds if and only if the wait has passed. */
  lemma WaitIsExact(b: Bucket, now: real, later: real)
    requires Sound(b) && b.maxTokens >= 1.0 && b.refillRate > 0.0 && b.lastRefill <= now <= later
    ensures Wait(b, now) >= 0.0
    ensures Tried(Refilled(b, now), later).0 <==> later >= now + Wait(b, now)
  {
    RefillKeepsSound(b, now);
    WaitNonNegative(b, now);
    var x := Refilled(b, now).tokens;
    NonNegativeProduct(later - now, b.refillRate);
    if x < 1.0 {
      DeficitTime(1.0 - x, b.refillRate, later - now);
    }
  }

  /** A deficit d is made up at rate r exactly after d / r. */
  lemma DeficitTime(d: real, r: real, e: real)
    requires d > 0.0 && r > 0.0 && e >= 0.0
    ensures d / r > 0.0
    ensures e * r >= d <==> e >= d / r
  {
    var w := d / r;
    QuotientPositive(d, r);
    Distributes(e, w, r);
    Distributes(w, e, r);
    if e >= w {
      NonNegativeProduct(e - w, r);
    } else {
      PositiveProduct(w - e, r);
    }
  }

  // Call sequences

  /** A call: try to acquire, or ask how long to wait. */
  datatype Request = Try(at: real) | Ask(at: real)

  function Step(b: Bucket, q: Request): Bucket {
    match q
    case Try(t) => Tried(b, t).1
    case Ask(t) => Refilled(b, t)
  }

  function StateAfter(b: Bucket, qs: seq<Request>): Bucket
    decreases |qs|
  {
    if qs == [] then b else StateAfter(Step(b, qs[0]), qs[1..])
  }

  function Acquired(b: Bucket, qs: seq<Request>): nat
    decreases |qs|
  {
    if qs == [] then 0
    else Got(b, qs[0]) + Acquired(Step(b, qs[0]), qs[1..])
  }

  /** The clock never goes back. */
  predicate Clocked(b: Bucket, qs: seq<Request>)
    decreases |qs|
  {
    qs == [] || (b.lastRefill <= qs[0].at && Clocked(Step(b, qs[0]), qs[1..]))
  }

  /** Tokens stay within bounds in every reachable state. */
  lemma {:induction false} StaysSound(b: Bucket, qs: seq<Request>)
    requires Sound(b) && Clocked(b, qs)
    ensures Sound(StateAfter(b, qs))
    ensures StateAfter(b, qs).maxTokens == b.maxTokens && StateAfter(b, qs).refillRate == b.refillRate
    ensures StateAfter(b, qs).lastRefill == if qs == [] then b.lastRefill else qs[|qs| - 1].at
    decreases |qs|
  {
    if qs != [] {
      RefillKeepsSound(b, qs[0].at);
      StaysSound(Step(b, qs[0]), qs[1..]);
    }
  }

  function Got(b: Bucket, q: Request): nat {
    if q.Try? && Tried(b, q.at).0 then 1 else 0
  }

  lemma StepConserves(b: Bucket, q: Request)
    requires Sound(b) && b.lastRefill <= q.at
    ensures Got(b, q) as real + Step(b, q).tokens <= b.tokens + Inflow(b.refillRate, b.lastRefill, q.at)
    ensures Sound(Step(b, q)) && Step(b, q).lastRefill == q.at
    ensures Step(b, q).refillRate == b.refillRate && Step(b, q).maxTokens == b.maxTokens
  {
    RefillKeepsSound(b, q.at);
  }

  /** What flows in between two moments. */
  function Inflow(rate: real, t: real, u: real): real {
    (u - t) * rate
  }

  lemma InflowAdds(rate: real, t: real, u: real, v: real)
    ensures Inflow(rate, t, v) == Inflow(rate, t, u) + Inflow(rate, u, v)
  {
  }

  lemma Chained(got: nat, n: nat, x: real, x': real, left: real, p: real, q: real)
    requires got as real + x' <= x + p && n as real + left <= x' + q
    ensures (got + n) as real + left <= x + (p + q)
  {
  }

  /** Tokens handed out and tokens left never exceed what was there plus what flowed in. */
  lemma {:induction false} Conservation(b: Bucket, qs: seq<Request>)
    requires Sound(b) && Clocked(b, qs)
    ensures Acquired(b, qs) as real + StateAfter(b, qs).tokens <=
            b.tokens + Inflow(b.refillRate, b.lastRefill, StateAfter(b, qs).lastRefill)
    decreases |qs|
  {
    if qs != [] {
      var b', last := Step(b, qs[0]), StateAfter(b, qs);
      StepConserves(b, qs[0]);
      Conservation(b', qs[1..]);
      Chained(Got(b, qs[0]), Acquired(b', qs[1..]), b.tokens, b'.tokens, last.tokens,
              Inflow(b.refillRate, b.lastRefill, qs[0].at), Inflow(b.refillRate, qs[0].at, last.lastRefill));
      InflowAdds(b.refillRate, b.lastRefill, qs[0].at, last.lastRefill);
    }
  }

  lemma {:induction false} Splits(b: Bucket, qs: seq<Request>, i: nat)
    requires i <= |qs| && Clocked(b, qs)
    ensures Clocked(b, qs[..i]) && Clocked(StateAfter(b, qs[..i]), qs[i..])
    ensures Acquired(b, qs) == Acquired(b, qs[..i]) + Acquired(StateAfter(b, qs[..i]), qs[i..])
    decreases |qs|
  {
    if i == 0 {
      assert qs[..0] == [] && qs[0..] == qs;
    } else {
      Splits(Step(b, qs[0]), qs[1..], i - 1);
      assert qs[..i][1..] == qs[1..][..i - 1] && qs[1..][i - 1..] == qs[i..];
    }
  }

  /** The rate bound: in any window of any call sequence, from its first call to its last, the number
      of successful acquisitions is at most the capacity plus the rate times the window's length. */
  lemma {:induction false} RateBound(b: Bucket, qs: seq<Request>, i: nat, j: nat)
    requires Sound(b) && Clocked(b, qs) && i < j <= |qs|
    ensures Acquired(StateAfter(b, qs[..i]), qs[i..j]) as real <=
            b.maxTokens + Inflow(b.refillRate, qs[i].at, qs[j - 1].at)
  {
    WindowStart(b, qs, i, j);
    WindowBound(StateAfter(b, qs[..i]), qs[i..j]);
    assert qs[i..j][0] == qs[i] && qs[i..j][j - i - 1] == qs[j - 1];
  }

  /** The bucket at the start of a window. */
  lemma {:induction false} WindowStart(b: Bucket, qs: seq<Request>, i: nat, j: nat)
    requires Sound(b) && Clocked(b, qs) && i < j <= |qs|
    ensures var s := StateAfter(b, qs[..i]);
      Sound(s) && s.maxTokens == b.maxTokens && s.refillRate == b.refillRate && Clocked(s, qs[i..j])
  {
    Splits(b, qs, i);
    StaysSound(b, qs[..i]);
    Splits(StateAfter(b, qs[..i]), qs[i..], j - i);
    assert qs[i..j] == qs[i..][..j - i];
  }

  lemma {:induction false} WindowBound(s: Bucket, w: seq<Request>)
    requires Sound(s) && Clocked(s, w) && w != []
    ensures Acquired(s, w) as real <= s.maxTokens + Inflow(s.refillRate, w[0].at, w[|w| - 1].at)
  {
    var s' := Refilled(s, w[0].at);
    RefillKeepsSound(s, w[0].at);
    SameFromRefilled(s, w);
    Conservation(s', w);
    StaysSound(s', w);
  }

  lemma {:induction false} SameFromRefilled(s: Bucket, w: seq<Request>)
    requires Sound(s) && Clocked(s, w) && w != []
    ensures Clocked(Refilled(s, w[0].at), w) && Acquired(Refilled(s, w[0].at), w) == Acquired(s, w)
  {
    RefillSame(s, w[0].at);
    assert Tried(Refilled(s, w[0].at), w[0].at) == Tried(s, w[0].at);
    assert Step(Refilled(s, w[0].at), w[0]) == Step(s, w[0]);
  }

  /** A limiter for zero requests per second never lets anyone through. */
  lemma {:induction false} ZeroNeverAcquires(b: Bucket, qs: seq<Request>)
    requires b.maxTokens == 0.0
    ensures Acquired(b, qs) == 0
    decreases |qs|
  {
    if qs != [] {
      ZeroNeverAcquires(Step(b, qs[0]), qs[1..]);
    }
  }

  // A burst after a pause

  /** n tries at one moment. */
  function Burst(now: real, n: nat): seq<Request> {
    if n == 0 then [] else [Try(now)] + Burst(now, n - 1)
  }

  lemma RefilledBy(b: Bucket, now: real, x: real)
    requires x == (now - b.lastRefill) * b.refillRate
    ensures Refilled(b, now) == Bucket(Min(b.tokens + x, b.maxTokens), b.maxTokens, b.refillRate, now)
  {
  }

  lemma RefillNow(b: Bucket)
    requires Sound(b)
    ensures Refilled(b, b.lastRefill) == b
  {
    Distributes(b.lastRefill, b.lastRefill, b.refillRate);
    RefilledBy(b, b.lastRefill, 0.0);
  }

  lemma BurstFirst(b: Bucket, now: real, n: nat)
    requires n > 0
    ensures Acquired(b, Burst(now, n)) == Got(b, Try(now)) + Acquired(Step(b, Try(now)), Burst(now, n - 1))
  {
    assert Burst(now, n)[0] == Try(now) && Burst(now, n)[1..] == Burst(now, n - 1);
  }

  /** A bucket refilled just now that holds m whole tokens lets m tries through and no more. */
  lemma {:induction false} TokensGoAtOnce(b: Bucket, now: real, n: nat, m: nat)
    requires Sound(b) && b.lastRefill == now && m as real <= b.tokens < m as real + 1.0
    ensures Acquired(b, Burst(now, n)) == if n <= m then n else m
    decreases n
  {
    if n > 0 {
      BurstFirst(b, now, n);
      RefillNow(b);
      TokensGoAtOnce(Step(b, Try(now)), now, n - 1, if m > 0 then m - 1 else 0);
    }
  }

  /** After a pause in which its rate fills it up, a bucket with a capacity of m tokens lets exactly m of any larger
      number of tries through at once. */
  lemma FullAfterPause(b: Bucket, now: real, m: nat, n: nat)
    requires Sound(b) && b.maxTokens == m as real && b.lastRefill <= now
    requires (now - b.lastRefill) * b.refillRate >= b.maxTokens - b.tokens
    ensures Acquired(b, Burst(now, n)) == if n <= m then n else m
  {
    var full := Refilled(b, now);
    FullIs(b, now);
    TokensGoAtOnce(full, now, n, m);
    if n > 0 {
      BurstFirst(b, now, n);
      BurstFirst(full, now, n);
      RefillNow(full);
    }
  }

  lemma FullIs(b: Bucket, now: real)
    requires Sound(b) && b.lastRefill <= now
    requires (now - b.lastRefill) * b.refillRate >= b.maxTokens - b.tokens
    ensures var full := Refilled(b, now); Sound(full) && full.tokens == b.maxTokens && full.lastRefill == now
  {
    RefillKeepsSound(b, now);
  }
}
