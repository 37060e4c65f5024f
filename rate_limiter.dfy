/**
 * The per-key token-bucket rate limiter of rate-limiter.ts. Every key (a
 * client IP) owns a bucket of at most 120 tokens that refills at 2 tokens a
 * second; a request is admitted when a whole token is available and takes
 * it. Buckets idle for more than ten minutes are swept away.
 *
 * Timestamps are integer milliseconds passed in by the caller (the source
 * reads `Date.now()`); token counts are exact reals.
 */
module RateLimiter {
  import opened Wrappers

  /** Tokens in a full bucket. */
  const CAPACITY: real := 120.0

  /** Tokens regained per second: 120 per minute. */
  const REFILL_PER_SECOND: real := 120.0 / 60.0

  /** Idle time, in milliseconds, after which a sweep evicts a bucket: ten minutes. */
  const TTL_MS: int := 10 * 60000

  /** A key's bucket: the tokens it holds and the time it was last refilled. */
  datatype Bucket = Bucket(tokens: real, last: int)

  /** The token count lies between empty and full. */
  predicate InBounds(b: Bucket) {
    0.0 <= b.tokens <= CAPACITY
  }

  function Min(x: real, y: real): real {
    if x <= y then x else y
  }

  function Max(x: int, y: int): int {
    if x <= y then y else x
  }

  /** The bucket a key without one starts from. */
  function Fresh(now: int): (b: Bucket)
    ensures InBounds(b) && b.tokens == CAPACITY
  {
    Bucket(CAPACITY, now)
  }

  /**
   * The refill step of `get`: when time has moved on since `b.last`, the
   * tokens grow by 2 per elapsed second, capped at the capacity, and the
   * bucket is stamped with `now`; otherwise nothing changes.
   */
  function Refill(b: Bucket, now: int): (r: Bucket)
    ensures r.last == Max(b.last, now)
    ensures InBounds(b) ==> InBounds(r) && b.tokens <= r.tokens
    ensures now <= b.last ==> r == b
    ensures now > b.last ==> r.tokens == CAPACITY ||
                             r.tokens == b.tokens + (now - b.last) as real / 1000.0 * REFILL_PER_SECOND
    ensures now > b.last ==> r.tokens <= CAPACITY &&
                             r.tokens <= b.tokens + (now - b.last) as real / 1000.0 * REFILL_PER_SECOND
  {
    var elapsed := (now - b.last) as real / 1000.0;
    if elapsed > 0.0 then Bucket(Min(CAPACITY, b.tokens + elapsed * REFILL_PER_SECOND), now) else b
  }

  /**
   * One call of `get` on the key's bucket (`None` when the key has none):
   * the bucket afterwards and whether the request is admitted. A request is
   * admitted exactly when the refilled bucket holds a whole token, and then
   * takes exactly one; the token count stays between 0 and the capacity, and
   * the time stamp never moves backwards, even when the clock does.
   */
  function Admit(existing: Option<Bucket>, now: int): (r: (Bucket, bool))
    ensures var refilled := Refill(existing.GetOr(Fresh(now)), now);
            (r.1 <==> refilled.tokens >= 1.0) &&
            (r.1 ==> r.0 == refilled.(tokens := refilled.tokens - 1.0)) &&
            (!r.1 ==> r.0 == refilled)
    ensures (existing.Some? ==> InBounds(existing.value)) ==> InBounds(r.0)
    ensures existing.Some? ==> r.0.last == Max(existing.value.last, now) >= existing.value.last
    ensures existing.None? ==> r.0.last == now
  {
    var b := Refill(existing.GetOr(Fresh(now)), now);
    if b.tokens >= 1.0 then (b.(tokens := b.tokens - 1.0), true) else (b, false)
  }

  /** The first request of a key is admitted and leaves 119 tokens, stamped with the current time. */
  lemma FirstRequest(now: int)
    ensures Admit(None, now) == (Bucket(CAPACITY - 1.0, now), true)
  {
  }

  /** `n` successive requests at one instant, starting from `b`: whether each was admitted. */
  function Burst(b: Bucket, now: int, n: nat): (r: seq<bool>)
    ensures |r| == n
    ensures now <= b.last && b.tokens < 1.0 ==> forall i :: 0 <= i < n ==> !r[i]
    ensures forall i, j :: 0 <= i < j < n && !r[i] ==> !r[j]
    decreases n
  {
    if n == 0 then []
    else
      var (next, allowed) := Admit(Some(b), now);
      [allowed] + Burst(next, now, n - 1)
  }

  /** From a bucket holding `k` whole tokens, `k` requests at one instant succeed and the next fails. */
  lemma {:induction false} BurstOfWholeTokens(k: nat, now: int)
    ensures Burst(Bucket(k as real, now), now, k + 1) == seq(k, _ => true) + [false]
  {
    if k > 0 {
      BurstOfWholeTokens(k - 1, now);
      assert Admit(Some(Bucket(k as real, now)), now) == (Bucket((k - 1) as real, now), true);
      assert seq(k, _ => true) == [true] + seq(k - 1, _ => true);
    }
  }

  /** At a fixed time, a key with a full bucket gets exactly 120 requests through; the 121st is denied. */
  lemma FullBucketBurst(now: int)
    ensures Burst(Fresh(now), now, 121) == seq(120, _ => true) + [false]
  {
    BurstOfWholeTokens(120, now);
  }

  /**
   * A bucket old enough to be swept has refilled completely by any later
   * request, so evicting it is invisible: the request behaves exactly as for
   * a key seen for the first time.
   */
  lemma EvictionUnobservable(b: Bucket, sweepNow: int, now: int)
    requires InBounds(b)
    requires b.last < sweepNow - TTL_MS && sweepNow <= now
    ensures Admit(Some(b), now) == Admit(None, now)
  {
    var elapsed := (now - b.last) as real / 1000.0;
    assert elapsed > 600.0;
    assert b.tokens + elapsed * REFILL_PER_SECOND >= CAPACITY;
  }

  /** The buckets of `m` stamped at or after `cutoff`. */
  function Live(m: map<string, Bucket>, cutoff: int): (r: map<string, Bucket>)
    ensures forall k :: k in r <==> k in m && m[k].last >= cutoff
    ensures forall k :: k in r ==> r[k] == m[k]
  {
    map k | k in m && m[k].last >= cutoff :: m[k]
  }

  /** The state of `rateLimiter()`: the buckets by key. */
  class Limiter {
    var ips: map<string, Bucket>

    /** Every bucket holds between 0 and 120 tokens. */
    ghost predicate Valid()
      reads this
    {
      forall k :: k in ips ==> InBounds(ips[k])
    }

    /** `rateLimiter()`: no key has a bucket yet. */
    constructor ()
      ensures ips == map[]
      ensures Valid()
    {
      ips := map[];
    }

    /**
     * `get(key)` at time `now`: create the key's bucket if it has none,
     * refill it, and take a token if one is there. Only the key's own
     * bucket changes.
     */
    method Get(key: string, now: int) returns (allowed: bool)
      requires Valid()
      modifies this
      ensures Valid()
      ensures ips.Keys == old(ips).Keys + {key}
      ensures (ips[key], allowed) == Admit(if key in old(ips) then Some(old(ips)[key]) else None, now)
      ensures forall k :: k in old(ips) && k != key ==> ips[k] == old(ips)[k]
    {
      var bucket: Bucket;
      if key in ips {
        bucket := ips[key];
      } else {
        bucket := Fresh(now);
        ips := ips[key := bucket];
      }
      ghost var start := bucket;
      var elapsed := (now - bucket.last) as real / 1000.0;
      if elapsed > 0.0 {
        bucket := bucket.(tokens := Min(CAPACITY, bucket.tokens + elapsed * REFILL_PER_SECOND), last := now);
      }
      assert bucket == Refill(start, now);
      if bucket.tokens >= 1.0 {
        bucket := bucket.(tokens := bucket.tokens - 1.0);
        allowed := true;
      } else {
        allowed := false;
      }
      ips := ips[key := bucket];
    }

    /** `sweep()` at time `now`: evict every bucket last stamped more than ten minutes before `now`. */
    method Sweep(now: int)
      requires Valid()
      modifies this
      ensures Valid()
      ensures ips == Live(old(ips), now - TTL_MS)
    {
      var cutoff := now - TTL_MS;
      var pending := ips.Keys;
      while pending != {}
        invariant pending <= old(ips).Keys
        invariant ips == map k | k in old(ips) && (k in pending || old(ips)[k].last >= cutoff) :: old(ips)[k]
        decreases |pending|
      {
        var key :| key in pending;
        if ips[key].last < cutoff {
          ips := ips - {key};
        }
        pending := pending - {key};
      }
    }
  }
}
