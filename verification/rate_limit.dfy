/**
 * The in-memory rate limiter: per key, a window that opens with a first request and counts the
 * requests allowed in it.  Times are milliseconds.
 */
module RateLimit {
  import opened Wrappers

  datatype Bucket = Bucket(count: int, resetAt: int)

  datatype Answer = Answer(allowed: bool, limit: int, remaining: int, retryAfterSec: int)

  /** `Math.ceil(ms / 1000)`. */
  function CeilSeconds(ms: int): int { -((-ms) / 1000) }

  predicate Opens(bucket: Option<Bucket>, now: int) { bucket.None? || now >= bucket.value.resetAt }

  function AnswerOf(bucket: Option<Bucket>, limit: int, now: int): Answer {
    if Opens(bucket, now) then Answer(true, limit, limit - 1, 0)
    else if bucket.value.count >= limit then Answer(false, limit, 0, CeilSeconds(bucket.value.resetAt - now))
    else Answer(true, limit, limit - (bucket.value.count + 1), 0)
  }

  function AfterCheck(bucket: Option<Bucket>, limit: int, windowMs: int, now: int): Bucket {
    if Opens(bucket, now) then Bucket(1, now + windowMs)
    else if bucket.value.count >= limit then bucket.value
    else Bucket(bucket.value.count + 1, bucket.value.resetAt)
  }

  function BucketOf(buckets: map<string, Bucket>, key: string): Option<Bucket> {
    if key in buckets then Some(buckets[key]) else None
  }

  class RateLimiter {
    var buckets: map<string, Bucket>

    constructor ()
      ensures buckets == map[]
    {
      buckets := map[];
    }

    /** Only the bucket of `key` changes, so keys do not interfere. */
    method Check(key: string, limit: int, windowMs: int, now: int) returns (answer: Answer)
      modifies this
      ensures answer == AnswerOf(BucketOf(old(buckets), key), limit, now)
      ensures buckets == old(buckets)[key := AfterCheck(BucketOf(old(buckets), key), limit, windowMs, now)]
    {
      if key !in buckets || now >= buckets[key].resetAt {
        buckets := buckets[key := Bucket(1, now + windowMs)];
        return Answer(true, limit, limit - 1, 0);
      }
      var bucket := buckets[key];
      if bucket.count >= limit {
        return Answer(false, limit, 0, CeilSeconds(bucket.resetAt - now));
      }
      buckets := buckets[key := bucket.(count := bucket.count + 1)];
      return Answer(true, limit, limit - (bucket.count + 1), 0);
    }
  }

  // ----- one key over time -----

  predicate InTime(times: seq<int>) { forall i, j | 0 <= i < j < |times| :: times[i] <= times[j] }

  /** How many calls of a trace are allowed at times in `[from, to)`, from a given bucket on. */
  function Allowed(bucket: Option<Bucket>, limit: int, windowMs: int, times: seq<int>, from: int, to: int): nat
    decreases times
  {
    if times == [] then 0
    else
      (if AnswerOf(bucket, limit, times[0]).allowed && from <= times[0] < to then 1 else 0)
      + Allowed(Some(AfterCheck(bucket, limit, windowMs, times[0])), limit, windowMs, times[1..], from, to)
  }

  lemma {:induction false} NoneAfterTheEnd(
    bucket: Option<Bucket>, limit: int, windowMs: int, times: seq<int>, from: int, to: int)
    requires InTime(times) && (times != [] ==> times[0] >= to)
    ensures Allowed(bucket, limit, windowMs, times, from, to) == 0
    decreases times
  {
    if times != [] {
      NoneAfterTheEnd(Some(AfterCheck(bucket, limit, windowMs, times[0])), limit, windowMs, times[1..], from, to);
    }
  }

  /** What a bucket leaves to allow in `[from, to)`: its own rest if it outlives the interval; its rest and
      a whole next bucket if it is replaced within; two buckets but for the opening request of the
      first, which lies before the interval, if it is replaced earlier. */
  function Room(bucket: Option<Bucket>, limit: int, from: int, to: int): int {
    if bucket.Some? && bucket.value.resetAt >= to then limit - bucket.value.count
    else if bucket.Some? && bucket.value.resetAt > from then limit - bucket.value.count + limit
    else 2 * limit - 1
  }

  predicate Counting(bucket: Option<Bucket>, limit: int) { bucket.Some? ==> 1 <= bucket.value.count <= limit }

  lemma {:induction false} AllowedFitsRoom(
    bucket: Option<Bucket>, limit: int, windowMs: int, times: seq<int>, from: int, to: int)
    requires limit >= 1 && windowMs > 0 && to <= from + windowMs
    requires InTime(times) && Counting(bucket, limit)
    ensures Allowed(bucket, limit, windowMs, times, from, to) <= Room(bucket, limit, from, to)
    decreases times
  {
    if times != [] {
      if times[0] >= to {
        NoneAfterTheEnd(bucket, limit, windowMs, times, from, to);
      } else {
        AllowedFitsRoom(Some(AfterCheck(bucket, limit, windowMs, times[0])), limit, windowMs, times[1..], from, to);
      }
    }
  }

  /** No interval of one window length sees `2 * limit` allowed calls, wherever it starts. */
  lemma AtMostTwoBuckets(limit: int, windowMs: int, times: seq<int>, from: int)
    requires limit >= 1 && windowMs > 0 && InTime(times)
    ensures Allowed(None, limit, windowMs, times, from, from + windowMs) <= 2 * limit - 1
  {
    AllowedFitsRoom(None, limit, windowMs, times, from, from + windowMs);
  }

  /** `n` calls at one time within a bucket that has room for them. */
  lemma {:induction false} Burst(
    bucket: Bucket, limit: int, windowMs: int, n: nat, t: int, rest: seq<int>, from: int, to: int)
    requires t < bucket.resetAt && bucket.count + n <= limit && from <= t < to
    ensures Allowed(Some(bucket), limit, windowMs, seq(n, _ => t) + rest, from, to)
         == n + Allowed(Some(bucket.(count := bucket.count + n)), limit, windowMs, rest, from, to)
    decreases n
  {
    var times := seq(n, _ => t) + rest;
    if n == 0 {
      assert times == rest;
    } else {
      assert times[0] == t && times[1..] == seq(n - 1, _ => t) + rest;
      Burst(bucket.(count := bucket.count + 1), limit, windowMs, n - 1, t, rest, from, to);
    }
  }

  /** One early call, the rest of its bucket just before the window closes, a whole bucket just after. */
  function TightTrace(limit: int, windowMs: int): seq<int>
    requires limit >= 1
  {
    [0] + seq(limit - 1, _ => windowMs - 1) + ([windowMs] + seq(limit - 1, _ => windowMs))
  }

  /** The bound is reached: `2 * limit - 1` calls within one window length. */
  lemma BoundIsTight(limit: int, windowMs: int)
    requires limit >= 1 && windowMs >= 2
    ensures InTime(TightTrace(limit, windowMs))
    ensures Allowed(None, limit, windowMs, TightTrace(limit, windowMs), windowMs - 1, 2 * windowMs - 1) == 2 * limit - 1
  {
    var late := seq(limit - 1, _ => windowMs);
    var rest := [windowMs] + late;
    var from, to := windowMs - 1, 2 * windowMs - 1;
    var times := TightTrace(limit, windowMs);
    assert times[1..] == seq(limit - 1, _ => windowMs - 1) + rest;
    Burst(Bucket(1, windowMs), limit, windowMs, limit - 1, windowMs - 1, rest, from, to);
    SecondBucket(limit, windowMs, Bucket(limit, windowMs), from, to);
  }

  /** A burst at the instant the bucket closes opens the next one and fills it. */
  lemma SecondBucket(limit: int, windowMs: int, full: Bucket, from: int, to: int)
    requires limit >= 1 && windowMs >= 2 && full == Bucket(limit, windowMs) && from <= windowMs < to
    ensures Allowed(Some(full), limit, windowMs, [windowMs] + seq(limit - 1, _ => windowMs), from, to) == limit
  {
    var late := seq(limit - 1, _ => windowMs);
    assert ([windowMs] + late)[1..] == late + [];
    Burst(Bucket(1, 2 * windowMs), limit, windowMs, limit - 1, windowMs, [], from, to);
  }

  /** With windows of one millisecond, what an instant can still allow: a bucket serves it alone. */
  lemma {:induction false} OneInstant(bucket: Option<Bucket>, limit: int, times: seq<int>, from: int)
    requires limit >= 1 && InTime(times) && Counting(bucket, limit)
    requires bucket.Some? && times != [] ==> bucket.value.resetAt <= times[0] + 1
    ensures Allowed(bucket, limit, 1, times, from, from + 1)
         <= if bucket.Some? && bucket.value.resetAt == from + 1 then limit - bucket.value.count else limit
    decreases times
  {
    if times != [] {
      if times[0] > from {
        NoneAfterTheEnd(bucket, limit, 1, times, from, from + 1);
      } else {
        OneInstant(Some(AfterCheck(bucket, limit, 1, times[0])), limit, times[1..], from);
      }
    }
  }

  predicate WithinLimit(limit: int, windowMs: int, times: seq<int>, from: int) {
    InTime(times) ==> Allowed(None, limit, windowMs, times, from, from + windowMs) <= limit
  }

  /** What the comment in the code claims: no interval of one window length sees more than `limit` allowed calls. */
  ghost predicate SlidingWindow(limit: int, windowMs: int) {
    forall times, from :: WithinLimit(limit, windowMs, times, from)
  }

  /** The claim holds exactly for a limit of one call and for windows of one millisecond. */
  lemma SlidingWindowIff(limit: int, windowMs: int)
    requires limit >= 1 && windowMs > 0
    ensures SlidingWindow(limit, windowMs) <==> limit == 1 || windowMs == 1
  {
    if limit == 1 || windowMs == 1 {
      forall times: seq<int>, from: int ensures WithinLimit(limit, windowMs, times, from) {
        if InTime(times) {
          AtMostTwoBuckets(limit, windowMs, times, from);
          if windowMs == 1 { OneInstant(None, limit, times, from); }
        }
      }
    } else {
      BoundIsTight(limit, windowMs);
      assert !WithinLimit(limit, windowMs, TightTrace(limit, windowMs), windowMs - 1);
    }
  }

  /** After a denial the key's next call is allowed once `retryAfterSec` has passed, and the wait is not
      a whole second longer than the window still runs. */
  lemma RetryAfterIsEnough(bucket: Option<Bucket>, limit: int, windowMs: int, now: int, later: int)
    requires !AnswerOf(bucket, limit, now).allowed
    ensures var wait := AnswerOf(bucket, limit, now).retryAfterSec;
      && wait >= 1
      && now + (wait - 1) * 1000 < bucket.value.resetAt <= now + wait * 1000
      && (later >= now + wait * 1000
          ==> AnswerOf(Some(AfterCheck(bucket, limit, windowMs, now)), limit, later).allowed)
  {
  }

  /** `remaining` is the number of further calls the bucket allows. */
  lemma RemainingIsExact(bucket: Option<Bucket>, limit: int, windowMs: int, now: int, to: int)
    requires limit >= 1 && windowMs > 0 && Counting(bucket, limit)
    requires now < to <= AfterCheck(bucket, limit, windowMs, now).resetAt
    ensures
      var n, after := AnswerOf(bucket, limit, now).remaining, Some(AfterCheck(bucket, limit, windowMs, now));
      n >= 0 && Allowed(after, limit, windowMs, seq(n, _ => now) + [now], now, to) == n
  {
    var after := AfterCheck(bucket, limit, windowMs, now);
    var n := AnswerOf(bucket, limit, now).remaining;
    Burst(after, limit, windowMs, n, now, [now], now, to);
    assert Allowed(Some(after.(count := after.count + n)), limit, windowMs, [now], now, to)
      == Allowed(Some(after.(count := after.count + n)), limit, windowMs, [now][1..], now, to);
  }
}
