/**
 * The four rate-limiting algorithms in exact arithmetic. Token amounts are scaled by
 * `windowMs`, so that one token is `windowMs` units and refilling adds `limit` units a
 * millisecond; the sliding counter's weights are scaled the same way.
 */
module RateLimiter {
  import opened Common

  datatype Algorithm = TokenBucket | FixedWindow | SlidingWindowLog | SlidingWindowCounter

  datatype Config = Config(algorithm: Algorithm, limit: int, windowMs: int)

  ghost predicate Proper(c: Config) { c.limit >= 1 && c.windowMs >= 1 }

  datatype Decision = Allowed(remaining: int) | Denied(retryAfterMs: int)

  /** What the limiter remembers about one key. */
  datatype KeyState =
    | Unseen
    | Bucket(tokens: int, lastRefill: int)
    | Window(count: int, windowStart: int)
    | Log(timestamps: seq<int>)
    | Counter(current: int, previous: int, start: int)

  // ---- The algorithms ---------------------------------------------------------

  /** The quotient rounded down, and 0 below `b`. */
  function Floor(a: int, b: int): nat
    requires b > 0
    decreases a
  {
    if a < b then 0 else 1 + Floor(a - b, b)
  }

  /** The quotient of positive numbers rounded up. */
  function Ceil(a: int, b: int): nat
    requires b > 0
  {
    Floor(a + b - 1, b)
  }

  lemma {:induction false} FloorIsQuotient(a: int, b: int)
    requires a >= 0 && b > 0
    ensures Floor(a, b) * b <= a < Floor(a, b) * b + b
    ensures Floor(a, b) == a / b
    decreases a
  {
    if a >= b {
      FloorIsQuotient(a - b, b);
      assert Floor(a, b) * b == Floor(a - b, b) * b + b;
    }
    DivUnique(a, Floor(a, b), a - Floor(a, b) * b, b);
  }

  lemma DivUnique(x: int, q: int, r: int, w: int)
    requires w >= 1 && x == q * w + r && 0 <= r < w
    ensures x / w == q
  {
    var d := x / w - q;
    assert d * w == r - x % w;
    assert d >= 1 ==> d * w >= w;
    assert d <= -1 ==> d * w <= -w;
  }

  lemma ProductOrder(a: int, b: int, w: int)
    requires w > 0
    ensures a * w < b * w <==> a < b
  {
    if a < b { assert (b - a) * w > 0; } else { assert (a - b) * w >= 0; }
  }

  /** Taking away whole multiples takes them off the quotient. */
  lemma {:induction false} FloorMinus(x: int, p: nat, w: int)
    requires w > 0 && p <= Floor(x, w)
    ensures Floor(x - p * w, w) == Floor(x, w) - p
    decreases p
  {
    if p > 0 {
      FloorMinus(x - w, p - 1, w);
      assert x - w - (p - 1) * w == x - p * w;
    }
  }

  function Refilled(c: Config, s: KeyState, now: int): int {
    match s
    case Bucket(tokens, last) => Min(c.limit * c.windowMs, tokens + (now - last) * c.limit)
    case _ => c.limit * c.windowMs
  }

  function CheckBucket(c: Config, s: KeyState, now: int): (KeyState, Decision)
    requires Proper(c)
  {
    var t := Refilled(c, s, now);
    if t >= c.windowMs then (Bucket(t - c.windowMs, now), Allowed(Floor(t - c.windowMs, c.windowMs)))
    else (Bucket(t, now), Denied(Ceil(c.windowMs - t, c.limit)))
  }

  function CurrentWindow(c: Config, s: KeyState, now: int): (w: KeyState)
    ensures w.Window?
  {
    if s.Window? && now - s.windowStart < c.windowMs then s else Window(0, now)
  }

  function CheckWindow(c: Config, s: KeyState, now: int): (KeyState, Decision) {
    var w := CurrentWindow(c, s, now);
    if w.count < c.limit then (Window(w.count + 1, w.windowStart), Allowed(c.limit - w.count - 1))
    else (w, Denied(c.windowMs - (now - w.windowStart)))
  }

  /** The timestamps still inside the window that ends at `now`. */
  function Recent(timestamps: seq<int>, now: int, windowMs: int): seq<int> {
    if timestamps == [] then []
    else
      var r, t := Recent(timestamps[..|timestamps| - 1], now, windowMs), timestamps[|timestamps| - 1];
      if now - t < windowMs then r + [t] else r
  }

  function CheckLog(c: Config, s: KeyState, now: int): (KeyState, Decision)
    requires Proper(c)
  {
    var r := if s.Log? then Recent(s.timestamps, now, c.windowMs) else [];
    if |r| < c.limit then (Log(r + [now]), Allowed(c.limit - |r| - 1))
    else (Log(r), Denied(c.windowMs - (now - r[0])))
  }

  /** The counter moved forward to the aligned window that holds `now`. */
  function Rolled(c: Config, s: KeyState, now: int): (k: KeyState)
    requires Proper(c)
    ensures k.Counter?
  {
    if !s.Counter? then Counter(0, 0, now)
    else if now - s.start < c.windowMs then s
    else
      var passed := Floor(now - s.start, c.windowMs);
      Counter(0, if passed == 1 then s.current else 0, s.start + passed * c.windowMs)
  }

  /** The estimated count, times `windowMs`. */
  function Estimate(c: Config, k: KeyState, now: int): int
    requires k.Counter?
  {
    k.previous * (c.windowMs - (now - k.start)) + k.current * c.windowMs
  }

  function CheckCounter(c: Config, s: KeyState, now: int): (KeyState, Decision)
    requires Proper(c)
  {
    var k := Rolled(c, s, now);
    var estimate := Estimate(c, k, now);
    if estimate < c.limit * c.windowMs then
      (Counter(k.current + 1, k.previous, k.start),
       Allowed(Floor(c.limit * c.windowMs - estimate - c.windowMs, c.windowMs)))
    else (k, Denied(c.windowMs - (now - k.start)))
  }

  function Check(c: Config, s: KeyState, now: int): (KeyState, Decision)
    requires Proper(c)
  {
    match c.algorithm
    case TokenBucket => CheckBucket(c, s, now)
    case FixedWindow => CheckWindow(c, s, now)
    case SlidingWindowLog => CheckLog(c, s, now)
    case SlidingWindowCounter => CheckCounter(c, s, now)
  }

  // ---- Runs: the calls made for one key, in time order ------------------------

  ghost predicate Sorted(times: seq<int>) {
    forall i, j :: 0 <= i < j < |times| ==> times[i] <= times[j]
  }

  /** A per-key limiter: what one call does to the state and how it is decided. */
  type Limiting = (KeyState, int) -> (KeyState, Decision)

  function StateAfter(step: Limiting, times: seq<int>): KeyState {
    if times == [] then Unseen else step(StateAfter(step, times[..|times| - 1]), times[|times| - 1]).0
  }

  /** The times of the admitted calls. */
  function Admitted(step: Limiting, times: seq<int>): seq<int> {
    if times == [] then []
    else
      var rest, now := times[..|times| - 1], times[|times| - 1];
      if step(StateAfter(step, rest), now).1.Allowed? then Admitted(step, rest) + [now] else Admitted(step, rest)
  }

  function Checking(c: Config): Limiting
    requires Proper(c)
  {
    (s, now) => Check(c, s, now)
  }

  function After(c: Config, times: seq<int>): KeyState
    requires Proper(c)
  {
    StateAfter(Checking(c), times)
  }

  function Admissions(c: Config, times: seq<int>): seq<int>
    requires Proper(c)
  {
    Admitted(Checking(c), times)
  }

  /** The decision on call `i`. */
  function Decide(c: Config, times: seq<int>, i: nat): Decision
    requires Proper(c) && i < |times|
  {
    Check(c, After(c, times[..i]), times[i]).1
  }

  /** How many of `s` lie in the half-open interval from `a` to `b`. */
  function Count(s: seq<int>, a: int, b: int): nat {
    if s == [] then 0
    else Count(s[..|s| - 1], a, b) + if a <= s[|s| - 1] < b then 1 else 0
  }

  lemma CountAppend(s: seq<int>, x: int, a: int, b: int)
    ensures Count(s + [x], a, b) == Count(s, a, b) + if a <= x < b then 1 else 0
  {
    assert (s + [x])[..|s|] == s;
  }

  lemma {:induction false} CountSplit(s: seq<int>, a: int, b: int, m: int)
    requires a <= m <= b
    ensures Count(s, a, b) == Count(s, a, m) + Count(s, m, b)
  {
    if s != [] { CountSplit(s[..|s| - 1], a, b, m); }
  }

  lemma {:induction false} CountEmpty(s: seq<int>, a: int, b: int)
    requires forall i :: 0 <= i < |s| ==> s[i] < a || s[i] >= b
    ensures Count(s, a, b) == 0
  {
    if s != [] {
      CountEmpty(s[..|s| - 1], a, b);
    }
  }

  /** Beyond the last entry, where an interval ends makes no difference. */
  lemma CountBeyond(s: seq<int>, a: int, b: int, b': int)
    requires b <= b' && forall i :: 0 <= i < |s| ==> s[i] < b
    ensures Count(s, a, b) == Count(s, a, b')
  {
    if a <= b {
      CountSplit(s, a, b', b);
      CountEmpty(s, b, b');
    } else {
      CountEmpty(s, a, b);
      CountEmpty(s, a, b');
    }
  }

  lemma CountNarrower(s: seq<int>, a: int, b: int, a': int, b': int)
    requires a <= a' <= b' <= b
    ensures Count(s, a', b') <= Count(s, a, b)
  {
    CountSplit(s, a, b, a');
    CountSplit(s, a', b, b');
  }

  lemma {:induction false} AdmittedNotLater(step: Limiting, times: seq<int>, now: int)
    requires Sorted(times) && (times != [] ==> times[|times| - 1] <= now)
    ensures forall i :: 0 <= i < |Admitted(step, times)| ==> Admitted(step, times)[i] <= now
  {
    if times != [] { AdmittedNotLater(step, times[..|times| - 1], now); }
  }

  lemma AdmissionsNotLater(c: Config, times: seq<int>, now: int)
    requires Proper(c) && Sorted(times) && (times != [] ==> times[|times| - 1] <= now)
    ensures forall i :: 0 <= i < |Admissions(c, times)| ==> Admissions(c, times)[i] <= now
  {
    AdmittedNotLater(Checking(c), times, now);
  }

  /** The most that any call less than `length` after `a` finds admitted since `a`, itself included. */
  function Peak(step: Limiting, times: seq<int>, a: int, length: int): nat {
    if times == [] then 0
    else
      var t, before := times[|times| - 1], Peak(step, times[..|times| - 1], a, length);
      if t - length < a <= t then Max(before, Count(Admitted(step, times), a, t + 1)) else before
  }

  /** No interval admits more than its last call finds admitted. */
  lemma {:induction false} IntervalBound(step: Limiting, times: seq<int>, a: int, length: int)
    requires Sorted(times) && length >= 1
    ensures Count(Admitted(step, times), a, a + length) <= Peak(step, times, a, length)
  {
    if times != [] {
      var rest, t := times[..|times| - 1], times[|times| - 1];
      if t >= a + length {
        IntervalBound(step, rest, a, length);
        CountAppend(Admitted(step, rest), t, a, a + length);
      } else {
        AdmittedNotLater(step, times, t);
        if t < a { CountEmpty(Admitted(step, times), a, a + length); }
        else { CountBeyond(Admitted(step, times), a, t + 1, a + length); }
      }
    }
  }

  /** The same for the admissions of a configured limiter. */
  lemma BoundedByPeak(c: Config, times: seq<int>, a: int, bound: nat)
    requires Proper(c) && Sorted(times) && Peak(Checking(c), times, a, c.windowMs) <= bound
    ensures Count(Admissions(c, times), a, a + c.windowMs) <= bound
  {
    IntervalBound(Checking(c), times, a, c.windowMs);
  }

  // ---- Token bucket -----------------------------------------------------------

  /** One call spends what it admits out of what was there and what was refilled. */
  lemma BucketSpends(c: Config, s: KeyState, t: int)
    requires Proper(c) && (s.Bucket? ==> 0 <= s.tokens && s.lastRefill <= t)
    ensures
      var (s', d) := CheckBucket(c, s, t);
      var spent := if d.Allowed? then c.windowMs else 0;
      && s'.Bucket? && s'.lastRefill == t && 0 <= s'.tokens
      && s'.tokens + spent <= c.limit * c.windowMs
      && (s.Bucket? ==> s'.tokens + spent <= s.tokens + (t - s.lastRefill) * c.limit)
  {
    assert c.windowMs <= c.limit * c.windowMs;
    if s.Bucket? { assert 0 <= (t - s.lastRefill) * c.limit; }
  }

  lemma PotentialStep(c: Config, n: nat, admitted: bool, tokens: int, tokens': int, a: int, u: int, t: int)
    requires n * c.windowMs + tokens <= c.limit * c.windowMs + (u - a) * c.limit
    requires tokens' + (if admitted then c.windowMs else 0) <= tokens + (t - u) * c.limit
    ensures (n + if admitted then 1 else 0) * c.windowMs + tokens' <= c.limit * c.windowMs + (t - a) * c.limit
  {
    assert (t - a) * c.limit == (u - a) * c.limit + (t - u) * c.limit;
    assert (n + 1) * c.windowMs == n * c.windowMs + c.windowMs;
  }

  /** Admissions since `a`, in tokens, plus the tokens left: never more than a full bucket and the refill since `a`. */
  ghost predicate WithinPotential(c: Config, times: seq<int>, a: int)
    requires Proper(c)
  {
    times != [] &&
    var s, t := After(c, times), times[|times| - 1];
    && s.Bucket? && s.lastRefill == t && 0 <= s.tokens
    && Count(Admissions(c, times), a, t + 1) * c.windowMs + s.tokens <= c.limit * c.windowMs + (t - a) * c.limit
  }

  /** The first call at or after `a`. */
  lemma PotentialStarts(c: Config, times: seq<int>, a: int)
    requires Proper(c) && c.algorithm == TokenBucket && Sorted(times) && times != [] && a <= times[|times| - 1]
    requires
      var rest := times[..|times| - 1];
      rest == [] || (rest[|rest| - 1] < a && WithinPotential(c, rest, rest[|rest| - 1]))
    ensures WithinPotential(c, times, a)
  {
    var rest, t := times[..|times| - 1], times[|times| - 1];
    if rest != [] { AdmissionsNotLater(c, rest, rest[|rest| - 1]); }
    CountEmpty(Admissions(c, rest), a, t + 1);
    CountAppend(Admissions(c, rest), t, a, t + 1);
    BucketSpends(c, After(c, rest), t);
    FreshStep(c, t - a);
  }

  lemma PotentialContinues(c: Config, times: seq<int>, a: int)
    requires Proper(c) && c.algorithm == TokenBucket && Sorted(times) && |times| > 1 && a <= times[|times| - 2]
    requires WithinPotential(c, times[..|times| - 1], a)
    ensures WithinPotential(c, times, a)
  {
    var rest, u, t := times[..|times| - 1], times[|times| - 2], times[|times| - 1];
    var s, adm := After(c, rest), Admissions(c, rest);
    AdmissionsNotLater(c, rest, u);
    CountBeyond(adm, a, u + 1, t + 1);
    CountAppend(adm, t, a, t + 1);
    BucketSpends(c, s, t);
    PotentialStep(c, Count(adm, a, u + 1), Check(c, s, t).1.Allowed?, s.tokens, After(c, times).tokens, a, u, t);
  }

  lemma {:induction false} BucketPotential(c: Config, times: seq<int>, a: int)
    requires Proper(c) && c.algorithm == TokenBucket && Sorted(times) && times != [] && a <= times[|times| - 1]
    ensures WithinPotential(c, times, a)
  {
    var rest := times[..|times| - 1];
    if rest == [] {
      PotentialStarts(c, times, a);
    } else if rest[|rest| - 1] < a {
      BucketPotential(c, rest, rest[|rest| - 1]);
      PotentialStarts(c, times, a);
    } else {
      BucketPotential(c, rest, a);
      PotentialContinues(c, times, a);
    }
  }

  lemma FreshStep(c: Config, d: int)
    requires Proper(c) && d >= 0
    ensures 0 <= d * c.limit && 0 * c.windowMs == 0 && 1 * c.windowMs == c.windowMs
  {
  }

  /** In every closed interval of every run at most `limit` plus what the interval refills is admitted. */
  lemma {:induction false} TokenBucketBound(c: Config, times: seq<int>, a: int, b: int)
    requires Proper(c) && c.algorithm == TokenBucket && Sorted(times) && a <= b
    ensures Count(Admissions(c, times), a, b + 1) * c.windowMs <= c.limit * c.windowMs + (b - a) * c.limit
  {
    if times == [] {
      BoundIsPositive(c, b - a);
    } else {
      var rest, t := times[..|times| - 1], times[|times| - 1];
      AdmissionsNotLater(c, times, t);
      if b < t {
        TokenBucketBound(c, rest, a, b);
        CountAppend(Admissions(c, rest), t, a, b + 1);
      } else {
        CountBeyond(Admissions(c, times), a, t + 1, b + 1);
        if a <= t {
          BucketPotential(c, times, a);
          LongerRefill(c, t - a, b - a);
        } else {
          CountEmpty(Admissions(c, times), a, t + 1);
          BoundIsPositive(c, b - a);
        }
      }
    }
  }

  lemma BoundIsPositive(c: Config, d: int)
    requires Proper(c) && d >= 0
    ensures 0 * c.windowMs <= c.limit * c.windowMs + d * c.limit
  {
  }

  lemma LongerRefill(c: Config, d: int, e: int)
    requires Proper(c) && d <= e
    ensures d * c.limit <= e * c.limit
  {
  }

  // ---- Fixed window -----------------------------------------------------------

  /** The current window holds the last call, and its count is the number of calls it admitted. */
  lemma {:induction false} WindowCounts(c: Config, times: seq<int>)
    requires Proper(c) && c.algorithm == FixedWindow && Sorted(times) && times != []
    ensures var s, t := After(c, times), times[|times| - 1];
      && s.Window? && s.windowStart <= t < s.windowStart + c.windowMs
      && s.count == Count(Admissions(c, times), s.windowStart, t + 1) <= c.limit
  {
    var rest, t := times[..|times| - 1], times[|times| - 1];
    var s, adm := After(c, rest), Admissions(c, rest);
    var w := CurrentWindow(c, s, t);
    CountAppend(adm, t, w.windowStart, t + 1);
    if rest != [] {
      var u := rest[|rest| - 1];
      WindowCounts(c, rest);
      AdmissionsNotLater(c, rest, u);
      if w == s { CountBeyond(adm, s.windowStart, u + 1, t + 1); } else { CountEmpty(adm, t, t + 1); }
    }
  }

  /** In the `windowMs` before the current window at most `limit` calls were admitted. */
  lemma {:induction false} PreviousWindowCounts(c: Config, times: seq<int>, a: int)
    requires Proper(c) && c.algorithm == FixedWindow && Sorted(times) && times != []
    requires After(c, times).Window? && After(c, times).windowStart - c.windowMs < a <= After(c, times).windowStart
    ensures Count(Admissions(c, times), a, After(c, times).windowStart) <= c.limit
  {
    var rest, t := times[..|times| - 1], times[|times| - 1];
    var s, adm := After(c, rest), Admissions(c, rest);
    var w := CurrentWindow(c, s, t);
    CountAppend(adm, t, a, w.windowStart);
    if rest != [] {
      var u := rest[|rest| - 1];
      WindowCounts(c, rest);
      AdmissionsNotLater(c, rest, u);
      if w == s {
        PreviousWindowCounts(c, rest, a);
      } else {
        CountBeyond(adm, s.windowStart, u + 1, t);
        CountNarrower(adm, s.windowStart, t, a, t);
      }
    } else {
      CountEmpty(adm, a, w.windowStart);
    }
  }

  lemma WindowLastInterval(c: Config, times: seq<int>, a: int)
    requires Proper(c) && c.algorithm == FixedWindow && Sorted(times) && times != []
    requires times[|times| - 1] - c.windowMs < a <= times[|times| - 1]
    ensures Count(Admissions(c, times), a, times[|times| - 1] + 1) <= 2 * c.limit
  {
    var adm, t := Admissions(c, times), times[|times| - 1];
    WindowCounts(c, times);
    var start := After(c, times).windowStart;
    if a <= start {
      PreviousWindowCounts(c, times, a);
      CountSplit(adm, a, t + 1, start);
    } else {
      CountNarrower(adm, start, t + 1, a, t + 1);
    }
  }

  lemma {:induction false} PeakOfWindows(c: Config, times: seq<int>, a: int)
    requires Proper(c) && c.algorithm == FixedWindow && Sorted(times)
    ensures Peak(Checking(c), times, a, c.windowMs) <= 2 * c.limit
  {
    if times != [] {
      var t := times[|times| - 1];
      PeakOfWindows(c, times[..|times| - 1], a);
      if t - c.windowMs < a <= t { WindowLastInterval(c, times, a); }
    }
  }

  /** No half-open interval of length `windowMs` ever admits more than twice the limit. */
  lemma FixedWindowBound(c: Config, times: seq<int>, a: int)
    requires Proper(c) && c.algorithm == FixedWindow && Sorted(times)
    ensures Count(Admissions(c, times), a, a + c.windowMs) <= 2 * c.limit
  {
    PeakOfWindows(c, times, a);
    BoundedByPeak(c, times, a, 2 * c.limit);
  }

  // ---- Sliding window log -----------------------------------------------------

  lemma {:induction false} RecentAgain(ts: seq<int>, u: int, t: int, windowMs: int)
    requires u <= t
    ensures Recent(Recent(ts, u, windowMs), t, windowMs) == Recent(ts, t, windowMs)
  {
    if ts != [] {
      var rest, x := ts[..|ts| - 1], ts[|ts| - 1];
      RecentAgain(rest, u, t, windowMs);
      var r := Recent(rest, u, windowMs);
      assert (r + [x])[..|r|] == r;
    }
  }

  lemma {:induction false} RecentShrinks(ts: seq<int>, now: int, windowMs: int)
    ensures |Recent(ts, now, windowMs)| <= |ts|
  {
    if ts != [] { RecentShrinks(ts[..|ts| - 1], now, windowMs); }
  }

  lemma RecentAppend(ts: seq<int>, t: int, windowMs: int)
    requires windowMs >= 1
    ensures Recent(ts + [t], t, windowMs) == Recent(ts, t, windowMs) + [t]
  {
    assert (ts + [t])[..|ts|] == ts;
  }

  lemma {:induction false} RecentCounts(ts: seq<int>, t: int, windowMs: int)
    requires forall i :: 0 <= i < |ts| ==> ts[i] <= t
    ensures |Recent(ts, t, windowMs)| == Count(ts, t - windowMs + 1, t + 1)
  {
    if ts != [] { RecentCounts(ts[..|ts| - 1], t, windowMs); }
  }

  /** The log is exactly the admissions still inside the window of the last call. */
  lemma {:induction false} LogIsRecentAdmissions(c: Config, times: seq<int>)
    requires Proper(c) && c.algorithm == SlidingWindowLog && Sorted(times) && times != []
    ensures After(c, times) == Log(Recent(Admissions(c, times), times[|times| - 1], c.windowMs))
    ensures |After(c, times).timestamps| <= c.limit
  {
    var rest, t := times[..|times| - 1], times[|times| - 1];
    var adm := Admissions(c, rest);
    RecentAppend(adm, t, c.windowMs);
    if rest != [] {
      LogIsRecentAdmissions(c, rest);
      RecentAgain(adm, rest[|rest| - 1], t, c.windowMs);
      RecentShrinks(After(c, rest).timestamps, t, c.windowMs);
    }
  }

  lemma LastWindowIsLogged(c: Config, times: seq<int>, a: int)
    requires Proper(c) && c.algorithm == SlidingWindowLog && Sorted(times) && times != []
    requires times[|times| - 1] - c.windowMs < a <= times[|times| - 1]
    ensures Count(Admissions(c, times), a, times[|times| - 1] + 1) <= c.limit
  {
    var adm, t := Admissions(c, times), times[|times| - 1];
    AdmissionsNotLater(c, times, t);
    LogIsRecentAdmissions(c, times);
    RecentCounts(adm, t, c.windowMs);
    CountNarrower(adm, t - c.windowMs + 1, t + 1, a, t + 1);
  }

  lemma {:induction false} PeakOfLog(c: Config, times: seq<int>, a: int)
    requires Proper(c) && c.algorithm == SlidingWindowLog && Sorted(times)
    ensures Peak(Checking(c), times, a, c.windowMs) <= c.limit
  {
    if times != [] {
      var t := times[|times| - 1];
      PeakOfLog(c, times[..|times| - 1], a);
      if t - c.windowMs < a <= t { LastWindowIsLogged(c, times, a); }
    }
  }

  /** No half-open interval of length `windowMs` ever admits more than the limit. */
  lemma SlidingLogBound(c: Config, times: seq<int>, a: int)
    requires Proper(c) && c.algorithm == SlidingWindowLog && Sorted(times)
    ensures Count(Admissions(c, times), a, a + c.windowMs) <= c.limit
  {
    PeakOfLog(c, times, a);
    BoundedByPeak(c, times, a, c.limit);
  }

  // ---- Sliding window counter -------------------------------------------------

  /** The aligned window of the last call: its start, and what it and its predecessor admitted. */
  ghost predicate CounterCounts(c: Config, k: KeyState, adm: seq<int>, t: int) {
    && k.Counter? && k.start <= t < k.start + c.windowMs
    && k.current == Count(adm, k.start, t + 1) <= c.limit
    && k.previous == Count(adm, k.start - c.windowMs, k.start) <= c.limit
    && forall i :: 0 <= i < |adm| ==> adm[i] <= t
  }

  lemma RollingKeepsCounts(c: Config, k: KeyState, adm: seq<int>, u: int, t: int)
    requires Proper(c) && CounterCounts(c, k, adm, u) && u <= t
    ensures CounterCounts(c, Rolled(c, k, t), adm, t)
  {
    var r := Rolled(c, k, t);
    if r == k {
      CountBeyond(adm, k.start, u + 1, t + 1);
    } else {
      var passed := Floor(t - k.start, c.windowMs);
      RollLands(c, t - k.start);
      CountEmpty(adm, r.start, t + 1);
      if passed == 1 {
        CountBeyond(adm, k.start, u + 1, r.start);
      } else {
        assert k.start + c.windowMs <= r.start - c.windowMs;
        CountEmpty(adm, r.start - c.windowMs, r.start);
      }
    }
  }

  /** Rolling by whole windows lands in the aligned window that holds the time. */
  lemma RollLands(c: Config, elapsed: int)
    requires Proper(c) && elapsed >= c.windowMs
    ensures
      var passed := Floor(elapsed, c.windowMs);
      passed >= 1 && passed * c.windowMs <= elapsed < passed * c.windowMs + c.windowMs
      && (passed == 1 ==> passed * c.windowMs == c.windowMs)
      && (passed != 1 ==> passed * c.windowMs >= 2 * c.windowMs)
  {
    var passed := Floor(elapsed, c.windowMs);
    FloorIsQuotient(elapsed, c.windowMs);
    assert passed >= 2 ==> passed * c.windowMs == 2 * c.windowMs + (passed - 2) * c.windowMs;
  }

  lemma UnderLimit(c: Config, k: KeyState, y: int)
    requires Proper(c) && k.Counter? && 0 <= y < c.windowMs && k.previous >= 0
    requires k.previous * (c.windowMs - y) + k.current * c.windowMs < c.limit * c.windowMs
    ensures k.current < c.limit
    ensures (k.previous + k.current + 1) * c.windowMs < (c.limit + 1) * c.windowMs + k.previous * y
  {
    assert k.previous * (c.windowMs - y) == k.previous * c.windowMs - k.previous * y;
    assert 0 <= k.previous * (c.windowMs - y);
    assert (k.previous + k.current + 1) * c.windowMs == k.previous * c.windowMs + k.current * c.windowMs + c.windowMs;
    assert (c.limit + 1) * c.windowMs == c.limit * c.windowMs + c.windowMs;
    ProductOrder(k.current, c.limit, c.windowMs);
  }

  /** Admitting a call under the limit keeps the counts right. */
  lemma AdmittingKeepsCounts(c: Config, k: KeyState, adm: seq<int>, t: int)
    requires Proper(c) && CounterCounts(c, k, adm, t) && Estimate(c, k, t) < c.limit * c.windowMs
    ensures CounterCounts(c, Counter(k.current + 1, k.previous, k.start), adm + [t], t)
  {
    CountAppend(adm, t, k.start, t + 1);
    CountAppend(adm, t, k.start - c.windowMs, k.start);
    UnderLimit(c, k, t - k.start);
  }

  lemma FirstCounts(c: Config, t: int)
    requires Proper(c)
    ensures CounterCounts(c, Rolled(c, Unseen, t), [], t)
  {
  }

  lemma CheckingCounts(c: Config, s: KeyState, adm: seq<int>, t: int)
    requires Proper(c) && CounterCounts(c, Rolled(c, s, t), adm, t)
    ensures
      var (s', d) := CheckCounter(c, s, t);
      CounterCounts(c, s', if d.Allowed? then adm + [t] else adm, t)
  {
    var k := Rolled(c, s, t);
    if Estimate(c, k, t) < c.limit * c.windowMs { AdmittingKeepsCounts(c, k, adm, t); }
  }

  /** The counts of the current and the previous aligned window are what those windows admitted, within the limit. */
  lemma {:induction false} CounterInvariant(c: Config, times: seq<int>)
    requires Proper(c) && c.algorithm == SlidingWindowCounter && Sorted(times) && times != []
    ensures CounterCounts(c, After(c, times), Admissions(c, times), times[|times| - 1])
    decreases |times|, 0
  {
    var rest, t := times[..|times| - 1], times[|times| - 1];
    RolledCounts(c, rest, t);
    CheckingCounts(c, After(c, rest), Admissions(c, rest), t);
  }

  lemma {:induction false} RolledCounts(c: Config, times: seq<int>, t: int)
    requires Proper(c) && c.algorithm == SlidingWindowCounter && Sorted(times)
    requires times != [] ==> times[|times| - 1] <= t
    ensures CounterCounts(c, Rolled(c, After(c, times), t), Admissions(c, times), t)
    decreases |times|, 1
  {
    if times == [] {
      FirstCounts(c, t);
    } else {
      CounterInvariant(c, times);
      RollingKeepsCounts(c, After(c, times), Admissions(c, times), times[|times| - 1], t);
    }
  }

  /** In every run the weight given to the previous window stays above 0 and at most 1 (scaled by `windowMs`). */
  lemma CounterWeight(c: Config, times: seq<int>, t: int)
    requires Proper(c) && c.algorithm == SlidingWindowCounter && Sorted(times)
    requires times != [] ==> times[|times| - 1] <= t
    ensures 0 < c.windowMs - (t - Rolled(c, After(c, times), t).start) <= c.windowMs
  {
    RolledCounts(c, times, t);
  }

  lemma FineCount(c: Config, k: KeyState, adm: seq<int>, t: int, a: int)
    requires Proper(c) && CounterCounts(c, k, adm, t) && Estimate(c, k, t) < c.limit * c.windowMs
    requires t - c.windowMs < a <= t
    ensures Count(adm + [t], a, t + 1) * c.windowMs < (c.limit + 1) * c.windowMs + k.previous * (t - k.start)
  {
    UnderLimit(c, k, t - k.start);
    CountAppend(adm, t, a, t + 1);
    CountSplit(adm, k.start - c.windowMs, t + 1, k.start);
    CountNarrower(adm, k.start - c.windowMs, t + 1, a, t + 1);
    FewerIsLess(Count(adm, a, t + 1) + 1, k.previous + k.current + 1, c.windowMs);
  }

  /**
   * Any interval of length `windowMs` that ends with an admitted call, at offset `y` in its aligned
   * window, admits fewer than `limit + 1 + previous * y / windowMs` calls.
   */
  lemma SlidingCounterFineBound(c: Config, times: seq<int>, a: int)
    requires Proper(c) && c.algorithm == SlidingWindowCounter && Sorted(times) && times != []
    requires Decide(c, times, |times| - 1).Allowed?
    requires times[|times| - 1] - c.windowMs < a <= times[|times| - 1]
    ensures
      var k, t := After(c, times), times[|times| - 1];
      k.Counter? &&
      Count(Admissions(c, times), a, t + 1) * c.windowMs < (c.limit + 1) * c.windowMs + k.previous * (t - k.start)
  {
    var rest, t := times[..|times| - 1], times[|times| - 1];
    RolledCounts(c, rest, t);
    FineCount(c, Rolled(c, After(c, rest), t), Admissions(c, rest), t, a);
  }

  lemma FewerIsLess(m: int, n: int, w: int)
    requires m <= n && w >= 0
    ensures m * w <= n * w
  {
  }

  lemma CounterLastInterval(c: Config, times: seq<int>, a: int)
    requires Proper(c) && c.algorithm == SlidingWindowCounter && Sorted(times) && times != []
    requires times[|times| - 1] - c.windowMs < a <= times[|times| - 1]
    ensures Count(Admissions(c, times), a, times[|times| - 1] + 1) <= 2 * c.limit
  {
    var adm, t, k := Admissions(c, times), times[|times| - 1], After(c, times);
    CounterInvariant(c, times);
    CountSplit(adm, k.start - c.windowMs, t + 1, k.start);
    CountNarrower(adm, k.start - c.windowMs, t + 1, a, t + 1);
  }

  lemma {:induction false} PeakOfCounter(c: Config, times: seq<int>, a: int)
    requires Proper(c) && c.algorithm == SlidingWindowCounter && Sorted(times)
    ensures Peak(Checking(c), times, a, c.windowMs) <= 2 * c.limit
  {
    if times != [] {
      var t := times[|times| - 1];
      PeakOfCounter(c, times[..|times| - 1], a);
      if t - c.windowMs < a <= t { CounterLastInterval(c, times, a); }
    }
  }

  /** No half-open interval of length `windowMs` ever admits more than twice the limit. */
  lemma SlidingCounterBound(c: Config, times: seq<int>, a: int)
    requires Proper(c) && c.algorithm == SlidingWindowCounter && Sorted(times)
    ensures Count(Admissions(c, times), a, a + c.windowMs) <= 2 * c.limit
  {
    PeakOfCounter(c, times, a);
    BoundedByPeak(c, times, a, 2 * c.limit);
  }

  // ---- Rejected calls leave no trace ------------------------------------------

  lemma BucketForgets(c: Config, s: KeyState, t: int, now: int)
    requires Proper(c) && t <= now && CheckBucket(c, s, t).1.Denied?
    ensures Refilled(c, CheckBucket(c, s, t).0, now) == Refilled(c, s, now)
  {
    assert c.windowMs <= c.limit * c.windowMs;
    if s.Bucket? {
      assert (now - s.lastRefill) * c.limit == (t - s.lastRefill) * c.limit + (now - t) * c.limit;
      assert 0 <= (now - t) * c.limit;
    }
  }

  lemma WindowForgets(c: Config, s: KeyState, t: int, now: int)
    requires Proper(c) && CheckWindow(c, s, t).1.Denied?
    ensures CheckWindow(c, s, t).0 == s
  {
  }

  lemma LogForgets(c: Config, s: KeyState, t: int, now: int)
    requires Proper(c) && t <= now && CheckLog(c, s, t).1.Denied?
    ensures CheckLog(c, CheckLog(c, s, t).0, now) == CheckLog(c, s, now)
  {
    if s.Log? { RecentAgain(s.timestamps, t, now, c.windowMs); }
  }

  /** Rolling to `t` and then on to `now` is rolling to `now`. */
  lemma RollTwice(c: Config, s: KeyState, t: int, now: int)
    requires Proper(c) && s.Counter? && t <= now
    ensures Rolled(c, Rolled(c, s, t), now) == Rolled(c, s, now)
  {
    if t - s.start >= c.windowMs {
      RollAgain(t - s.start, now - s.start, c.windowMs);
    }
  }

  /** Whole windows counted in two goes are the whole windows counted at once. */
  lemma RollAgain(e: int, f: int, w: int)
    requires w > 0 && w <= e <= f
    ensures
      var p, q := Floor(e, w), Floor(f, w);
      && 1 <= p <= q && Floor(f - p * w, w) == q - p
      && p * w + (q - p) * w == q * w
      && (f - p * w < w <==> q == p)
  {
    var p, q := Floor(e, w), Floor(f, w);
    QuotientGrows(e, f, w);
    FloorMinus(f, p, w);
    SplitProduct(p, q, w);
    FloorIsQuotient(f, w);
    RestBelow(f - p * w, q - p, w);
  }

  lemma SplitProduct(p: int, q: int, w: int)
    ensures p * w + (q - p) * w == q * w
  {
  }

  lemma RestBelow(rest: int, n: int, w: int)
    requires w > 0 && n >= 0 && n * w <= rest < n * w + w
    ensures rest < w <==> n == 0
  {
    if n > 0 { assert n * w >= w; }
  }

  lemma {:induction false} QuotientGrows(e: int, f: int, w: int)
    requires w > 0 && e <= f
    ensures Floor(e, w) <= Floor(f, w)
    decreases f
  {
    if e >= w { QuotientGrows(e - w, f - w, w); }
  }

  lemma FirstCallCounts(c: Config, s: KeyState, t: int)
    requires Proper(c) && !s.Counter?
    ensures CheckCounter(c, s, t).1.Allowed?
  {
    assert Estimate(c, Counter(0, 0, t), t) == 0 < c.limit * c.windowMs;
  }

  lemma CounterForgets(c: Config, s: KeyState, t: int, now: int)
    requires Proper(c) && t <= now && CheckCounter(c, s, t).1.Denied?
    ensures CheckCounter(c, CheckCounter(c, s, t).0, now) == CheckCounter(c, s, now)
  {
    if s.Counter? { RollTwice(c, s, t, now); } else { FirstCallCounts(c, s, t); }
  }

  /** After a rejected call every later call sees what it would have seen without it. */
  lemma RejectionForgotten(c: Config, s: KeyState, t: int, now: int)
    requires Proper(c) && t <= now && Check(c, s, t).1.Denied?
    ensures Check(c, Check(c, s, t).0, now) == Check(c, s, now)
  {
    match c.algorithm
    case TokenBucket => BucketForgets(c, s, t, now);
    case FixedWindow => WindowForgets(c, s, t, now);
    case SlidingWindowLog => LogForgets(c, s, t, now);
    case SlidingWindowCounter => CounterForgets(c, s, t, now);
  }

  function Drop(times: seq<int>, i: nat): seq<int>
    requires i < |times|
  {
    times[..i] + times[i + 1..]
  }

  /** A limiter on which rejected calls have no effect beyond their own answer. */
  ghost predicate Forgetful(step: Limiting) {
    forall s, t, now :: t <= now && step(s, t).1.Denied? ==> step(step(s, t).0, now) == step(s, now)
  }

  lemma StateAfterAppend(step: Limiting, times: seq<int>, t: int)
    ensures StateAfter(step, times + [t]) == step(StateAfter(step, times), t).0
    ensures Admitted(step, times + [t]) ==
      if step(StateAfter(step, times), t).1.Allowed? then Admitted(step, times) + [t] else Admitted(step, times)
  {
    assert (times + [t])[..|times|] == times;
  }

  lemma DropSooner(times: seq<int>, i: nat)
    requires i < |times| - 1
    ensures Drop(times, i) == Drop(times[..|times| - 1], i) + [times[|times| - 1]]
    ensures times[..|times| - 1][..i] == times[..i]
  {
  }

  /** Right after a rejected call, and later, the next call is decided as if it had not been made. */
  lemma ForgottenNext(step: Limiting, times: seq<int>, i: nat, t: int)
    requires Forgetful(step) && Sorted(times) && i < |times| && times[|times| - 1] <= t
    requires step(StateAfter(step, times[..i]), times[i]).1.Denied?
    requires i < |times| - 1 ==> StateAfter(step, Drop(times, i)) == StateAfter(step, times)
    ensures step(StateAfter(step, Drop(times, i)), t) == step(StateAfter(step, times), t)
  {
    if i == |times| - 1 { assert Drop(times, i) == times[..i]; }
  }

  lemma {:induction false} ForgetfulRun(step: Limiting, times: seq<int>, i: nat)
    requires Forgetful(step) && Sorted(times) && i < |times|
    requires step(StateAfter(step, times[..i]), times[i]).1.Denied?
    ensures Admitted(step, Drop(times, i)) == Admitted(step, times)
    ensures i < |times| - 1 ==> StateAfter(step, Drop(times, i)) == StateAfter(step, times)
  {
    var rest, t := times[..|times| - 1], times[|times| - 1];
    if i == |times| - 1 {
      assert Drop(times, i) == rest && times[..i] == rest;
    } else {
      DropSooner(times, i);
      ForgetfulRun(step, rest, i);
      ForgottenNext(step, rest, i, t);
      StateAfterAppend(step, Drop(rest, i), t);
    }
  }

  /** Leaving a rejected call out of a run changes no other decision. */
  lemma RejectedPollLeavesNoTrace(c: Config, times: seq<int>, i: nat)
    requires Proper(c) && Sorted(times) && i < |times| && Decide(c, times, i).Denied?
    ensures Admissions(c, Drop(times, i)) == Admissions(c, times)
    ensures i < |times| - 1 ==> After(c, Drop(times, i)) == After(c, times)
  {
    var step := Checking(c);
    forall s, t, now | t <= now && step(s, t).1.Denied? ensures step(step(s, t).0, now) == step(s, now) {
      RejectionForgotten(c, s, t, now);
    }
    ForgetfulRun(step, times, i);
  }

  // ---- Retry hints ------------------------------------------------------------

  lemma TimesGrows(m: int, n: int, b: int)
    requires m <= n && b > 0
    ensures m * b <= n * b
  {
  }

  lemma CeilIsLeast(a: int, b: int, n: int)
    requires a > 0 && b > 0
    ensures n * b >= a <==> n >= Ceil(a, b)
  {
    var q := Ceil(a, b);
    FloorIsQuotient(a + b - 1, b);
    assert (q - 1) * b == q * b - b;
    if n >= q { TimesGrows(q, n, b); } else { TimesGrows(n, q - 1, b); }
  }

  lemma BucketHint(c: Config, s: KeyState, t: int, now: int)
    requires Proper(c) && t <= now && CheckBucket(c, s, t).1.Denied?
    ensures CheckBucket(c, CheckBucket(c, s, t).0, now).1.Allowed?
       <==> now >= t + CheckBucket(c, s, t).1.retryAfterMs
  {
    var tokens := Refilled(c, s, t);
    BucketAdmits(c, tokens, t, now);
    CeilIsLeast(c.windowMs - tokens, c.limit, now - t);
  }

  /** A full bucket always has a token, so only the refill since then decides. */
  lemma BucketAdmits(c: Config, tokens: int, t: int, now: int)
    requires Proper(c)
    ensures CheckBucket(c, Bucket(tokens, t), now).1.Allowed? <==> (now - t) * c.limit >= c.windowMs - tokens
  {
    TimesGrows(1, c.limit, c.windowMs);
  }

  lemma WindowHint(c: Config, s: KeyState, t: int, now: int)
    requires Proper(c) && t <= now && CheckWindow(c, s, t).1.Denied?
    ensures CheckWindow(c, CheckWindow(c, s, t).0, now).1.Allowed?
       <==> now >= t + CheckWindow(c, s, t).1.retryAfterMs
  {
  }

  lemma {:induction false} RecentSorted(ts: seq<int>, now: int, windowMs: int)
    requires Sorted(ts)
    ensures Sorted(Recent(ts, now, windowMs))
    ensures forall i :: 0 <= i < |Recent(ts, now, windowMs)| ==>
      ts != [] && Recent(ts, now, windowMs)[i] <= ts[|ts| - 1]
  {
    if ts != [] { RecentSorted(ts[..|ts| - 1], now, windowMs); }
  }

  /** A sorted log loses an entry exactly when its oldest one leaves the window. */
  lemma {:induction false} OldestLeavesFirst(ts: seq<int>, now: int, windowMs: int)
    requires Sorted(ts) && ts != []
    ensures |Recent(ts, now, windowMs)| < |ts| <==> now - ts[0] >= windowMs
  {
    if |ts| > 1 { OldestLeavesFirst(ts[..|ts| - 1], now, windowMs); }
  }

  lemma LogHint(c: Config, s: KeyState, t: int, now: int)
    requires Proper(c) && t <= now && CheckLog(c, s, t).1.Denied?
    requires s.Log? && Sorted(s.timestamps) && |s.timestamps| <= c.limit
    ensures CheckLog(c, CheckLog(c, s, t).0, now).1.Allowed?
       <==> now >= t + CheckLog(c, s, t).1.retryAfterMs
  {
    var r := Recent(s.timestamps, t, c.windowMs);
    RecentSorted(s.timestamps, t, c.windowMs);
    RecentShrinks(s.timestamps, t, c.windowMs);
    RecentShrinks(r, now, c.windowMs);
    OldestLeavesFirst(r, now, c.windowMs);
  }

  /** What the sliding log keeps: at most `limit` timestamps, in order, none later than the last call. */
  ghost predicate OrderlyLog(c: Config, s: KeyState, last: int) {
    && s.Log? && Sorted(s.timestamps) && |s.timestamps| <= c.limit
    && forall i :: 0 <= i < |s.timestamps| ==> s.timestamps[i] <= last
  }

  lemma LogStaysOrderly(c: Config, s: KeyState, last: int, t: int)
    requires Proper(c) && (s.Log? ==> OrderlyLog(c, s, last)) && last <= t
    ensures OrderlyLog(c, CheckLog(c, s, t).0, t)
  {
    if s.Log? { RecentSorted(s.timestamps, t, c.windowMs); RecentShrinks(s.timestamps, t, c.windowMs); }
  }

  lemma {:induction false} LogOrderly(c: Config, times: seq<int>)
    requires Proper(c) && c.algorithm == SlidingWindowLog && Sorted(times) && times != []
    ensures OrderlyLog(c, After(c, times), times[|times| - 1])
  {
    var rest, t := times[..|times| - 1], times[|times| - 1];
    assert After(c, times) == CheckLog(c, After(c, rest), t).0;
    if rest == [] {
      LogStaysOrderly(c, Unseen, t, t);
    } else {
      LogOrderly(c, rest);
      LogStaysOrderly(c, After(c, rest), rest[|rest| - 1], t);
    }
  }

  /**
   * For token bucket, fixed window and sliding log the hint is exact: until another call is
   * admitted, a call is admitted if and only if it comes at least `retryAfterMs` later.
   */
  lemma RetryHintExact(c: Config, times: seq<int>, t: int, now: int)
    requires Proper(c) && c.algorithm != SlidingWindowCounter && Sorted(times + [t]) && t <= now
    requires Check(c, After(c, times), t).1.Denied?
    ensures Check(c, After(c, times + [t]), now).1.Allowed?
       <==> now >= t + Check(c, After(c, times), t).1.retryAfterMs
  {
    var s := After(c, times);
    StateAfterAppend(Checking(c), times, t);
    match c.algorithm
    case TokenBucket => BucketHint(c, s, t, now);
    case FixedWindow => WindowHint(c, s, t, now);
    case SlidingWindowLog =>
      assert Sorted(times) by { assert forall i :: 0 <= i < |times| ==> times[i] == (times + [t])[i]; }
      if times != [] {
        LogOrderly(c, times);
        LogHint(c, s, t, now);
      }
  }

  /**
   * The sliding counter's hint is weaker: the call it points to is admitted exactly when, before the rejected call,
   * the aligned window holding it had not been filled.
   */
  lemma CounterHintExact(c: Config, s: KeyState, t: int)
    requires Proper(c) && CheckCounter(c, s, t).1.Denied?
    ensures
      var (k, d) := CheckCounter(c, s, t);
      CheckCounter(c, k, t + d.retryAfterMs).1.Allowed? <==> Rolled(c, s, t).current < c.limit
  {
    var k := Rolled(c, s, t);
    var now := t + CheckCounter(c, s, t).1.retryAfterMs;
    assert now - k.start == c.windowMs && Floor(c.windowMs, c.windowMs) == 1;
    var r := Rolled(c, k, now);
    assert r == Counter(0, k.current, k.start + c.windowMs);
    assert Estimate(c, r, now) == k.current * c.windowMs;
    ProductOrder(k.current, c.limit, c.windowMs);
  }

  /** A full window, reached by one call, in which waiting for the hinted time is not enough. */
  lemma CounterHintCanFail(c: Config, t: int)
    requires Proper(c) && c.limit == 1 && 0 <= t < c.windowMs
    ensures CheckCounter(c, Unseen, 0).0 == Counter(1, 0, 0)
    ensures CheckCounter(c, Counter(1, 0, 0), t) == (Counter(1, 0, 0), Denied(c.windowMs - t))
    ensures CheckCounter(c, Counter(1, 0, 0), t + (c.windowMs - t)).1.Denied?
  {
    FirstCallCounts(c, Unseen, 0);
    assert Estimate(c, Counter(1, 0, 0), t) == c.windowMs;
    CounterHintExact(c, Counter(1, 0, 0), t);
  }

  // ---- What `remaining` promises ----------------------------------------------

  lemma BucketRemaining(c: Config, s: KeyState, t: int)
    requires Proper(c) && CheckBucket(c, s, t).1.Allowed?
    ensures
      var (s', d) := CheckBucket(c, s, t);
      if d.remaining > 0 then CheckBucket(c, s', t).1 == Allowed(d.remaining - 1) else CheckBucket(c, s', t).1.Denied?
  {
    var left := CheckBucket(c, s, t).0.tokens;
    assert left <= c.limit * c.windowMs;
    assert Refilled(c, Bucket(left, t), t) == left;
  }

  lemma LogRemaining(c: Config, s: KeyState, t: int)
    requires Proper(c) && CheckLog(c, s, t).1.Allowed?
    ensures
      var (s', d) := CheckLog(c, s, t);
      if d.remaining > 0 then CheckLog(c, s', t).1 == Allowed(d.remaining - 1) else CheckLog(c, s', t).1.Denied?
  {
    var r := if s.Log? then Recent(s.timestamps, t, c.windowMs) else [];
    if s.Log? { RecentAgain(s.timestamps, t, t, c.windowMs); }
    RecentAppend(r, t, c.windowMs);
  }

  /** For all but the sliding counter, `remaining` counts exactly the further calls admitted at the same instant. */
  lemma RemainingExact(c: Config, s: KeyState, t: int)
    requires Proper(c) && c.algorithm != SlidingWindowCounter && Check(c, s, t).1.Allowed?
    ensures
      var (s', d) := Check(c, s, t);
      if d.remaining > 0 then Check(c, s', t).1 == Allowed(d.remaining - 1) else Check(c, s', t).1.Denied?
  {
    match c.algorithm
    case TokenBucket => BucketRemaining(c, s, t);
    case FixedWindow =>
    case SlidingWindowLog => LogRemaining(c, s, t);
  }

  lemma OneMoreCounted(c: Config, k: KeyState, t: int)
    requires k.Counter?
    ensures Estimate(c, Counter(k.current + 1, k.previous, k.start), t) == Estimate(c, k, t) + c.windowMs
    ensures (c.limit - 1) * c.windowMs == c.limit * c.windowMs - c.windowMs
  {
  }

  /**
   * The sliding counter's `remaining` counts down too, but one admissible call can come after it said 0: exactly when
   * the estimate has a fraction to spare. A second one never does.
   */
  lemma CounterRemainingExact(c: Config, s: KeyState, t: int)
    requires Proper(c) && CheckCounter(c, s, t).1.Allowed? && (s.Counter? ==> s.start <= t)
    ensures
      var (s', d) := CheckCounter(c, s, t);
      && (d.remaining > 0 ==> CheckCounter(c, s', t).1 == Allowed(d.remaining - 1))
      && (d.remaining == 0 ==>
            (CheckCounter(c, s', t).1.Allowed? <==> Estimate(c, Rolled(c, s, t), t) < (c.limit - 1) * c.windowMs))
      && (d.remaining == 0 && CheckCounter(c, s', t).1.Allowed? ==>
            CheckCounter(c, s', t).1.remaining == 0 && CheckCounter(c, CheckCounter(c, s', t).0, t).1.Denied?)
  {
    var k := Rolled(c, s, t);
    var k' := Counter(k.current + 1, k.previous, k.start);
    var k'' := Counter(k'.current + 1, k.previous, k.start);
    if s.Counter? && t - s.start >= c.windowMs { RollLands(c, t - s.start); }
    assert Rolled(c, k', t) == k' && Rolled(c, k'', t) == k'';
    OneMoreCounted(c, k, t);
    OneMoreCounted(c, k', t);
  }

  lemma ShortChecks(c: Config, t: int)
    requires c.algorithm == SlidingWindowCounter && c.limit == 2 && c.windowMs == 2
    ensures CheckCounter(c, Unseen, t).0 == Counter(1, 0, t)
    ensures CheckCounter(c, Counter(1, 0, t), t + 3) == (Counter(1, 1, t + 2), Allowed(0))
    ensures CheckCounter(c, Counter(1, 1, t + 2), t + 3).1.Allowed?
  {
    var elapsed, w := (t + 3) - t, c.windowMs;
    FloorIsQuotient(elapsed, w);
    DivUnique(elapsed, 1, 1, w);
    assert Rolled(c, Counter(1, 0, t), t + 3) == Counter(0, 1, t + 2);
  }

  /** With limit 2, a run whose last call is admitted although the one before it, at the same instant, reported 0. */
  lemma CounterRemainingCanFallShort(c: Config, t: int)
    requires c.algorithm == SlidingWindowCounter && c.limit == 2 && c.windowMs == 2
    ensures
      var two := [t] + [t + 3];
      Decide(c, two, 1) == Allowed(0) && Decide(c, two + [t + 3], 2).Allowed?
  {
    ShortChecks(c, t);
    assert [] + [t] == [t];
    AfterAppend(c, [], t);
    AfterAppend(c, [t], t + 3);
    AfterAppend(c, [t] + [t + 3], t + 3);
  }

  // ---- Exactly which calls are admitted ---------------------------------------

  /** The times of a run and of one call more. */
  ghost predicate InTime(times: seq<int>, t: int) {
    Sorted(times) && (times != [] ==> times[|times| - 1] <= t)
  }

  lemma LastInTime(times: seq<int>)
    requires Sorted(times) && times != []
    ensures InTime(times[..|times| - 1], times[|times| - 1])
  {
  }

  /** With one admission at `t` more, the interval from `a` to `t` would exceed a full bucket and its refill. */
  predicate Overdrawn(c: Config, adm: seq<int>, a: int, t: int) {
    (Count(adm, a, t + 1) + 1) * c.windowMs > c.limit * c.windowMs + (t - a) * c.limit
  }

  /** Everything admitted since `a` was taken out of a bucket that was full at `a` and has not been full again. */
  ghost predicate FullAt(c: Config, times: seq<int>, a: int)
    requires Proper(c)
  {
    times != [] &&
    var s, t := After(c, times), times[|times| - 1];
    && a <= t && s.Bucket? && s.lastRefill == t && s.tokens < c.limit * c.windowMs
    && Count(Admissions(c, times), a, t + 1) * c.windowMs + s.tokens >= c.limit * c.windowMs + (t - a) * c.limit
  }

  /** A call to a full bucket is admitted; any other is admitted if it finds a token, which it spends. */
  lemma BucketTakes(c: Config, s: KeyState, t: int)
    requires Proper(c)
    ensures
      var (s', d) := CheckBucket(c, s, t);
      && s'.Bucket? && s'.lastRefill == t && s'.tokens < c.limit * c.windowMs
      && (Refilled(c, s, t) == c.limit * c.windowMs ==> d.Allowed? && s'.tokens == c.limit * c.windowMs - c.windowMs)
      && (s.Bucket? && Refilled(c, s, t) < c.limit * c.windowMs ==>
            s'.tokens + (if d.Allowed? then c.windowMs else 0) == s.tokens + (t - s.lastRefill) * c.limit)
  {
    TimesGrows(1, c.limit, c.windowMs);
  }

  lemma AdmissionsAppend(c: Config, times: seq<int>, t: int, a: int)
    requires Proper(c) && a <= t
    ensures Count(Admissions(c, times + [t]), a, t + 1)
         == Count(Admissions(c, times), a, t + 1) + if Check(c, After(c, times), t).1.Allowed? then 1 else 0
  {
    StateAfterAppend(Checking(c), times, t);
    CountAppend(Admissions(c, times), t, a, t + 1);
  }

  lemma FullNow(c: Config, times: seq<int>, t: int)
    requires Proper(c) && c.algorithm == TokenBucket && InTime(times, t)
    requires Refilled(c, After(c, times), t) == c.limit * c.windowMs
    ensures FullAt(c, times + [t], t)
  {
    BucketTakes(c, After(c, times), t);
    AfterAppend(c, times, t);
    AdmissionsAppend(c, times, t, t);
    OneTokenTaken(c, Count(Admissions(c, times), t, t + 1), t - t);
  }

  lemma OneTokenTaken(c: Config, n: nat, d: int)
    requires Proper(c) && d == 0
    ensures (n + 1) * c.windowMs + (c.limit * c.windowMs - c.windowMs) >= c.limit * c.windowMs + d * c.limit
  {
    assert (n + 1) * c.windowMs == n * c.windowMs + c.windowMs;
  }

  lemma NotFullSince(c: Config, times: seq<int>, a: int, t: int)
    requires Proper(c) && c.algorithm == TokenBucket && InTime(times, t) && FullAt(c, times, a)
    requires Refilled(c, After(c, times), t) < c.limit * c.windowMs
    ensures FullAt(c, times + [t], a)
  {
    var u, s, adm := times[|times| - 1], After(c, times), Admissions(c, times);
    AdmissionsNotLater(c, times, u);
    CountBeyond(adm, a, u + 1, t + 1);
    BucketTakes(c, s, t);
    AfterAppend(c, times, t);
    AdmissionsAppend(c, times, t, a);
    PotentialKept(c, Count(adm, a, t + 1), Check(c, s, t).1.Allowed?, s.tokens, After(c, times + [t]).tokens, a, u, t);
  }

  lemma PotentialKept(c: Config, n: nat, admitted: bool, tokens: int, tokens': int, a: int, u: int, t: int)
    requires n * c.windowMs + tokens >= c.limit * c.windowMs + (u - a) * c.limit
    requires tokens' + (if admitted then c.windowMs else 0) == tokens + (t - u) * c.limit
    ensures (n + if admitted then 1 else 0) * c.windowMs + tokens' >= c.limit * c.windowMs + (t - a) * c.limit
  {
    assert (t - a) * c.limit == (u - a) * c.limit + (t - u) * c.limit;
    assert (n + 1) * c.windowMs == n * c.windowMs + c.windowMs;
  }

  lemma {:induction false} LastFull(c: Config, times: seq<int>) returns (a: int)
    requires Proper(c) && c.algorithm == TokenBucket && Sorted(times) && times != []
    ensures FullAt(c, times, a)
  {
    var rest, t := times[..|times| - 1], times[|times| - 1];
    assert times == rest + [t];
    LastInTime(times);
    if Refilled(c, After(c, rest), t) == c.limit * c.windowMs {
      a := t;
      FullNow(c, rest, t);
    } else {
      a := LastFull(c, rest);
      NotFullSince(c, rest, a, t);
    }
  }

  lemma DeniedIsOverdrawn(c: Config, times: seq<int>, t: int) returns (a: int)
    requires Proper(c) && c.algorithm == TokenBucket && InTime(times, t) && Check(c, After(c, times), t).1.Denied?
    ensures a <= t && Overdrawn(c, Admissions(c, times), a, t)
  {
    BucketIsShort(c, After(c, times), t);
    a := LastFull(c, times);
    var u, adm := times[|times| - 1], Admissions(c, times);
    AdmissionsNotLater(c, times, u);
    CountBeyond(adm, a, u + 1, t + 1);
    TooLittleLeft(c, Count(adm, a, t + 1), After(c, times).tokens, a, u, t);
  }

  lemma BucketIsShort(c: Config, s: KeyState, t: int)
    requires Proper(c) && CheckBucket(c, s, t).1.Denied?
    ensures s.Bucket? && s.tokens + (t - s.lastRefill) * c.limit < c.windowMs
  {
    TimesGrows(1, c.limit, c.windowMs);
  }

  lemma TooLittleLeft(c: Config, n: nat, tokens: int, a: int, u: int, t: int)
    requires n * c.windowMs + tokens >= c.limit * c.windowMs + (u - a) * c.limit
    requires tokens + (t - u) * c.limit < c.windowMs
    ensures (n + 1) * c.windowMs > c.limit * c.windowMs + (t - a) * c.limit
  {
    assert (t - a) * c.limit == (u - a) * c.limit + (t - u) * c.limit;
    assert (n + 1) * c.windowMs == n * c.windowMs + c.windowMs;
  }

  /**
   * The token bucket denies a call exactly when admitting it would break the bound of some interval that ends with
   * it: it admits as much as `TokenBucketBound` allows.
   */
  lemma BucketDeniesExactly(c: Config, times: seq<int>, t: int)
    requires Proper(c) && c.algorithm == TokenBucket && InTime(times, t)
    ensures Decide(c, times + [t], |times|).Denied?
       <==> exists a :: a <= t && Overdrawn(c, Admissions(c, times), a, t)
  {
    AfterAppend(c, times, t);
    if Check(c, After(c, times), t).1.Denied? {
      var a := DeniedIsOverdrawn(c, times, t);
    } else {
      StateAfterAppend(Checking(c), times, t);
      forall a | a <= t ensures !Overdrawn(c, Admissions(c, times), a, t) {
        TokenBucketBound(c, times + [t], a, t);
        CountAppend(Admissions(c, times), t, a, t + 1);
      }
    }
  }

  /** When the window holding a call at `t` was opened: by a call that found none less than `windowMs` old. */
  function OpenedAt(windowMs: int, times: seq<int>, t: int): int {
    if times == [] then t
    else
      var start := OpenedAt(windowMs, times[..|times| - 1], times[|times| - 1]);
      if t - start < windowMs then start else t
  }

  lemma {:induction false} WindowIsTheOpened(c: Config, times: seq<int>, t: int)
    requires Proper(c) && c.algorithm == FixedWindow
    ensures CurrentWindow(c, After(c, times), t).windowStart == OpenedAt(c.windowMs, times, t)
  {
    if times != [] {
      var rest, u := times[..|times| - 1], times[|times| - 1];
      WindowIsTheOpened(c, rest, u);
      assert After(c, times).Window?;
    }
  }

  lemma {:induction false} OpenedRecently(windowMs: int, times: seq<int>, t: int)
    requires windowMs >= 1 && InTime(times, t)
    ensures OpenedAt(windowMs, times, t) <= t < OpenedAt(windowMs, times, t) + windowMs
  {
    if times != [] {
      LastInTime(times);
      OpenedRecently(windowMs, times[..|times| - 1], times[|times| - 1]);
    }
  }

  /** A window is opened by one of the calls, less than `windowMs` ago. */
  lemma {:induction false} OpenedByACall(windowMs: int, times: seq<int>, t: int)
    requires windowMs >= 1 && InTime(times, t)
    ensures OpenedAt(windowMs, times, t) == t || OpenedAt(windowMs, times, t) in times
    ensures OpenedAt(windowMs, times, t) <= t < OpenedAt(windowMs, times, t) + windowMs
  {
    OpenedRecently(windowMs, times, t);
    if times != [] {
      LastInTime(times);
      OpenedByACall(windowMs, times[..|times| - 1], times[|times| - 1]);
    }
  }

  /** A fixed window denies a call exactly when the window open at that time has admitted `limit` calls already. */
  lemma WindowDeniesExactly(c: Config, times: seq<int>, t: int)
    requires Proper(c) && c.algorithm == FixedWindow && InTime(times, t)
    ensures Decide(c, times + [t], |times|).Denied?
       <==> Count(Admissions(c, times), OpenedAt(c.windowMs, times, t), t + 1) >= c.limit
  {
    AfterAppend(c, times, t);
    WindowIsTheOpened(c, times, t);
    CurrentCounts(c, times, t);
  }

  lemma CurrentCounts(c: Config, times: seq<int>, t: int)
    requires Proper(c) && c.algorithm == FixedWindow && InTime(times, t)
    ensures
      var w := CurrentWindow(c, After(c, times), t);
      w.count == Count(Admissions(c, times), w.windowStart, t + 1)
  {
    if times != [] {
      var u, adm, s := times[|times| - 1], Admissions(c, times), After(c, times);
      WindowCounts(c, times);
      AdmissionsNotLater(c, times, u);
      if t - s.windowStart < c.windowMs {
        CountBeyond(adm, s.windowStart, u + 1, t + 1);
      } else {
        CountEmpty(adm, t, t + 1);
      }
    }
  }

  function Logged(s: KeyState): seq<int> {
    if s.Log? then s.timestamps else []
  }

  lemma LoggedRecently(c: Config, times: seq<int>, t: int)
    requires Proper(c) && c.algorithm == SlidingWindowLog && InTime(times, t)
    ensures |Recent(Logged(After(c, times)), t, c.windowMs)| == Count(Admissions(c, times), t - c.windowMs + 1, t + 1)
  {
    if times != [] {
      var adm := Admissions(c, times);
      LogIsRecentAdmissions(c, times);
      RecentAgain(adm, times[|times| - 1], t, c.windowMs);
      AdmissionsNotLater(c, times, t);
      RecentCounts(adm, t, c.windowMs);
    }
  }

  /** The sliding log denies a call exactly when `limit` calls were admitted in the `windowMs` up to it. */
  lemma LogDeniesExactly(c: Config, times: seq<int>, t: int)
    requires Proper(c) && c.algorithm == SlidingWindowLog && InTime(times, t)
    ensures Decide(c, times + [t], |times|).Denied?
       <==> Count(Admissions(c, times), t - c.windowMs + 1, t + 1) >= c.limit
  {
    AfterAppend(c, times, t);
    LoggedRecently(c, times, t);
  }

  /** The start of the window that holds `t`, in the grid of windows laid from the first call on. */
  function AlignedStart(windowMs: int, first: int, t: int): int
    requires windowMs >= 1
  {
    first + Floor(t - first, windowMs) * windowMs
  }

  lemma AlignedRolls(w: int, first: int, u: int, t: int)
    requires w >= 1 && first <= u <= t
    ensures
      var start := AlignedStart(w, first, u);
      AlignedStart(w, first, t) == if t - start < w then start else start + Floor(t - start, w) * w
  {
    if u - first < w {
      assert AlignedStart(w, first, u) == first;
    } else {
      RollAgain(u - first, t - first, w);
    }
  }

  lemma {:induction false} RolledIsAligned(c: Config, times: seq<int>, t: int)
    requires Proper(c) && c.algorithm == SlidingWindowCounter && InTime(times, t)
    ensures Rolled(c, After(c, times), t).start == AlignedStart(c.windowMs, (times + [t])[0], t)
  {
    if times != [] {
      var rest, u := times[..|times| - 1], times[|times| - 1];
      RolledIsAligned(c, rest, u);
      assert (rest + [u])[0] == times[0] <= u;
      assert After(c, times).Counter? && After(c, times).start == AlignedStart(c.windowMs, times[0], u);
      AlignedRolls(c.windowMs, times[0], u, t);
    }
  }

  /**
   * The sliding counter denies a call exactly when the admissions in its aligned window, and those in the window
   * before weighted by the part of it less than `windowMs` ago, come to `limit`.
   */
  lemma CounterDeniesExactly(c: Config, times: seq<int>, t: int)
    requires Proper(c) && c.algorithm == SlidingWindowCounter && InTime(times, t)
    ensures
      var adm, start := Admissions(c, times), AlignedStart(c.windowMs, (times + [t])[0], t);
      Decide(c, times + [t], |times|).Denied?
      <==> Count(adm, start - c.windowMs, start) * (c.windowMs - (t - start)) + Count(adm, start, t + 1) * c.windowMs
             >= c.limit * c.windowMs
  {
    AfterAppend(c, times, t);
    RolledIsAligned(c, times, t);
    RolledCounts(c, times, t);
  }

  lemma {:induction false} AdmissionsAreFew(step: Limiting, times: seq<int>)
    ensures |Admitted(step, times)| <= |times|
  {
    if times != [] { AdmissionsAreFew(step, times[..|times| - 1]); }
  }

  lemma {:induction false} CountIsFew(s: seq<int>, a: int, b: int)
    ensures Count(s, a, b) <= |s|
  {
    if s != [] { CountIsFew(s[..|s| - 1], a, b); }
  }

  lemma FewAreNotOverdrawn(c: Config, n: nat, d: int)
    requires Proper(c) && n < c.limit && d >= 0
    ensures (n + 1) * c.windowMs <= c.limit * c.windowMs + d * c.limit
  {
    TimesGrows(n + 1, c.limit, c.windowMs);
    BoundIsPositive(c, d);
    assert 0 <= d * c.limit;
  }

  lemma FewWeighLittle(c: Config, n: nat, m: nat, y: int)
    requires Proper(c) && n + m < c.limit && 0 <= y < c.windowMs
    ensures n * (c.windowMs - y) + m * c.windowMs < c.limit * c.windowMs
  {
    assert n * (c.windowMs - y) == n * c.windowMs - n * y && 0 <= n * y;
    assert n * c.windowMs + m * c.windowMs == (n + m) * c.windowMs;
    ProductOrder(n + m, c.limit, c.windowMs);
  }

  lemma FirstFromBucket(c: Config, times: seq<int>, t: int)
    requires Proper(c) && c.algorithm == TokenBucket && InTime(times, t) && |Admissions(c, times)| < c.limit
    ensures Decide(c, times + [t], |times|).Allowed?
  {
    var adm := Admissions(c, times);
    BucketDeniesExactly(c, times, t);
    forall a | a <= t ensures !Overdrawn(c, adm, a, t) {
      CountIsFew(adm, a, t + 1);
      FewAreNotOverdrawn(c, Count(adm, a, t + 1), t - a);
    }
  }

  lemma FirstInCounter(c: Config, times: seq<int>, t: int)
    requires Proper(c) && c.algorithm == SlidingWindowCounter && InTime(times, t) && |Admissions(c, times)| < c.limit
    ensures Decide(c, times + [t], |times|).Allowed?
  {
    var adm, start := Admissions(c, times), AlignedStart(c.windowMs, (times + [t])[0], t);
    CounterDeniesExactly(c, times, t);
    RolledIsAligned(c, times, t);
    CounterWeight(c, times, t);
    CountSplit(adm, start - c.windowMs, t + 1, start);
    CountIsFew(adm, start - c.windowMs, t + 1);
    FewWeighLittle(c, Count(adm, start - c.windowMs, start), Count(adm, start, t + 1), t - start);
  }

  lemma FirstInWindow(c: Config, times: seq<int>, t: int)
    requires Proper(c) && c.algorithm == FixedWindow && InTime(times, t) && |Admissions(c, times)| < c.limit
    ensures Decide(c, times + [t], |times|).Allowed?
  {
    WindowDeniesExactly(c, times, t);
    CountIsFew(Admissions(c, times), OpenedAt(c.windowMs, times, t), t + 1);
  }

  lemma ShortLogAdmits(c: Config, s: KeyState, t: int)
    requires Proper(c) && |Recent(Logged(s), t, c.windowMs)| < c.limit
    ensures CheckLog(c, s, t).1.Allowed?
  {
  }

  lemma FirstInLog(c: Config, times: seq<int>, t: int)
    requires Proper(c) && c.algorithm == SlidingWindowLog && InTime(times, t) && |Admissions(c, times)| < c.limit
    ensures |Recent(Logged(After(c, times)), t, c.windowMs)| < c.limit
  {
    var adm, kept := Admissions(c, times), |Recent(Logged(After(c, times)), t, c.windowMs)|;
    assert kept <= |adm| by {
      LoggedRecently(c, times, t);
      CountIsFew(adm, t - c.windowMs + 1, t + 1);
    }
  }

  /** Under every algorithm a key's first `limit` calls are admitted, whenever they come. */
  lemma FirstCallsAdmitted(c: Config, times: seq<int>, t: int)
    requires Proper(c) && InTime(times, t) && |times| < c.limit
    ensures Decide(c, times + [t], |times|).Allowed?
  {
    AdmissionsAreFew(Checking(c), times);
    assert |Admissions(c, times)| <= |times|;
    match c.algorithm
    case TokenBucket => FirstFromBucket(c, times, t);
    case FixedWindow => FirstInWindow(c, times, t);
    case SlidingWindowLog =>
      AfterAppend(c, times, t);
      FirstInLog(c, times, t);
      ShortLogAdmits(c, After(c, times), t);
    case SlidingWindowCounter => FirstInCounter(c, times, t);
  }

  // ---- Many keys on one limiter -----------------------------------------------

  datatype Call = Call(key: string, at: int)

  function StateIn(states: map<string, KeyState>, key: string): KeyState {
    if key in states then states[key] else Unseen
  }

  /** What one call changes: the state of its own key. */
  function Checked(c: Config, states: map<string, KeyState>, call: Call): map<string, KeyState>
    requires Proper(c)
  {
    states[call.key := Check(c, StateIn(states, call.key), call.at).0]
  }

  function AfterTrace(c: Config, trace: seq<Call>): map<string, KeyState>
    requires Proper(c)
  {
    if trace == [] then map[] else Checked(c, AfterTrace(c, trace[..|trace| - 1]), trace[|trace| - 1])
  }

  /** The times of the calls made for one key. */
  function TimesOf(trace: seq<Call>, key: string): seq<int> {
    if trace == [] then []
    else
      var rest, last := TimesOf(trace[..|trace| - 1], key), trace[|trace| - 1];
      if last.key == key then rest + [last.at] else rest
  }

  lemma AfterAppend(c: Config, times: seq<int>, t: int)
    requires Proper(c)
    ensures After(c, times + [t]) == Check(c, After(c, times), t).0
    ensures Decide(c, times + [t], |times|) == Check(c, After(c, times), t).1
  {
    StateAfterAppend(Checking(c), times, t);
    assert (times + [t])[..|times|] == times;
  }

  /** However the calls for different keys are interleaved, each key's state is that of its own calls alone. */
  lemma {:induction false} KeysAreIndependent(c: Config, trace: seq<Call>, key: string)
    requires Proper(c)
    ensures StateIn(AfterTrace(c, trace), key) == After(c, TimesOf(trace, key))
  {
    if trace != [] {
      var rest, last := trace[..|trace| - 1], trace[|trace| - 1];
      KeysAreIndependent(c, rest, key);
      AfterAppend(c, TimesOf(rest, key), last.at);
    }
  }

  /** Each call is decided as it would be on a limiter that served its key only. */
  lemma DecidedByItsKey(c: Config, trace: seq<Call>, call: Call)
    requires Proper(c)
    ensures
      var times := TimesOf(trace, call.key);
      Check(c, StateIn(AfterTrace(c, trace), call.key), call.at).1 == Decide(c, times + [call.at], |times|)
  {
    KeysAreIndependent(c, trace, call.key);
    AfterAppend(c, TimesOf(trace, call.key), call.at);
  }

  // ---- The limiter object -----------------------------------------------------

  class Limiter {
    const config: Config
    var buckets: map<string, KeyState>
    var fixedWindows: map<string, KeyState>
    var slidingLogs: map<string, KeyState>
    var slidingCounters: map<string, KeyState>

    ghost predicate Valid()
      reads this
    {
      && Proper(config)
      && (forall k :: k in buckets ==> buckets[k].Bucket?)
      && (forall k :: k in fixedWindows ==> fixedWindows[k].Window?)
      && (forall k :: k in slidingLogs ==> slidingLogs[k].Log?)
      && (forall k :: k in slidingCounters ==> slidingCounters[k].Counter?)
    }

    /** What is remembered about each key under the algorithm in use. */
    function States(): map<string, KeyState>
      reads this
    {
      match config.algorithm
      case TokenBucket => buckets
      case FixedWindow => fixedWindows
      case SlidingWindowLog => slidingLogs
      case SlidingWindowCounter => slidingCounters
    }

    constructor (config: Config)
      requires Proper(config)
      ensures Valid() && this.config == config && States() == map[]
    {
      this.config := config;
      buckets, fixedWindows, slidingLogs, slidingCounters := map[], map[], map[], map[];
    }

    /** Decides on one call and changes only what is remembered about its key. */
    method CheckKey(key: string, now: int) returns (d: Decision)
      requires Valid()
      modifies this
      ensures Valid()
      ensures d == Check(config, StateIn(old(States()), key), now).1
      ensures States() == Checked(config, old(States()), Call(key, now))
    {
      match config.algorithm
      case TokenBucket => d := DoTokenBucket(key, now);
      case FixedWindow => d := DoFixedWindow(key, now);
      case SlidingWindowLog => d := DoSlidingWindowLog(key, now);
      case SlidingWindowCounter => d := DoSlidingWindowCounter(key, now);
    }

    method DoTokenBucket(key: string, now: int) returns (d: Decision)
      requires Valid()
      modifies this`buckets
      ensures Valid()
      ensures var s := if key in old(buckets) then old(buckets)[key] else Unseen;
        d == CheckBucket(config, s, now).1 && buckets == old(buckets)[key := CheckBucket(config, s, now).0]
    {
      var full := config.limit * config.windowMs;
      if key !in buckets { buckets := buckets[key := Bucket(full, now)]; }
      var elapsed := now - buckets[key].lastRefill;
      var tokens := Min(full, buckets[key].tokens + elapsed * config.limit);
      if tokens >= config.windowMs {
        tokens := tokens - config.windowMs;
        d := Allowed(Floor(tokens, config.windowMs));
      } else {
        d := Denied(Ceil(config.windowMs - tokens, config.limit));
      }
      buckets := buckets[key := Bucket(tokens, now)];
    }

    method DoFixedWindow(key: string, now: int) returns (d: Decision)
      requires Valid()
      modifies this`fixedWindows
      ensures Valid()
      ensures var s := if key in old(fixedWindows) then old(fixedWindows)[key] else Unseen;
        d == CheckWindow(config, s, now).1 && fixedWindows == old(fixedWindows)[key := CheckWindow(config, s, now).0]
    {
      if key !in fixedWindows || now - fixedWindows[key].windowStart >= config.windowMs {
        fixedWindows := fixedWindows[key := Window(0, now)];
      }
      var w := fixedWindows[key];
      if w.count < config.limit {
        fixedWindows := fixedWindows[key := Window(w.count + 1, w.windowStart)];
        return Allowed(config.limit - (w.count + 1));
      }
      d := Denied(config.windowMs - (now - w.windowStart));
    }

    method DoSlidingWindowLog(key: string, now: int) returns (d: Decision)
      requires Valid()
      modifies this`slidingLogs
      ensures Valid()
      ensures var s := if key in old(slidingLogs) then old(slidingLogs)[key] else Unseen;
        d == CheckLog(config, s, now).1 && slidingLogs == old(slidingLogs)[key := CheckLog(config, s, now).0]
    {
      var timestamps := if key in slidingLogs then slidingLogs[key].timestamps else [];
      timestamps := Recent(timestamps, now, config.windowMs);
      if |timestamps| < config.limit {
        timestamps := timestamps + [now];
        d := Allowed(config.limit - |timestamps|);
      } else {
        d := Denied(config.windowMs - (now - timestamps[0]));
      }
      slidingLogs := slidingLogs[key := Log(timestamps)];
    }

    method DoSlidingWindowCounter(key: string, now: int) returns (d: Decision)
      requires Valid()
      modifies this`slidingCounters
      ensures Valid()
      ensures var s := if key in old(slidingCounters) then old(slidingCounters)[key] else Unseen;
        && d == CheckCounter(config, s, now).1
        && slidingCounters == old(slidingCounters)[key := CheckCounter(config, s, now).0]
    {
      var k := if key in slidingCounters then slidingCounters[key] else Counter(0, 0, now);
      var elapsed := now - k.start;
      if elapsed >= config.windowMs {
        var passed := Floor(elapsed, config.windowMs);
        k := Counter(0, if passed == 1 then k.current else 0, k.start + passed * config.windowMs);
      }
      var estimate := k.previous * (config.windowMs - (now - k.start)) + k.current * config.windowMs;
      if estimate < config.limit * config.windowMs {
        d := Allowed(Floor(config.limit * config.windowMs - estimate - config.windowMs, config.windowMs));
        k := Counter(k.current + 1, k.previous, k.start);
      } else {
        d := Denied(config.windowMs - (now - k.start));
      }
      slidingCounters := slidingCounters[key := k];
    }
  }
}
