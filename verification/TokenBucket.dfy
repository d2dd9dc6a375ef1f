/** The per-kind rate allowance of the audit log: an integer bucket of milli-tokens that carries the
    nanoseconds it has not yet converted, against an ideal bucket that never rounds. */
module TokenBucket {
  import opened Prelude
  import opened Arith

  /** One token, in the ideal bucket's unit (rate tokens per second earn `rate` of these per nanosecond). */
  const TOKEN: nat := 1_000_000_000
  /** One milli-token, in the same unit. */
  const MILLI: nat := 1_000_000

  /** `std::time::Duration` in nanoseconds: a 64-bit count of seconds plus a fraction. */
  type Duration = n: int | 0 <= n < 0x1_0000_0000_0000_0000 * 1_000_000_000

  datatype Bucket = Bucket(milliTokens: U64, lastRefill: Duration)

  datatype Allowance = Allowance(burst: U32, refillPerSec: U32) {
    function Full(): U64 { burst * 1000 }
  }

  /** Milli-tokens earned since the last refill, with the source's 128-bit saturating product. */
  function Earned(b: Bucket, rate: U32, now: Duration): nat {
    var elapsed := if now <= b.lastRefill then 0 else now - b.lastRefill;
    Min(U128_MAX, elapsed * rate) / MILLI
  }

  /** The refill mark moved only by the time actually converted into milli-tokens. */
  function Advance(b: Bucket, rate: U32, now: Duration): (t: Duration)
    requires rate > 0
    ensures b.lastRefill <= t <= Max(b.lastRefill, now)
  {
    var used := Converted(b, rate, now);
    b.lastRefill + Min(U64_MAX, used)
  }

  /** The nanoseconds worth the milli-tokens earned. */
  function Converted(b: Bucket, rate: U32, now: Duration): (used: nat)
    requires rate > 0
    ensures b.lastRefill + used <= Max(b.lastRefill, now)
  {
    ConvertedWithinElapsed(b, rate, now);
    DivNonNeg(Earned(b, rate, now) * MILLI, rate);
    Earned(b, rate, now) * MILLI / rate
  }

  lemma DivNonNeg(x: nat, d: nat)
    requires d > 0
    ensures x / d >= 0
  {}

  /** The bucket after crediting the time up to `now`. */
  function Refill(b: Bucket, a: Allowance, now: Duration): (r: Bucket)
    ensures r.milliTokens <= a.Full()
    ensures b.lastRefill <= r.lastRefill <= Max(b.lastRefill, now)
  {
    var earned := Earned(b, a.refillPerSec, now);
    var milli := Min(SatAddU64(Min(U64_MAX, earned), b.milliTokens), a.Full());
    if milli == a.Full() || a.refillPerSec == 0 then
      Bucket(milli, Max(b.lastRefill, now))
    else
      Bucket(milli, Advance(b, a.refillPerSec, now))
  }

  /** One `take_token` call: the new bucket and whether the event is admitted. */
  function Take(b: Bucket, a: Allowance, now: Duration): (Bucket, bool) {
    var r := Refill(b, a, now);
    if r.milliTokens >= 1000 then (r.(milliTokens := r.milliTokens - 1000), true) else (r, false)
  }

  /** The answers of a run of calls at the given clock samples. */
  function Answers(b: Bucket, a: Allowance, times: seq<Duration>): (r: seq<bool>)
    ensures |r| == |times|
    decreases times
  {
    if times == [] then [] else
      var (b', ok) := Take(b, a, times[0]);
      [ok] + Answers(b', a, times[1..])
  }

  /** Converting time to tokens and back never advances past the clock sample. */
  lemma ConvertedWithinElapsed(b: Bucket, rate: U32, now: Duration)
    requires rate > 0
    ensures b.lastRefill + Earned(b, rate, now) * MILLI / rate <= Max(b.lastRefill, now)
  {
    var elapsed := if now <= b.lastRefill then 0 else now - b.lastRefill;
    var e := Earned(b, rate, now);
    assert e * MILLI <= elapsed * rate;
    assert e * MILLI / rate <= elapsed by { DivBound(e * MILLI, rate, elapsed); }
  }

  // ----- The ideal bucket --------------------------------------------------

  /** A bucket that accrues continuously: `level` in units of 1e-9 token, `seen` the latest clock sample. */
  datatype Ideal = Ideal(level: nat, seen: nat)

  function IdealRefill(i: Ideal, a: Allowance, now: nat): Ideal {
    var seen := Max(i.seen, now);
    Ideal(Min(a.burst * TOKEN, i.level + a.refillPerSec * (seen - i.seen)), seen)
  }

  function IdealTake(i: Ideal, a: Allowance, now: nat): (Ideal, bool) {
    var r := IdealRefill(i, a, now);
    if r.level >= TOKEN then (r.(level := r.level - TOKEN), true) else (r, false)
  }

  function IdealAnswers(i: Ideal, a: Allowance, times: seq<Duration>): (r: seq<bool>)
    ensures |r| == |times|
    decreases times
  {
    if times == [] then [] else
      var (i', ok) := IdealTake(i, a, times[0]);
      [ok] + IdealAnswers(i', a, times[1..])
  }

  // ----- Exactness of the carry -------------------------------------------

  /** Rates for which a whole number of milli-tokens is always worth a whole number of nanoseconds. */
  predicate ExactRate(rate: U32) { rate == 0 || MILLI % rate == 0 || rate % MILLI == 0 }

  /** For an exact rate, the converted time is worth exactly the tokens it was converted into. */
  lemma CarryExact(rate: U32, elapsed: nat)
    requires rate > 0 && ExactRate(rate)
    ensures var e := elapsed * rate / MILLI; (e * MILLI / rate) * rate == e * MILLI
  {
    var e := elapsed * rate / MILLI;
    if MILLI % rate == 0 {
      var q := MILLI / rate;
      assert MILLI == q * rate;
      assert e * MILLI == (e * q) * rate;
      MulDiv(e * q, rate);
    } else {
      var q := rate / MILLI;
      assert rate == q * MILLI;
      assert elapsed * rate == (elapsed * q) * MILLI;
      MulDiv(elapsed * q, MILLI);
      assert e * MILLI == elapsed * rate;
      MulDiv(elapsed, rate);
    }
  }

  /** The exact rates are the only ones: at any other rate some elapsed time is converted inexactly. */
  lemma CarryExactOnlyThen(rate: U32)
    requires rate > 0
    ensures (forall elapsed: nat :: Lossless(rate, elapsed)) <==> ExactRate(rate)
  {
    if ExactRate(rate) {
      forall elapsed: nat ensures Lossless(rate, elapsed) {
        CarryExact(rate, elapsed);
      }
    } else if rate < MILLI {
      // The first probe that earns one milli-token.
      var elapsed := MILLI / rate + 1;
      assert MILLI < elapsed * rate < 2 * MILLI;
      assert elapsed * rate / MILLI == 1;
      assert !Lossless(rate, elapsed);
    } else {
      // One nanosecond earns more than one milli-token, but not a whole number of them.
      var e := rate / MILLI;
      assert 1 * rate / MILLI == e && e * MILLI < rate;
      assert e * MILLI / rate == 0 by { DivUnique(e * MILLI, 0, e * MILLI, rate); }
      assert !Lossless(rate, 1);
    }
  }

  predicate Lossless(rate: U32, elapsed: nat)
    requires rate > 0
  {
    var e := elapsed * rate / MILLI;
    (e * MILLI / rate) * rate == e * MILLI
  }

  // ----- Refinement --------------------------------------------------------

  /** The integer bucket holds the ideal level: whole milli-tokens plus unconverted time. */
  ghost predicate Holds(b: Bucket, i: Ideal, a: Allowance) {
    && b.milliTokens <= a.Full()
    && b.lastRefill <= i.seen
    && i.level == b.milliTokens * MILLI + a.refillPerSec * (i.seen - b.lastRefill)
    && a.refillPerSec * (i.seen - b.lastRefill) < MILLI
    && (b.milliTokens == a.Full() ==> b.lastRefill == i.seen || a.refillPerSec == 0)
  }

  lemma EarnedUnsaturated(b: Bucket, rate: U32, now: Duration)
    ensures var elapsed := if now <= b.lastRefill then 0 else now - b.lastRefill;
            Earned(b, rate, now) == elapsed * rate / MILLI
  {
    var elapsed := if now <= b.lastRefill then 0 else now - b.lastRefill;
    MulMono(rate, U32_MAX, elapsed);
    assert elapsed * rate == rate * elapsed <= U32_MAX * elapsed;
  }

  /** One call: the answer is the ideal one and the correspondence is kept, whatever the clock does. */
  lemma TakeRefinesIdeal(b: Bucket, i: Ideal, a: Allowance, now: Duration)
    requires ExactRate(a.refillPerSec) && Holds(b, i, a)
    ensures Take(b, a, now).1 == IdealTake(i, a, now).1
    ensures Holds(Take(b, a, now).0, IdealTake(i, a, now).0, a)
  {
    RefillRefinesIdeal(b, i, a, now);
    SpendRefinesIdeal(Refill(b, a, now), IdealRefill(i, a, now), a);
  }

  lemma SpendRefinesIdeal(b: Bucket, i: Ideal, a: Allowance)
    requires Holds(b, i, a)
    ensures b.milliTokens >= 1000 <==> i.level >= TOKEN
    ensures b.milliTokens >= 1000 ==>
              Holds(b.(milliTokens := b.milliTokens - 1000), i.(level := i.level - TOKEN), a)
  {}

  lemma RefillRefinesIdeal(b: Bucket, i: Ideal, a: Allowance, now: Duration)
    requires ExactRate(a.refillPerSec) && Holds(b, i, a)
    ensures Holds(Refill(b, a, now), IdealRefill(i, a, now), a)
  {
    if a.refillPerSec == 0 {
      assert Earned(b, 0, now) == 0;
    } else if now <= i.seen {
      StaleSampleEarnsNothing(b, i, a, now);
    } else {
      FreshSampleConverts(b, i, a, now);
    }
  }

  /** A clock sample at or before the latest one seen changes nothing. */
  lemma StaleSampleEarnsNothing(b: Bucket, i: Ideal, a: Allowance, now: Duration)
    requires Holds(b, i, a) && a.refillPerSec > 0 && now <= i.seen
    ensures Refill(b, a, now) == b && IdealRefill(i, a, now) == i
  {
    var rate := a.refillPerSec;
    var elapsed := if now <= b.lastRefill then 0 else now - b.lastRefill;
    MulMono(elapsed, i.seen - b.lastRefill, rate);
    EarnedUnsaturated(b, rate, now);
    assert Earned(b, rate, now) == 0;
    LevelWithinCap(b, i, a);
  }

  lemma LevelWithinCap(b: Bucket, i: Ideal, a: Allowance)
    requires Holds(b, i, a)
    ensures i.level <= a.burst * TOKEN
  {}

  lemma FreshSampleConverts(b: Bucket, i: Ideal, a: Allowance, now: Duration)
    requires ExactRate(a.refillPerSec) && Holds(b, i, a) && a.refillPerSec > 0 && i.seen < now
    ensures Holds(Refill(b, a, now), IdealRefill(i, a, now), a)
  {
    var credit := (now - b.lastRefill) * a.refillPerSec;
    EarnedUnsaturated(b, a.refillPerSec, now);
    SplitProduct(a.refillPerSec, now, i.seen, b.lastRefill);
    var level := Min(a.burst * TOKEN, b.milliTokens * MILLI + credit);
    assert IdealRefill(i, a, now) == Ideal(level, now);
    if b.milliTokens + credit / MILLI < a.Full() {
      hide Refill, Earned;
      BelowCap(b.milliTokens, credit, a.burst);
      ConvertExactly(b, a, now, credit);
    } else {
      AtCap(b.milliTokens, credit, a.burst);
      FillsUp(b, a, now, credit);
    }
  }

  lemma FillsUp(b: Bucket, a: Allowance, now: Duration, credit: nat)
    requires a.refillPerSec > 0 && b.lastRefill <= now && credit == (now - b.lastRefill) * a.refillPerSec
    requires b.milliTokens + credit / MILLI >= a.Full()
    ensures Refill(b, a, now) == Bucket(a.Full(), now)
  {
    EarnedUnsaturated(b, a.refillPerSec, now);
    assert Earned(b, a.refillPerSec, now) == credit / MILLI;
    hide Earned;
  }

  /** Below the cap the bucket keeps the remainder of the credit as unconverted time. */
  lemma ConvertExactly(b: Bucket, a: Allowance, now: Duration, credit: nat)
    requires ExactRate(a.refillPerSec) && a.refillPerSec > 0 && b.lastRefill <= now
    requires credit == (now - b.lastRefill) * a.refillPerSec
    requires b.milliTokens + credit / MILLI < a.Full()
    ensures var r := Refill(b, a, now);
            && r.milliTokens == b.milliTokens + credit / MILLI
            && b.lastRefill <= r.lastRefill <= now
            && a.refillPerSec * (now - r.lastRefill) == credit % MILLI
  {
    var rate, e := a.refillPerSec, credit / MILLI;
    EarnedUnsaturated(b, rate, now);
    CarryExact(rate, now - b.lastRefill);
    var used := e * MILLI / rate;
    ConvertedWithinElapsed(b, rate, now);
    assert e < U64_MAX;
    SmallConversion(e, rate);
    assert Refill(b, a, now) == Bucket(b.milliTokens + e, b.lastRefill + used);
    SplitProduct(rate, now, b.lastRefill + used, b.lastRefill);
  }

  /** Less than a full bucket of milli-tokens is worth less than 2^64 nanoseconds. */
  lemma SmallConversion(e: nat, rate: nat)
    requires rate > 0 && e <= 1000 * U32_MAX
    ensures e * MILLI / rate <= U64_MAX
  {
    MulMono(1, rate, e * MILLI);
    DivBound(e * MILLI, rate, e * MILLI);
  }

  lemma SplitProduct(rate: int, hi: int, mid: int, lo: int)
    ensures rate * (hi - mid) + rate * (mid - lo) == rate * (hi - lo) == (hi - lo) * rate
  {}

  lemma BelowCap(milli: nat, credit: nat, burst: nat)
    requires milli + credit / MILLI < burst * 1000
    ensures milli * MILLI + credit < burst * TOKEN
    ensures milli * MILLI + credit == (milli + credit / MILLI) * MILLI + credit % MILLI
  {}

  lemma AtCap(milli: nat, credit: nat, burst: nat)
    requires milli + credit / MILLI >= burst * 1000
    ensures milli * MILLI + credit >= burst * TOKEN
  {}

  /** A whole run, whatever its clock samples: every answer is the ideal bucket's. */
  lemma {:induction false} RunRefinesIdeal(b: Bucket, i: Ideal, a: Allowance, times: seq<Duration>)
    requires ExactRate(a.refillPerSec) && Holds(b, i, a)
    ensures Answers(b, a, times) == IdealAnswers(i, a, times)
    decreases times
  {
    if times != [] {
      TakeRefinesIdeal(b, i, a, times[0]);
      RunRefinesIdeal(Take(b, a, times[0]).0, IdealTake(i, a, times[0]).0, a, times[1..]);
    }
  }

  // ----- The allowance over a window --------------------------------------

  function Admitted(answers: seq<bool>): nat {
    if answers == [] then 0 else (if answers[0] then 1 else 0) + Admitted(answers[1..])
  }

  /** The latest clock sample seen. */
  function Latest(start: nat, times: seq<Duration>): (t: nat)
    ensures start <= t
    decreases times
  {
    if times == [] then start else Latest(Max(start, times[0]), times[1..])
  }

  /** What the clock's advance from `t0` to `t1` allows, on top of a full burst. */
  function Budget(a: Allowance, t0: nat, t1: nat): int {
    a.burst * TOKEN + a.refillPerSec * (t1 - t0)
  }

  lemma {:induction false} IdealSpends(i: Ideal, a: Allowance, times: seq<Duration>)
    ensures Admitted(IdealAnswers(i, a, times)) * TOKEN
            <= i.level + a.refillPerSec * (Latest(i.seen, times) - i.seen)
    decreases times
  {
    if times != [] {
      var (i', ok) := IdealTake(i, a, times[0]);
      IdealSpends(i', a, times[1..]);
      var rate, t := a.refillPerSec, Latest(i.seen, times);
      assert rate * (t - i'.seen) + rate * (i'.seen - i.seen) == rate * (t - i.seen);
      assert IdealAnswers(i, a, times)[1..] == IdealAnswers(i', a, times[1..]);
    }
  }

  lemma {:induction false} WindowFrom(i: Ideal, a: Allowance, times: seq<Duration>, lo: nat, hi: nat)
    requires lo <= hi < |times|
    ensures Admitted(IdealAnswers(i, a, times)[lo..hi + 1]) * TOKEN
            <= Budget(a, Latest(i.seen, times[..lo + 1]), Latest(i.seen, times[..hi + 1]))
    decreases lo
  {
    if lo == 0 {
      WindowAtStart(i, a, times, hi);
    } else {
      var (i', ok) := IdealTake(i, a, times[0]);
      LatestFirst(i.seen, times, lo);
      LatestFirst(i.seen, times, hi);
      var rest := IdealAnswers(i', a, times[1..]);
      assert IdealAnswers(i, a, times) == [ok] + rest;
      SliceTail(ok, rest, lo, hi);
      WindowFrom(i', a, times[1..], lo - 1, hi - 1);
    }
  }

  lemma SliceTail(ok: bool, rest: seq<bool>, lo: nat, hi: nat)
    requires 0 < lo <= hi <= |rest|
    ensures ([ok] + rest)[lo..hi + 1] == rest[lo - 1..hi]
  {}

  lemma LatestFirst(start: nat, times: seq<Duration>, n: nat)
    requires n < |times|
    ensures Latest(start, times[..n + 1]) == Latest(Max(start, times[0]), times[1..][..n])
  {
    assert times[..n + 1][1..] == times[1..][..n];
  }

  /** A window that begins with the first call: a full burst at most, then what is earned. */
  lemma WindowAtStart(i: Ideal, a: Allowance, times: seq<Duration>, hi: nat)
    requires hi < |times|
    ensures Admitted(IdealAnswers(i, a, times)[0..hi + 1]) * TOKEN
            <= Budget(a, Latest(i.seen, times[..1]), Latest(i.seen, times[..hi + 1]))
  {
    var (i', ok) := IdealTake(i, a, times[0]);
    var rest := IdealAnswers(i', a, times[1..]);
    LatestFirst(i.seen, times, 0);
    LatestFirst(i.seen, times, hi);
    IdealPrefix(i', a, times[1..], hi);
    IdealSpends(i', a, times[1..][..hi]);
    var window := IdealAnswers(i, a, times)[0..hi + 1];
    assert window[0] == ok && window[1..] == rest[..hi];
    assert Admitted(window) == (if ok then 1 else 0) + Admitted(rest[..hi]);
    hide Admitted, IdealAnswers;
  }

  lemma {:induction false} IdealPrefix(i: Ideal, a: Allowance, times: seq<Duration>, n: nat)
    requires n <= |times|
    ensures IdealAnswers(i, a, times)[..n] == IdealAnswers(i, a, times[..n])
    decreases n
  {
    if n > 0 {
      var i' := IdealTake(i, a, times[0]).0;
      IdealPrefix(i', a, times[1..], n - 1);
      assert times[..n][1..] == times[1..][..n - 1];
    }
  }

  /** From a new log every answer is the ideal bucket's, started full. */
  lemma NewBucketRefinesIdeal(start: Duration, a: Allowance, times: seq<Duration>)
    requires ExactRate(a.refillPerSec)
    ensures Answers(Bucket(a.Full(), start), a, times) == IdealAnswers(Ideal(a.burst * TOKEN, start), a, times)
  {
    FullHoldsCap(start, a);
    RunRefinesIdeal(Bucket(a.Full(), start), Ideal(a.burst * TOKEN, start), a, times);
  }

  lemma FullHoldsCap(start: Duration, a: Allowance)
    ensures Holds(Bucket(a.Full(), start), Ideal(a.burst * TOKEN, start), a)
  {}

  /** From a new log: between call `lo` and call `hi`, both included, one kind is admitted at most
      `burst` events plus `refillPerSec` for every second the clock advanced in between. */
  lemma WindowBound(start: Duration, a: Allowance, times: seq<Duration>, lo: nat, hi: nat)
    requires ExactRate(a.refillPerSec) && lo <= hi < |times|
    ensures Admitted(Answers(Bucket(a.Full(), start), a, times)[lo..hi + 1]) * TOKEN
            <= Budget(a, Latest(start, times[..lo + 1]), Latest(start, times[..hi + 1]))
  {
    var i := Ideal(a.burst * TOKEN, start);
    NewBucketRefinesIdeal(start, a, times);
    WindowFrom(i, a, times, lo, hi);
  }
}
