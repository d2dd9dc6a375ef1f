/** Which refill rates make the integer bucket an ideal one: exactly those that lose nothing when time is
    converted to milli-tokens and back. At every other rate some run from a new log is overpaid. */
module TokenRates {
  import opened Prelude
  import opened Arith
  import opened TokenBucket

  /** `n` calls at one instant. */
  function Same(t: Duration, n: nat): (r: seq<Duration>)
    ensures |r| == n
  {
    if n == 0 then [] else [t] + Same(t, n - 1)
  }

  /** The answers of a new log's bucket. */
  function FromFull(a: Allowance, start: Duration, times: seq<Duration>): (r: seq<bool>)
    ensures |r| == |times|
  {
    Answers(Bucket(a.Full(), start), a, times)
  }

  /** At this rate every run from a new bucket, of any burst, gets the ideal answers. */
  ghost predicate AnswersIdeally(rate: U32) {
    forall burst: U32, start: Duration, times: seq<Duration> ::
      FromFull(Allowance(burst, rate), start, times)
      == IdealAnswers(Ideal(burst * TOKEN, start), Allowance(burst, rate), times)
  }

  /** What is admitted from call `lo` to call `hi` is within a burst and the refill of the time in between. */
  ghost predicate Within(a: Allowance, start: Duration, times: seq<Duration>, lo: nat, hi: nat)
    requires lo <= hi < |times|
  {
    Admitted(FromFull(a, start, times)[lo..hi + 1]) * TOKEN
    <= Budget(a, Latest(start, times[..lo + 1]), Latest(start, times[..hi + 1]))
  }

  /** At this rate every window of every run from a new bucket is within the allowance. */
  ghost predicate StaysWithin(rate: U32) {
    forall burst: U32, start: Duration, times: seq<Duration>, lo: nat, hi: nat | lo <= hi < |times| ::
      Within(Allowance(burst, rate), start, times, lo, hi)
  }

  // ----- Emptying a new bucket ---------------------------------------------

  /** At the instant of the last refill nothing is earned. */
  lemma NothingEarnedAtOnce(m: nat, a: Allowance)
    requires m <= a.Full()
    ensures Refill(Bucket(m, 0), a, 0) == Bucket(m, 0)
  {
    EarnedUnsaturated(Bucket(m, 0), a.refillPerSec, 0);
    assert Earned(Bucket(m, 0), a.refillPerSec, 0) == 0;
  }

  lemma {:induction false} DrainAdmits(a: Allowance, j: nat, rest: seq<Duration>)
    requires j <= a.burst
    ensures Admitted(Answers(Bucket(1000 * j, 0), a, Same(0, j) + rest)) == j + Admitted(Answers(Bucket(0, 0), a, rest))
    decreases j
  {
    hide Refill, Answers, Admitted;
    if j == 0 {
      assert Same(0, 0) + rest == rest;
    } else {
      NothingEarnedAtOnce(1000 * j, a);
      AdmitFirst(Bucket(1000 * j, 0), a, 0, Same(0, j - 1) + rest);
      assert Same(0, j) + rest == [0] + (Same(0, j - 1) + rest);
      DrainAdmits(a, j - 1, rest);
    }
  }

  lemma AdmitFirst(b: Bucket, a: Allowance, t: Duration, rest: seq<Duration>)
    ensures var (b', ok) := Take(b, a, t);
            Admitted(Answers(b, a, [t] + rest)) == (if ok then 1 else 0) + Admitted(Answers(b', a, rest))
  {
    var (b', ok) := Take(b, a, t);
    assert ([t] + rest)[1..] == rest;
    assert Answers(b, a, [t] + rest) == [ok] + Answers(b', a, rest);
    assert ([ok] + Answers(b', a, rest))[1..] == Answers(b', a, rest);
  }

  lemma {:induction false} LatestAfterDrain(j: nat, rest: seq<Duration>)
    ensures Latest(0, Same(0, j) + rest) == Latest(0, rest)
    decreases j
  {
    if j == 0 {
      assert Same(0, 0) + rest == rest;
    } else {
      assert (Same(0, j) + rest)[0] == 0 && (Same(0, j) + rest)[1..] == Same(0, j - 1) + rest;
      LatestAfterDrain(j - 1, rest);
    }
  }

  // ----- Above one milli-token per nanosecond ------------------------------

  /** One nanosecond earns whole milli-tokens, but they are worth less than it: the mark stays. */
  lemma FastProbe(m: nat, a: Allowance)
    requires a.refillPerSec > MILLI && a.refillPerSec % MILLI != 0
    requires m + a.refillPerSec / MILLI < a.Full()
    ensures Refill(Bucket(m, 0), a, 1) == Bucket(m + a.refillPerSec / MILLI, 0)
  {
    var rate := a.refillPerSec;
    var e := rate / MILLI;
    EarnedUnsaturated(Bucket(m, 0), rate, 1);
    assert Earned(Bucket(m, 0), rate, 1) == e;
    assert 0 < e * MILLI < rate;
    DivUnique(e * MILLI, 0, e * MILLI, rate);
    assert Converted(Bucket(m, 0), rate, 1) == 0;
  }

  lemma FastTake(m: nat, a: Allowance) returns (left: U64)
    requires a.refillPerSec > MILLI && a.refillPerSec % MILLI != 0 && m + 4295 < a.Full()
    ensures var (b, ok) := Take(Bucket(m, 0), a, 1); b == Bucket(left, 0) && (!ok ==> m < left < 1000)
    ensures left <= m + 4294
  {
    var e := a.refillPerSec / MILLI;
    assert 1 <= e <= 4294;
    FastProbe(m, a);
    left := if m + e >= 1000 then m + e - 1000 else m + e;
  }

  /** So probing at one instant goes on minting, at least one milli-token a probe. */
  lemma {:induction false} FastProbesAdmit(a: Allowance, m: nat, k: nat)
    requires a.refillPerSec > MILLI && a.refillPerSec % MILLI != 0 && m + 4295 * k < a.Full()
    ensures 1000 * Admitted(Answers(Bucket(m, 0), a, Same(1, k))) >= Min(m, 999) + k - 999
    decreases k
  {
    hide Take, Answers, Admitted;
    if k > 0 {
      var left := FastTake(m, a);
      AdmitFirst(Bucket(m, 0), a, 1, Same(1, k - 1));
      FastProbesAdmit(a, left, k - 1);
    }
  }

  lemma {:induction false} LatestOfSame(start: nat, t: Duration, k: nat)
    requires start <= t
    ensures Latest(start, Same(t, k)) == if k == 0 then start else t
    decreases k
  {
    if k > 0 { LatestOfSame(t, t, k - 1); }
  }

  // ----- Below one milli-token per nanosecond ------------------------------

  /** Calls at one nanosecond past each multiple of `q` after `t`. */
  function Ladder(t: nat, q: nat, n: nat): (r: seq<Duration>)
    requires q <= MILLI && t + n * MILLI < 2_000_000_000_000
    ensures |r| == n
    decreases n
  {
    if n == 0 then [] else [t + q + 1] + Ladder(t + q, q, n - 1)
  }

  /** A milli-token is worth more than `q` nanoseconds, but only `q` are charged for it. */
  lemma SlowProbe(m: nat, t: nat, a: Allowance)
    requires 0 < a.refillPerSec < MILLI && MILLI % a.refillPerSec != 0
    requires m + 1 < a.Full() && t < 2_000_000_000_000
    ensures var q := MILLI / a.refillPerSec;
            q <= MILLI && Refill(Bucket(m, t), a, t + q + 1) == Bucket(m + 1, t + q)
  {
    var rate := a.refillPerSec;
    var q := MILLI / rate;
    DivBound(MILLI, rate, MILLI);
    SlowCredit(rate, q);
    var b := Bucket(m, t);
    EarnedUnsaturated(b, rate, t + q + 1);
    assert Earned(b, rate, t + q + 1) == 1;
    assert Converted(b, rate, t + q + 1) == q;
  }

  lemma SlowTake(m: nat, t: nat, a: Allowance)
    requires 0 < a.refillPerSec < MILLI && MILLI % a.refillPerSec != 0 && a.burst == 2
    requires m < 1000 && t < 2_000_000_000_000
    ensures var q := MILLI / a.refillPerSec;
            q <= MILLI && Take(Bucket(m, t), a, t + q + 1) == (Bucket((m + 1) % 1000, t + q), m + 1 == 1000)
  {
    SlowProbe(m, t, a);
  }

  lemma SlowCredit(rate: nat, q: nat)
    requires 0 < rate < MILLI && MILLI % rate != 0 && q == MILLI / rate
    ensures (q + 1) * rate / MILLI == 1 && q * rate == MILLI - MILLI % rate
  {
    assert MILLI == q * rate + MILLI % rate;
    assert (q + 1) * rate == q * rate + rate;
    DivUnique((q + 1) * rate, 1, (q + 1) * rate - MILLI, MILLI);
  }

  /** Two tokens of burst at an inexact rate whose milli-token is worth more than `q` nanoseconds. */
  predicate Slow(a: Allowance, q: nat) {
    0 < a.refillPerSec < MILLI && MILLI % a.refillPerSec != 0 && a.burst == 2 && q == MILLI / a.refillPerSec
  }

  lemma SlowFirst(a: Allowance, q: nat, m: nat, t: nat, rest: seq<Duration>)
    requires Slow(a, q) && m < 1000 && t < 2_000_000_000_000
    ensures q <= MILLI
    ensures Admitted(Answers(Bucket(m, t), a, [t + q + 1] + rest))
            == (m + 1) / 1000 + Admitted(Answers(Bucket((m + 1) % 1000, t + q), a, rest))
  {
    hide Answers, Admitted;
    SlowTake(m, t, a);
    AdmitFirst(Bucket(m, t), a, t + q + 1, rest);
  }

  lemma {:induction false} SlowProbesAdmit(a: Allowance, q: nat, m: nat, t: nat, n: nat)
    requires Slow(a, q) && q <= MILLI && m < 1000 && t + n * MILLI < 2_000_000_000_000
    ensures Admitted(Answers(Bucket(m, t), a, Ladder(t, q, n))) == (m + n) / 1000
    decreases n
  {
    if n > 0 {
      hide Answers, Admitted, Slow;
      SlowFirst(a, q, m, t, Ladder(t + q, q, n - 1));
      SlowProbesAdmit(a, q, (m + 1) % 1000, t + q, n - 1);
    }
  }

  lemma {:induction false} LatestOfLadder(start: nat, t: nat, q: nat, n: nat)
    requires q <= MILLI && t + n * MILLI < 2_000_000_000_000 && start <= t + 1
    ensures Latest(start, Ladder(t, q, n)) <= t + n * q + 1
    decreases n
  {
    if n > 0 {
      LatestOfLadder(t + q + 1, t + q, q, n - 1);
      assert n * q == q + (n - 1) * q;
    }
  }

  // ----- The overpaid run --------------------------------------------------

  /** A new bucket of this allowance, emptied at the origin and then probed at `probes`, is overpaid. */
  ghost predicate Overpaid(a: Allowance, probes: seq<Duration>) {
    (a.burst + Admitted(Answers(Bucket(0, 0), a, probes))) * TOKEN > Budget(a, 0, Latest(0, probes))
  }

  lemma FastOverpays(rate: U32, burst: U32, k: nat)
    requires rate > MILLI && rate % MILLI != 0 && burst == 26_000 && k == 5_999
    ensures Overpaid(Allowance(burst, rate), Same(1, k))
  {
    FastProbesAdmit(Allowance(burst, rate), 0, k);
    LatestOfSame(0, 1, k);
  }

  lemma SlowOverpays(rate: U32, burst: U32, n: nat) returns (probes: seq<Duration>)
    requires 0 < rate < MILLI && MILLI % rate != 0 && burst == 2 && n == 1_000_000
    ensures Overpaid(Allowance(burst, rate), probes)
  {
    var q := MILLI / rate;
    DivBound(MILLI, rate, MILLI);
    probes := Ladder(0, q, n);
    SlowProbesAdmit(Allowance(burst, rate), q, 0, 0, n);
    LatestOfLadder(0, 0, q, n);
    SlowRefill(rate, q, n, Latest(0, probes));
  }

  /** A million charges of `q` nanoseconds refill less than the thousand tokens minted for them. */
  lemma SlowRefill(rate: nat, q: nat, n: nat, last: nat)
    requires 0 < rate < MILLI && MILLI % rate != 0 && q == MILLI / rate
    requires n == 1_000_000 && last <= n * q + 1
    ensures rate * last < 1000 * TOKEN
  {
    SlowCredit(rate, q);
    MulMono(last, n * q + 1, rate);
    assert rate * (n * q + 1) == n * (q * rate) + rate;
  }

  /** Overpaid probes make a whole run from a new bucket exceed its allowance. */
  lemma OverpaidRunExceeds(a: Allowance, probes: seq<Duration>)
    requires a.burst > 0 && Overpaid(a, probes)
    ensures Exceeds(a, Same(0, a.burst) + probes)
  {
    var times := Same(0, a.burst) + probes;
    DrainAdmits(a, a.burst, probes);
    LatestAfterDrain(a.burst, probes);
    assert FromFull(a, 0, times)[0..|times|] == FromFull(a, 0, times);
    assert times[..|times|] == times && times[..1] == [0] && [0][1..] == [];
  }

  /** At every inexact rate some run from a new bucket is admitted more than its allowance. */
  lemma InexactRateMintsTokens(rate: U32)
    requires !ExactRate(rate)
    ensures exists burst: U32, times: seq<Duration> :: Exceeds(Allowance(burst, rate), times)
  {
    var burst: U32, probes: seq<Duration>;
    if rate > MILLI {
      var k: nat;
      burst, k :| burst == 26_000 && k == 5_999;
      FastOverpays(rate, burst, k);
      probes := Same(1, k);
    } else {
      var n: nat;
      burst, n :| burst == 2 && n == 1_000_000;
      probes := SlowOverpays(rate, burst, n);
    }
    OverpaidRunExceeds(Allowance(burst, rate), probes);
  }

  /** The run as a whole is admitted more than its allowance. */
  ghost predicate Exceeds(a: Allowance, times: seq<Duration>) { times != [] && !Within(a, 0, times, 0, |times| - 1) }

  /** Ideal answers keep every window within the allowance. */
  lemma IdealStaysWithin(rate: U32)
    requires AnswersIdeally(rate)
    ensures StaysWithin(rate)
  {
    forall burst: U32, start: Duration, times: seq<Duration>, lo: nat, hi: nat | lo <= hi < |times|
      ensures Within(Allowance(burst, rate), start, times, lo, hi)
    {
      var a := Allowance(burst, rate);
      assert FromFull(a, start, times) == IdealAnswers(Ideal(burst * TOKEN, start), a, times);
      WindowFrom(Ideal(burst * TOKEN, start), a, times, lo, hi);
    }
  }

  /** The exact condition: every run from a new bucket answers as the ideal one, and every window is within its
      allowance, if and only if the rate is exact. */
  lemma IdealExactlyAtExactRates(rate: U32)
    ensures AnswersIdeally(rate) <==> ExactRate(rate)
    ensures StaysWithin(rate) <==> ExactRate(rate)
  {
    if ExactRate(rate) {
      forall burst: U32, start: Duration, times: seq<Duration>
        ensures FromFull(Allowance(burst, rate), start, times)
                == IdealAnswers(Ideal(burst * TOKEN, start), Allowance(burst, rate), times)
      {
        NewBucketRefinesIdeal(start, Allowance(burst, rate), times);
      }
      IdealStaysWithin(rate);
    } else {
      InexactRateMintsTokens(rate);
      if AnswersIdeally(rate) { IdealStaysWithin(rate); }
    }
  }
}
