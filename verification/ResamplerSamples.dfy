/** What the resampler's samples are: on constant speed the input itself, on a straight line the line, and always
    between the two input samples around them. */
module ResamplerSamples {
  import opened Prelude
  import opened Arith
  import opened LinearResampler

  /** Sample of channel `c` in frame `f` of a stream of whole frames. */
  function At(xs: seq<real>, channels: nat, f: nat, c: nat): real
    requires f * channels + c < |xs|
  {
    MulNonNeg(f, channels);
    xs[f * channels + c]
  }

  /** The whole output of a new converter for `xs`. */
  function Output(s: Shape, xs: seq<real>): seq<real>
    requires s.Valid()
  {
    s.Chunk([], xs)
  }

  lemma {:induction false} EmitAt(s: Shape, xs: seq<real>, hi: nat, k: nat, c: nat)
    requires s.Valid() && k < hi && c < s.channels
    ensures |s.Emit(xs, 0, hi)| == hi * s.channels && k * s.channels + c < hi * s.channels
    ensures At(s.Emit(xs, 0, hi), s.channels, k, c) == s.OutFrame(xs, k)[c]
    decreases hi
  {
    EmitLength(s, xs, 0, hi);
    MulNonNeg(k, s.channels);
    MulMono(k + 1, hi, s.channels);
    MulDist(k, 1, s.channels);
    var n := (hi - 1) * s.channels;
    EmitLength(s, xs, 0, hi - 1);
    MulDist(hi, 1, s.channels);
    assert s.Emit(xs, 0, hi) == s.Emit(xs, 0, hi - 1) + s.OutFrame(xs, hi - 1);
    if k < hi - 1 {
      EmitAt(s, xs, hi - 1, k, c);
    }
  }

  /** The output of a new converter is the closed form's, from its first frame on. */
  lemma OutputIsEmit(s: Shape, xs: seq<real>)
    requires s.Valid()
    ensures Output(s, xs) == s.Emit(xs, 0, s.Emitted(|xs| / s.channels))
  {
    assert [] + xs == xs && s.Frames([]) == 0;
    hide Shape.Emit;
  }

  /** A frame before the `n`-th has its samples inside the stream. */
  lemma Inside(f: nat, n: nat, channels: nat, c: nat)
    requires f < n && c < channels
    ensures 0 <= f * channels + c < n * channels
  {
    MulNonNeg(f, channels);
    MulMono(f + 1, n, channels);
    MulDist(f, 1, channels);
  }

  lemma OutFrameAt(s: Shape, xs: seq<real>, k: nat, c: nat, f: nat, r: nat)
    requires s.Valid() && c < s.channels && f * s.targetRate + r == k * s.sourceRate && r < s.targetRate
    requires 0 <= f * s.channels + c < |xs| && 0 <= (f + 1) * s.channels + c < |xs|
    ensures s.OutFrame(xs, k)[c] == Mix(At(xs, s.channels, f, c), At(xs, s.channels, f + 1, c), r, s.targetRate)
  {
    DivUnique(k * s.sourceRate, f, r, s.targetRate);
    hide Mix;
  }

  /** Output frame `k` reads input frames `f` and `f + 1`, where `f` is the whole part of `k * source / target`. */
  lemma OutputAt(s: Shape, xs: seq<real>, k: nat, c: nat) returns (f: nat, r: nat)
    requires s.Valid() && |xs| % s.channels == 0 && k < s.Emitted(|xs| / s.channels) && c < s.channels
    ensures f * s.targetRate + r == k * s.sourceRate && r < s.targetRate
    ensures f + 1 < |xs| / s.channels && f * s.channels + c < |xs| && (f + 1) * s.channels + c < |xs|
    ensures k * s.channels + c < |Output(s, xs)|
    ensures At(Output(s, xs), s.channels, k, c)
            == Mix(At(xs, s.channels, f, c), At(xs, s.channels, f + 1, c), r, s.targetRate)
  {
    hide Mix, Shape.Emit, Shape.OutFrame, Shape.Emitted, Output;
    var n := |xs| / s.channels;
    MulNonNeg(k, s.sourceRate);
    f, r := k * s.sourceRate / s.targetRate, k * s.sourceRate % s.targetRate;
    ReadsArrivedFrames(s, n, k);
    assert n * s.channels == |xs|;
    Inside(f, n, s.channels, c);
    Inside(f + 1, n, s.channels, c);
    EmitAt(s, xs, s.Emitted(n), k, c);
    OutputIsEmit(s, xs);
    OutFrameAt(s, xs, k, c, f, r);
  }

  // ----- Equal rates -------------------------------------------------------

  lemma MixAtStart(a: real, b: real, den: nat)
    requires den > 0
    ensures Mix(a, b, 0, den) == a
  {}

  lemma EqualEmitted(s: Shape, n: nat)
    requires s.Valid() && s.sourceRate == s.targetRate
    ensures s.Emitted(n) == if n == 0 then 0 else n - 1
  {
    if n > 0 { DivUnique((n - 1) * s.targetRate + s.sourceRate - 1, n - 1, s.sourceRate - 1, s.sourceRate); }
  }

  lemma EqualSample(s: Shape, xs: seq<real>, k: nat, c: nat)
    requires s.Valid() && s.sourceRate == s.targetRate && |xs| % s.channels == 0
    requires k + 1 < |xs| / s.channels && c < s.channels
    ensures k * s.channels + c < |xs| && k * s.channels + c < |Output(s, xs)|
    ensures At(Output(s, xs), s.channels, k, c) == At(xs, s.channels, k, c)
  {
    EqualEmitted(s, |xs| / s.channels);
    var f, r := OutputAt(s, xs, k, c);
    DivUnique(k * s.sourceRate, f, r, s.targetRate);
    MulDiv(k, s.targetRate);
    MixAtStart(At(xs, s.channels, f, c), At(xs, s.channels, f + 1, c), s.targetRate);
  }

  lemma EqualLength(s: Shape, xs: seq<real>)
    requires s.Valid() && s.sourceRate == s.targetRate && |xs| % s.channels == 0
    ensures |Output(s, xs)| == if xs == [] then 0 else |xs| - s.channels
  {
    var n := |xs| / s.channels;
    assert n * s.channels == |xs|;
    OutputIsEmit(s, xs);
    EqualEmitted(s, n);
    hide Output, Shape.Emit, Shape.Emitted;
    EmitLength(s, xs, 0, s.Emitted(n));
    MulDist(n, 1, s.channels);
  }

  /** Where the `i`-th sample of a stream of `n` frames is, if it is not in the last one. */
  lemma Located(i: nat, channels: nat, n: nat) returns (k: nat, c: nat)
    requires channels > 0 && i < n * channels - channels
    ensures i == k * channels + c && c < channels && k + 1 < n
  {
    k, c := i / channels, i % channels;
    if k >= n - 1 {
      MulMono(n - 1, k, channels);
      MulDist(n, 1, channels);
    }
  }

  lemma EqualAt(s: Shape, xs: seq<real>, i: nat)
    requires s.Valid() && s.sourceRate == s.targetRate && |xs| % s.channels == 0 && i < |Output(s, xs)|
    ensures i < |xs| && Output(s, xs)[i] == xs[i]
  {
    EqualLength(s, xs);
    hide Output;
    var n, ch := |xs| / s.channels, s.channels;
    assert n * ch == |xs|;
    var k, c := Located(i, ch, n);
    EqualSample(s, xs, k, c);
  }

  /** With equal rates the output is the input without its last frame. */
  lemma EqualRatesPassThrough(s: Shape, xs: seq<real>)
    requires s.Valid() && s.sourceRate == s.targetRate && |xs| % s.channels == 0
    ensures Output(s, xs) == if xs == [] then [] else xs[..|xs| - s.channels]
  {
    EqualLength(s, xs);
    hide Output;
    forall i | 0 <= i < |Output(s, xs)| ensures i < |xs| && Output(s, xs)[i] == xs[i] {
      EqualAt(s, xs, i);
    }
  }

  // ----- Straight lines ----------------------------------------------------

  /** Channel `c` of the first `n` frames carries `c0 + c1 * f`. */
  ghost predicate Line(xs: seq<real>, channels: nat, n: nat, c: nat, c0: real, c1: real) {
    forall f: nat :: f < n ==> 0 <= f * channels + c < |xs| && xs[f * channels + c] == c0 + c1 * (f as real)
  }

  lemma MixOnLine(c0: real, c1: real, f: nat, r: nat, t: nat)
    requires t > 0
    ensures Mix(c0 + c1 * (f as real), c0 + c1 * ((f + 1) as real), r, t)
            == c0 + c1 * ((f * t + r) as real / t as real)
  {
    var x, y := f as real, r as real / t as real;
    assert (f + 1) as real == x + 1.0;
    assert (f * t + r) as real == x * (t as real) + r as real;
    assert (x * (t as real) + r as real) / (t as real) == x + y;
    assert c0 + c1 * x + (c0 + c1 * (x + 1.0) - (c0 + c1 * x)) * y == c0 + c1 * (x + y);
  }

  /** A straight line stays that line: output frame `k` carries its value at `k * source / target`. */
  lemma LineStaysLine(s: Shape, xs: seq<real>, c: nat, c0: real, c1: real, k: nat)
    requires s.Valid() && |xs| % s.channels == 0 && c < s.channels && k < s.Emitted(|xs| / s.channels)
    requires Line(xs, s.channels, |xs| / s.channels, c, c0, c1)
    ensures k * s.channels + c < |Output(s, xs)|
    ensures At(Output(s, xs), s.channels, k, c)
            == c0 + c1 * ((k * s.sourceRate) as real / s.targetRate as real)
  {
    var f, r := OutputAt(s, xs, k, c);
    assert At(xs, s.channels, f, c) == c0 + c1 * (f as real);
    assert At(xs, s.channels, f + 1, c) == c0 + c1 * ((f + 1) as real);
    MixOnLine(c0, c1, f, r, s.targetRate);
  }

  // ----- Bounds ------------------------------------------------------------

  lemma PartOf(d: real, y: real)
    requires d >= 0.0 && 0.0 <= y <= 1.0
    ensures 0.0 <= d * y <= d
  {
    assert d * y <= d * 1.0;
  }

  lemma PartOfNegative(d: real, y: real)
    requires d <= 0.0 && 0.0 <= y <= 1.0
    ensures d <= d * y <= 0.0
  {
    assert d * y >= d * 1.0;
  }

  lemma Fraction(r: nat, t: nat)
    requires r < t
    ensures 0.0 <= r as real / t as real <= 1.0
  {}

  lemma MixBetween(a: real, b: real, r: nat, t: nat)
    requires r < t
    ensures var m := Mix(a, b, r, t); a <= m <= b || b <= m <= a
  {
    var d, y := b - a, r as real / t as real;
    var m := d * y;
    assert Mix(a, b, r, t) == a + m;
    Fraction(r, t);
    hide Mix;
    if d >= 0.0 { PartOf(d, y); } else { PartOfNegative(d, y); }
  }

  /** Every output sample lies between the two input samples around its position; it never overshoots. */
  lemma SamplesLieBetween(s: Shape, xs: seq<real>, k: nat, c: nat) returns (f: nat)
    requires s.Valid() && |xs| % s.channels == 0 && k < s.Emitted(|xs| / s.channels) && c < s.channels
    ensures f * s.targetRate <= k * s.sourceRate < (f + 1) * s.targetRate
    ensures f * s.channels + c < |xs| && (f + 1) * s.channels + c < |xs| && k * s.channels + c < |Output(s, xs)|
    ensures var m, a, b := At(Output(s, xs), s.channels, k, c), At(xs, s.channels, f, c), At(xs, s.channels, f + 1, c);
            a <= m <= b || b <= m <= a
  {
    var r;
    f, r := OutputAt(s, xs, k, c);
    MulDist(f, 1, s.targetRate);
    MixBetween(At(xs, s.channels, f, c), At(xs, s.channels, f + 1, c), r, s.targetRate);
  }

  // ----- The announced length ----------------------------------------------

  /** The announced output length is reached, by a batch that follows exactly one frame: it is the least bound. */
  lemma OutputLengthIsReached(s: Shape, first: seq<real>, input: seq<real>)
    requires s.Valid() && |first| == s.channels && |input| % s.channels == 0
    ensures |s.Chunk(first, input)| == s.OutputLength(|input|)
  {
    DivUnique(s.channels, 1, 0, s.channels);
    ChunkLength(s, first, input);
    Appended(s, first, input);
    MulNonNeg(|input| / s.channels, s.targetRate);
    assert s.Emitted(1) == 0 by { DivUnique(s.sourceRate - 1, 0, s.sourceRate - 1, s.sourceRate); }
  }
}
