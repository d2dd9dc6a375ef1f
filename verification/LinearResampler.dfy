/** The streaming linear resampler. `position` is kept exactly, as a count of 1/targetRate of an input
    frame, and samples are reals; `f64` rounding is not modelled. */
module LinearResampler {
  import opened Prelude
  import opened Arith

  datatype ResampleError = BadRate | BadChannels | BadLength

  // ----- Closed form -------------------------------------------------------

  function CeilDiv(x: nat, d: nat): nat
    requires d > 0
  {
    (x + d - 1) / d
  }

  /** Rates and channel count of one converter. */
  datatype Shape = Shape(sourceRate: nat, targetRate: nat, channels: nat) {
    predicate Valid() { sourceRate > 0 && targetRate > 0 && channels > 0 }

    /** Output frames emitted once `n` input frames have arrived. */
    function Emitted(n: nat): (k: nat)
      requires Valid()
    {
      if n == 0 then 0 else MulNonNeg(n - 1, targetRate); CeilDiv((n - 1) * targetRate, sourceRate)
    }

    /** Whole input frames in `xs`. */
    function Frames(xs: seq<real>): nat
      requires Valid()
    {
      |xs| / channels
    }

    /** Input frame `f` of the stream `xs`. */
    function FrameAt(xs: seq<real>, f: nat): (r: seq<real>)
      ensures |r| == channels
    {
      seq(channels, c requires c >= 0 => MulNonNeg(f, channels); if f * channels + c < |xs| then xs[f * channels + c] else 0.0)
    }

    /** Output frame `k`: the input read at `k * sourceRate / targetRate` frames. */
    function OutFrame(xs: seq<real>, k: nat): (r: seq<real>)
      requires Valid()
    {
      MulNonNeg(k, sourceRate);
      var f := k * sourceRate / targetRate;
      Lerp(FrameAt(xs, f), FrameAt(xs, f + 1), k * sourceRate % targetRate, targetRate)
    }

    /** Output frames `lo` up to `hi` of the stream `xs`, flattened. */
    function Emit(xs: seq<real>, lo: nat, hi: nat): seq<real>
      requires Valid()
      decreases hi
    {
      if hi <= lo then [] else Emit(xs, lo, hi - 1) + OutFrame(xs, hi - 1)
    }

    /** What one call emits when `past` has already been processed and `input` arrives. */
    function Chunk(past: seq<real>, input: seq<real>): seq<real>
      requires Valid()
    {
      Emit(past + input, Emitted(Frames(past)), Emitted(Frames(past + input)))
    }

    /** `output_length`. */
    function OutputLength(inputLength: nat): nat
      requires Valid()
    {
      MulNonNeg(inputLength / channels, targetRate);
      MulNonNeg(CeilDiv((inputLength / channels) * targetRate, sourceRate), channels);
      CeilDiv((inputLength / channels) * targetRate, sourceRate) * channels
    }
  }

  /** The point `num / den` of the way from `a` to `b`. */
  function Lerp(a: seq<real>, b: seq<real>, num: nat, den: nat): (r: seq<real>)
    requires |a| == |b| && den > 0
    ensures |r| == |a|
  {
    seq(|a|, i requires 0 <= i < |a| => Mix(a[i], b[i], num, den))
  }

  function Mix(a: real, b: real, num: nat, den: nat): real
    requires den > 0
  {
    a + (b - a) * (num as real / den as real)
  }

  // ----- The converter -----------------------------------------------------

  class Converter {
    const shape: Shape
    var prevSamples: seq<real>
    /** Fractional input position, in units of 1/targetRate frame. */
    var position: nat
    var inputBuffer: seq<real>
    /** Every sample accepted since construction or reset. */
    ghost var history: seq<real>

    ghost predicate Valid()
      reads this
    {
      && shape.Valid()
      && |prevSamples| == shape.channels
      && |history| % shape.channels == 0
      && Settled(shape, history, inputBuffer, position)
    }

    constructor (s: Shape)
      requires s.Valid()
      ensures Valid() && shape == s && history == []
    {
      shape := s;
      prevSamples := seq(s.channels, _ => 0.0);
      position := 0;
      inputBuffer := [];
      history := [];
    }

    /** A converter, or the reason the parameters are refused. */
    static method New(sourceRate: nat, targetRate: nat, channels: nat) returns (r: Result<Converter, ResampleError>)
      ensures sourceRate == 0 || targetRate == 0 ==> r == Err(BadRate)
      ensures sourceRate > 0 && targetRate > 0 && channels == 0 ==> r == Err(BadChannels)
      ensures sourceRate > 0 && targetRate > 0 && channels > 0 ==>
                r.Ok? && fresh(r.value) && r.value.Valid() && r.value.history == []
                && r.value.shape == Shape(sourceRate, targetRate, channels)
    {
      if sourceRate == 0 || targetRate == 0 { return Err(BadRate); }
      if channels == 0 { return Err(BadChannels); }
      var c := new Converter(Shape(sourceRate, targetRate, channels));
      return Ok(c);
    }

    /** One output frame, channel by channel, from the first two buffered frames. */
    method Interpolate() returns (out: seq<real>)
      requires shape.Valid() && |inputBuffer| >= 2 * shape.channels
      ensures out == Lerp(inputBuffer[..shape.channels], inputBuffer[shape.channels..2 * shape.channels],
                          position, shape.targetRate)
    {
      out := [];
      for ch := 0 to shape.channels
        invariant |out| == ch
        invariant forall c :: 0 <= c < ch ==>
          out[c] == Mix(inputBuffer[c], inputBuffer[c + shape.channels], position, shape.targetRate)
      {
        out := out + [Mix(inputBuffer[ch], inputBuffer[ch + shape.channels], position, shape.targetRate)];
      }
      assert out == Lerp(inputBuffer[..shape.channels], inputBuffer[shape.channels..2 * shape.channels],
                         position, shape.targetRate);
    }

    /** The inner loop: emit while `position` lies inside the first buffered frame. */
    method EmitInside(output0: seq<real>, ghost frame: nat, ghost k0: nat, ghost first: nat)
      returns (output: seq<real>, ghost k: nat)
      requires shape.Valid() && Cursor(shape, history, inputBuffer, position, frame, k0)
      requires |inputBuffer| >= 2 * shape.channels && Emitting(shape, history, first, k0, output0)
      modifies this`position
      ensures Cursor(shape, history, inputBuffer, position, frame, k)
      ensures position >= shape.targetRate && Emitting(shape, history, first, k, output)
    {
      output, k := output0, k0;
      while position < shape.targetRate && |inputBuffer| >= shape.channels * 2
        invariant Cursor(shape, history, inputBuffer, position, frame, k)
        invariant Emitting(shape, history, first, k, output)
        decreases shape.targetRate - position
      {
        EmitStep(shape, history, inputBuffer, position, frame, k);
        var out := Interpolate();
        output := output + out;
        position := position + shape.sourceRate;
        k := k + 1;
        MulDist(k - 1, 1, shape.sourceRate);
      }
    }

    /** Drop the first buffered frame and remember it. */
    method PopFrame(ghost frame: nat, ghost k: nat)
      requires shape.Valid() && Cursor(shape, history, inputBuffer, position, frame, k)
      requires |inputBuffer| >= 2 * shape.channels && position >= shape.targetRate
      modifies this`prevSamples, this`inputBuffer, this`position
      ensures Cursor(shape, history, inputBuffer, position, frame + 1, k)
      ensures |prevSamples| == shape.channels && inputBuffer == old(inputBuffer)[shape.channels..]
    {
      PopStep(shape, history, inputBuffer, position, frame, k);
      prevSamples := inputBuffer[..shape.channels];
      inputBuffer := inputBuffer[shape.channels..];
      position := position - shape.targetRate;
    }

    /** The outer loop: emit and drop until fewer than two frames are buffered. */
    method Drain(ghost frame0: nat, ghost first: nat)
      returns (output: seq<real>, ghost frame: nat, ghost k: nat)
      requires shape.Valid() && Cursor(shape, history, inputBuffer, position, frame0, first)
      requires |prevSamples| == shape.channels && Emitting(shape, history, first, first, [])
      requires history != [] ==> inputBuffer != []
      modifies this`prevSamples, this`inputBuffer, this`position
      ensures Cursor(shape, history, inputBuffer, position, frame, k)
      ensures Emitting(shape, history, first, k, output) && |prevSamples| == shape.channels
      ensures |inputBuffer| < 2 * shape.channels && (history != [] ==> inputBuffer != [])
    {
      output, frame, k := [], frame0, first;
      while |inputBuffer| >= shape.channels * 2
        invariant Cursor(shape, history, inputBuffer, position, frame, k)
        invariant Emitting(shape, history, first, k, output)
        invariant |prevSamples| == shape.channels && (history != [] ==> inputBuffer != [])
        decreases |inputBuffer|
      {
        output, k := EmitInside(output, frame, k, first);
        PopFrame(frame, k);
        frame := frame + 1;
      }
    }

    /** Accept a batch, and return the frames the closed form adds for it. */
    method Process(input: seq<real>) returns (r: Result<seq<real>, ResampleError>)
      requires Valid()
      modifies this
      ensures Valid()
      ensures r.Err? <==> |input| % shape.channels != 0
      ensures r.Err? ==> r.error == BadLength && history == old(history)
                         && inputBuffer == old(inputBuffer) && position == old(position)
      ensures r.Ok? ==> history == old(history) + input && r.value == shape.Chunk(old(history), input)
    {
      if |input| % shape.channels != 0 {
        return Err(BadLength);
      }
      ghost var past, first := history, shape.Emitted(shape.Frames(history));
      Appended(shape, past, input);
      ghost var frame := Resume(shape, past, input, inputBuffer, position);
      inputBuffer := inputBuffer + input;
      history := history + input;
      var output;
      ghost var k;
      output, frame, k := Drain(frame, first);
      Finished(shape, past, input, inputBuffer, position, frame, k);
      return Ok(output);
    }

    method Reset()
      requires Valid()
      modifies this
      ensures Valid() && history == [] && inputBuffer == [] && position == 0
      ensures forall c :: 0 <= c < |prevSamples| ==> prevSamples[c] == 0.0
    {
      prevSamples := seq(shape.channels, _ => 0.0);
      position := 0;
      inputBuffer := [];
      history := [];
    }
  }

  /** Between calls at most one frame is buffered, and `position` is where the next output frame falls. */
  ghost predicate Settled(s: Shape, history: seq<real>, buffer: seq<real>, position: nat)
    requires s.Valid()
  {
    var n := s.Frames(history);
    if n == 0 then buffer == [] && position == 0
    else Cursor(s, history, buffer, position, n - 1, s.Emitted(n))
  }

  /** The buffer starts at input frame `frame`, and output frame `k` falls `position` past its start. */
  ghost predicate Cursor(s: Shape, history: seq<real>, buffer: seq<real>, position: nat, frame: nat, k: nat)
    requires s.Valid()
  {
    && |history| % s.channels == 0
    && 0 <= frame * s.channels <= |history|
    && buffer == history[frame * s.channels..]
    && frame * s.targetRate + position == k * s.sourceRate
  }

  /** `output` is the closed form's frames `first` up to `k`, and `k` is not past what has arrived. */
  ghost predicate Emitting(s: Shape, history: seq<real>, first: nat, k: nat, output: seq<real>)
    requires s.Valid()
  {
    first <= k <= s.Emitted(s.Frames(history)) && output == s.Emit(history, first, k)
  }

  /** Joining a batch to the buffer continues from where the last call stopped. */
  lemma Resume(s: Shape, past: seq<real>, input: seq<real>, buffer: seq<real>, position: nat) returns (frame: nat)
    requires s.Valid() && |past| % s.channels == 0 && |input| % s.channels == 0
    requires Settled(s, past, buffer, position)
    ensures Cursor(s, past + input, buffer + input, position, frame, s.Emitted(s.Frames(past)))
    ensures Emitting(s, past + input, s.Emitted(s.Frames(past)), s.Emitted(s.Frames(past)), [])
    ensures past + input != [] ==> buffer + input != []
  {
    var n := s.Frames(past);
    Appended(s, past, input);
    EmittedMono(s, n, s.Frames(past + input));
    if n == 0 {
      frame := 0;
    } else {
      frame := n - 1;
      MulDist(n - 1, 1, s.channels);
    }
  }

  lemma Appended(s: Shape, past: seq<real>, input: seq<real>)
    requires s.Valid() && |past| % s.channels == 0 && |input| % s.channels == 0
    ensures |past + input| % s.channels == 0
    ensures s.Frames(past + input) == s.Frames(past) + |input| / s.channels
    ensures s.Frames(past) * s.channels == |past|
  {
    var c := s.channels;
    var a, b := |past| / c, |input| / c;
    MulDist(a, b, c);
    DivUnique(|past + input|, a + b, 0, c);
  }

  /** While two frames are buffered and `position` is inside the first, the source emits output frame `k`. */
  lemma EmitStep(s: Shape, history: seq<real>, buffer: seq<real>, position: nat, frame: nat, k: nat)
    requires s.Valid() && Cursor(s, history, buffer, position, frame, k)
    requires |buffer| >= 2 * s.channels && position < s.targetRate
    ensures k < s.Emitted(s.Frames(history))
    ensures s.OutFrame(history, k) == Lerp(buffer[..s.channels], buffer[s.channels..2 * s.channels], position, s.targetRate)
  {
    var n := s.Frames(history);
    DivUnique(k * s.sourceRate, frame, position, s.targetRate);
    MulDist(frame, 1, s.channels);
    assert n * s.channels == |history|;
    AtLeast(frame + 2, n, s.channels);
    MulMono(frame + 1, n - 1, s.targetRate);
    MulDist(frame, 1, s.targetRate);
    BelowCeil(k, (n - 1) * s.targetRate, s.sourceRate);
    assert s.FrameAt(history, frame) == buffer[..s.channels];
    assert s.FrameAt(history, frame + 1) == buffer[s.channels..2 * s.channels];
  }

  lemma AtLeast(a: int, b: int, c: nat)
    requires a * c <= b * c && c > 0
    ensures a <= b
  {
    if b + 1 <= a { MulMono(b + 1, a, c); MulDist(b, 1, c); }
  }

  lemma BelowCeil(k: nat, x: nat, d: nat)
    requires d > 0 && k * d < x
    ensures k < CeilDiv(x, d)
  {
    var q, r := CeilDiv(x, d), (x + d - 1) % d;
    assert x + d - 1 == q * d + r;
    if q <= k { MulMono(q, k, d); }
  }

  lemma CeilAtMost(k: nat, x: nat, d: nat)
    requires d > 0 && x <= k * d
    ensures CeilDiv(x, d) <= k
  {
    var q := CeilDiv(x, d);
    if k + 1 <= q {
      MulMono(k + 1, q, d);
      MulDist(k, 1, d);
    }
  }

  /** Once `position` has left the first buffered frame, that frame is dropped. */
  lemma PopStep(s: Shape, history: seq<real>, buffer: seq<real>, position: nat, frame: nat, k: nat)
    requires s.Valid() && Cursor(s, history, buffer, position, frame, k)
    requires |buffer| >= 2 * s.channels && position >= s.targetRate
    ensures Cursor(s, history, buffer[s.channels..], position - s.targetRate, frame + 1, k)
  {
    MulDist(frame, 1, s.channels);
    MulDist(frame, 1, s.targetRate);
  }

  /** When fewer than two frames are left, every output frame of the closed form has been emitted. */
  lemma Finished(s: Shape, past: seq<real>, input: seq<real>, buffer: seq<real>, position: nat, frame: nat, k: nat)
    requires s.Valid() && Cursor(s, past + input, buffer, position, frame, k)
    requires |buffer| < 2 * s.channels && (past + input != [] ==> buffer != [])
    requires k <= s.Emitted(s.Frames(past + input))
    ensures k == s.Emitted(s.Frames(past + input))
    ensures Settled(s, past + input, buffer, position)
  {
    var n, c := s.Frames(past + input), s.channels;
    assert n * c == |past + input|;
    MulDist(n, frame, c);
    if n == 0 {
      AtLeast(frame, 0, c);
    } else {
      MulMono(1, n, c);
      OneFrame(n - frame, c);
      CeilAtMost(k, (n - 1) * s.targetRate, s.sourceRate);
    }
  }

  lemma OneFrame(m: int, c: nat)
    requires 0 < m * c < 2 * c
    ensures m == 1
  {
    if m <= 0 { MulMono(m, 0, c); }
    if m >= 2 { MulMono(2, m, c); }
  }

  // ----- Consequences of the closed form ----------------------------------

  lemma {:induction false} EmitLength(s: Shape, xs: seq<real>, lo: nat, hi: nat)
    requires s.Valid() && lo <= hi
    ensures |s.Emit(xs, lo, hi)| == (hi - lo) * s.channels
    decreases hi
  {
    if lo < hi {
      EmitLength(s, xs, lo, hi - 1);
      MulDist(hi - 1 - lo, 1, s.channels);
    }
  }

  lemma {:induction false} EmitSplit(s: Shape, xs: seq<real>, lo: nat, mid: nat, hi: nat)
    requires s.Valid() && lo <= mid <= hi
    ensures s.Emit(xs, lo, hi) == s.Emit(xs, lo, mid) + s.Emit(xs, mid, hi)
    decreases hi
  {
    if mid < hi { EmitSplit(s, xs, lo, mid, hi - 1); }
  }

  /** Later input never changes a frame already emitted. */
  lemma {:induction false} EmitStable(s: Shape, xs: seq<real>, more: seq<real>, lo: nat, hi: nat)
    requires s.Valid() && |xs| % s.channels == 0 && hi <= s.Emitted(s.Frames(xs))
    ensures s.Emit(xs, lo, hi) == s.Emit(xs + more, lo, hi)
    decreases hi
  {
    if lo < hi {
      EmitStable(s, xs, more, lo, hi - 1);
      OutFrameStable(s, xs, more, hi - 1);
    }
  }

  lemma OutFrameStable(s: Shape, xs: seq<real>, more: seq<real>, k: nat)
    requires s.Valid() && |xs| % s.channels == 0 && k < s.Emitted(s.Frames(xs))
    ensures s.OutFrame(xs, k) == s.OutFrame(xs + more, k)
  {
    var n, f := s.Frames(xs), k * s.sourceRate / s.targetRate;
    ReadsArrivedFrames(s, n, k);
    FrameStable(s, xs, more, f);
    FrameStable(s, xs, more, f + 1);
  }

  lemma FrameStable(s: Shape, xs: seq<real>, more: seq<real>, f: nat)
    requires s.Valid() && |xs| % s.channels == 0 && f < s.Frames(xs)
    ensures s.FrameAt(xs, f) == s.FrameAt(xs + more, f)
  {
    MulMono(f + 1, s.Frames(xs), s.channels);
    MulDist(f, 1, s.channels);
  }

  /** Output frame `k` is emitted exactly when both frames it reads have arrived. */
  lemma ReadsArrivedFrames(s: Shape, n: nat, k: nat)
    requires s.Valid()
    ensures k < s.Emitted(n) <==> k * s.sourceRate / s.targetRate + 1 < n
  {
    MulNonNeg(k, s.sourceRate);
    var x := k * s.sourceRate;
    var f := x / s.targetRate;
    assert x == f * s.targetRate + x % s.targetRate;
    if f + 1 < n {
      MulMono(f + 1, n - 1, s.targetRate);
      MulDist(f, 1, s.targetRate);
      BelowCeil(k, (n - 1) * s.targetRate, s.sourceRate);
    } else if n > 0 {
      MulMono(n - 1, f, s.targetRate);
      CeilAtMost(k, (n - 1) * s.targetRate, s.sourceRate);
    }
  }

  lemma EmittedMono(s: Shape, m: nat, n: nat)
    requires s.Valid() && m <= n
    ensures s.Emitted(m) <= s.Emitted(n)
  {
    if s.Emitted(n) < s.Emitted(m) {
      ReadsArrivedFrames(s, m, s.Emitted(n));
      ReadsArrivedFrames(s, n, s.Emitted(n));
    }
  }

  /** Chunking is invisible: two batches emit what the joined batch emits. */
  lemma ChunksJoin(s: Shape, past: seq<real>, a: seq<real>, b: seq<real>)
    requires s.Valid()
    requires |past| % s.channels == 0 && |a| % s.channels == 0 && |b| % s.channels == 0
    ensures s.Chunk(past, a) + s.Chunk(past + a, b) == s.Chunk(past, a + b)
  {
    Appended(s, past, a);
    Appended(s, past + a, b);
    assert past + (a + b) == past + a + b;
    var k0, k1, k2 := s.Emitted(s.Frames(past)), s.Emitted(s.Frames(past + a)), s.Emitted(s.Frames(past + a + b));
    EmittedMono(s, s.Frames(past), s.Frames(past + a));
    EmittedMono(s, s.Frames(past + a), s.Frames(past + a + b));
    EmitStable(s, past + a, b, k0, k1);
    EmitSplit(s, past + a + b, k0, k1, k2);
  }

  /** One call emits at most `OutputLength` samples, in whole frames. */
  lemma ChunkLength(s: Shape, past: seq<real>, input: seq<real>)
    requires s.Valid() && |past| % s.channels == 0 && |input| % s.channels == 0
    ensures |s.Chunk(past, input)| == (s.Emitted(s.Frames(past + input)) - s.Emitted(s.Frames(past))) * s.channels
    ensures |s.Chunk(past, input)| <= s.OutputLength(|input|)
  {
    Appended(s, past, input);
    var n, m := s.Frames(past), |input| / s.channels;
    EmittedMono(s, n, n + m);
    EmitLength(s, past + input, s.Emitted(n), s.Emitted(n + m));
    EmittedStep(s, n, m);
    MulMono(s.Emitted(n + m) - s.Emitted(n), CeilDiv(m * s.targetRate, s.sourceRate), s.channels);
  }

  lemma EmittedStep(s: Shape, n: nat, m: nat)
    requires s.Valid()
    ensures m * s.targetRate >= 0
    ensures s.Emitted(n + m) <= s.Emitted(n) + CeilDiv(m * s.targetRate, s.sourceRate)
  {
    var t, d := s.targetRate, s.sourceRate;
    MulNonNeg(m, t);
    var base := if n == 0 then 0 else n - 1;
    MulNonNeg(base, t);
    MulDist(base, m, t);
    var p, q := CeilDiv(base * t, d), CeilDiv(m * t, d);
    CeilCovers(base * t, d);
    CeilCovers(m * t, d);
    MulDist(p, q, d);
    if n + m > 0 {
      MulMono(n + m - 1, base + m, t);
      MulNonNeg(n + m - 1, t);
      CeilAtMost(p + q, (n + m - 1) * t, d);
    }
    if n == 0 { CeilAtMost(0, 0, d); }
  }

  lemma CeilCovers(x: nat, d: nat)
    requires d > 0
    ensures x <= CeilDiv(x, d) * d
  {
    var q, r := CeilDiv(x, d), (x + d - 1) % d;
    assert x + d - 1 == q * d + r;
  }
}
