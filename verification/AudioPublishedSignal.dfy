// What a session publishes, told from the samples it was given and not from the functions that
// compute it: where each sample goes, how it is weighed, mixed and measured.
module AudioPublishedSignal {
  import opened Rationals
  import opened RealNumbers
  import opened LinearResampling
  import opened AudioStreaming
  import Bands = LogBandEncoding

  // ----- resampling -----

  lemma OpenLength(x: seq<Frame>, layout: Layout, k: nat)
    requires layout.Valid() && Uniform(x, layout.channels)
    ensures k < |OpenOutput(x, layout)| <==> k * layout.inputRate + layout.outputRate < |x| * layout.outputRate
  {
    EmittedCountIsExact(|x|, layout, k);
  }

  lemma WeightedMean(first: real, second: real, r: real, out: real)
    requires out > 0.0
    ensures out * (first + (second - first) * (r / out)) == (out - r) * first + r * second
  {
    Quotient(r, out);
    var f := r / out;
    assert out * ((second - first) * f) == (second - first) * (out * f);
  }

  // With q whole input frames and r parts of a frame before the position of output k, the output is
  // the mean of input frames q and q + 1, the first weighed by out - r and the second by r.
  lemma OutputIsWeightedMean(x: seq<Frame>, layout: Layout, k: nat, c: nat)
    requires layout.Valid() && Uniform(x, layout.channels) && c < layout.channels
    requires k < |OpenOutput(x, layout)|
    ensures
      var out := layout.outputRate;
      var q, r := k * layout.inputRate / out, k * layout.inputRate % out;
      && 0 <= q && q + 1 < |x|
      && out as real * OpenOutput(x, layout)[k][c] == (out as real - r as real) * x[q][c] + r as real * x[q + 1][c]
  {
    OpenOutputAt(x, layout, k);
    var out := layout.outputRate;
    var q, r := k * layout.inputRate / out, k * layout.inputRate % out;
    assert LowerIndex(layout, k) == q;
    WeightedMean(x[q][c], x[q + 1][c], r as real, out as real);
  }

  lemma LinearMean(a: real, b: real, q: real, r: real, out: real, y: real)
    requires out > 0.0 && out * y == (out - r) * (a + b * q) + r * (a + b * (q + 1.0))
    ensures y == a + b * ((out * q + r) / out)
  {
    assert (out - r) * (a + b * q) == out * (a + b * q) - r * (a + b * q);
    assert r * (a + b * (q + 1.0)) == r * (a + b * q) + r * b;
    assert out * (a + b * q) == out * a + out * (b * q);
    assert out * (b * q) == b * (out * q);
    var p := out * q + r;
    assert b * p == b * (out * q) + b * r;
    assert out * y == out * a + b * p;
    Quotient(p, out);
    assert b * (out * (p / out)) == out * (b * (p / out));
    assert out * (y - (a + b * (p / out))) == 0.0;
  }

  lemma RealProduct(out: nat, q: nat, r: nat)
    ensures (out * q + r) as real == out as real * q as real + r as real
  {
  }

  lemma Divided(position: nat, out: nat) returns (q: nat, r: nat)
    requires out > 0
    ensures q == position / out && r == position % out && out * q + r == position
  {
    DivBounds(position, out);
    q, r := position / out, position % out;
  }

  lemma WeightsOf(x: seq<Frame>, layout: Layout, k: nat, c: nat, position: nat) returns (q: nat, r: nat)
    requires layout.Valid() && Uniform(x, layout.channels) && c < layout.channels
    requires k < |OpenOutput(x, layout)| && position == k * layout.inputRate
    ensures layout.outputRate * q + r == position && q + 1 < |x|
    ensures layout.outputRate as real * OpenOutput(x, layout)[k][c]
      == (layout.outputRate as real - r as real) * x[q][c] + r as real * x[q + 1][c]
  {
    hide Uniform, OpenOutput;
    q, r := Divided(position, layout.outputRate);
    OutputIsWeightedMean(x, layout, k, c);
  }

  lemma LinearAt(a: real, b: real, q: nat, r: nat, out: nat, position: nat, lower: real, upper: real, y: real)
    requires out > 0 && out * q + r == position
    requires lower == a + b * q as real && upper == a + b * (q + 1) as real
    requires out as real * y == (out as real - r as real) * lower + r as real * upper
    ensures y == a + b * (position as real / out as real)
  {
    RealProduct(out, q, r);
    assert (q + 1) as real == q as real + 1.0;
    LinearMean(a, b, q as real, r as real, out as real, y);
  }

  // Channel c holds a + b * i in every frame i.
  ghost predicate IsLinear(x: seq<Frame>, c: nat, a: real, b: real) {
    forall i :: 0 <= i < |x| ==> c < |x[i]| && x[i][c] == a + b * i as real
  }

  lemma LinearSample(x: seq<Frame>, c: nat, a: real, b: real, i: nat)
    requires IsLinear(x, c, a, b) && i < |x|
    ensures c < |x[i]| && x[i][c] == a + b * i as real
  {
  }

  // A signal that is linear in time is reproduced at every output position.
  lemma LinearSignalIsFollowed(x: seq<Frame>, layout: Layout, k: nat, c: nat, a: real, b: real)
    requires layout.Valid() && Uniform(x, layout.channels) && c < layout.channels
    requires IsLinear(x, c, a, b) && k < |OpenOutput(x, layout)|
    ensures OpenOutput(x, layout)[k][c] == a + b * ((k * layout.inputRate) as real / layout.outputRate as real)
  {
    hide *;
    PositionSample(x, layout, k, c, a, b, k * layout.inputRate);
  }

  lemma PositionSample(x: seq<Frame>, layout: Layout, k: nat, c: nat, a: real, b: real, position: nat)
    requires layout.Valid() && Uniform(x, layout.channels) && c < layout.channels
    requires IsLinear(x, c, a, b) && k < |OpenOutput(x, layout)| && position == k * layout.inputRate
    ensures OpenOutput(x, layout)[k][c] == a + b * (position as real / layout.outputRate as real)
  {
    var q, r := WeightsOf(x, layout, k, c, position);
    LinearSample(x, c, a, b, q);
    LinearSample(x, c, a, b, q + 1);
    hide *;
    LinearAt(a, b, q, r, layout.outputRate, position, x[q][c], x[q + 1][c], OpenOutput(x, layout)[k][c]);
  }

  // A finished stream first gives what was determined by its frames, and then its last frame.
  lemma FinishedFrame(x: seq<Frame>, layout: Layout, k: nat)
    requires layout.Valid() && Uniform(x, layout.channels) && k < |FinishedOutput(x, layout)|
    ensures k * layout.inputRate + layout.outputRate < |x| * layout.outputRate ==>
      k < |OpenOutput(x, layout)| && FinishedOutput(x, layout)[k] == OpenOutput(x, layout)[k]
    ensures k * layout.inputRate + layout.outputRate >= |x| * layout.outputRate ==>
      x != [] && FinishedOutput(x, layout)[k] == x[|x| - 1]
  {
    OpenLength(x, layout, k);
  }

  // t is an integer nearest to a / b, and the even one when two are.
  predicate IsNearest(t: nat, a: nat, b: nat) {
    -(b as int) <= 2 * (t * b - a) <= b && (2 * (t * b - a) in {b as int, -(b as int)} ==> t % 2 == 0)
  }

  lemma OnlyOneIsNearest(s: nat, t: nat, a: nat, b: nat)
    requires b > 0 && s < t && IsNearest(s, a, b)
    ensures !IsNearest(t, a, b)
  {
    MulLess(s + 1, t, b);
    NextMultiple(s, b);
    MulLess(s + 2, t, b);
    NextMultiple(s + 1, b);
  }

  lemma NearestIsUnique(s: nat, t: nat, a: nat, b: nat)
    requires b > 0 && IsNearest(s, a, b) && IsNearest(t, a, b)
    ensures s == t
  {
    if s < t {
      OnlyOneIsNearest(s, t, a, b);
    } else if t < s {
      OnlyOneIsNearest(t, s, a, b);
    }
  }

  // The length of a finished stream of n > 0 frames: the determined outputs, or n * out / in rounded
  // to the nearest integer if that is more. Nothing comes from an empty stream.
  lemma FinishedLength(x: seq<Frame>, layout: Layout, target: nat, k: nat)
    requires layout.Valid() && Uniform(x, layout.channels)
    requires IsNearest(target, |x| * layout.outputRate, layout.inputRate)
    ensures x == [] ==> FinishedOutput(x, layout) == []
    ensures x != [] ==>
      (k < |FinishedOutput(x, layout)| <==>
        k * layout.inputRate + layout.outputRate < |x| * layout.outputRate || k < target)
  {
    RoundHalfEvenIsNearest(|x| * layout.outputRate, layout.inputRate);
    NearestIsUnique(target, RoundedTarget(|x|, layout), |x| * layout.outputRate, layout.inputRate);
    OpenLength(x, layout, k);
    if x == [] {
      EmittedCountIsExact(0, layout, 0);
    }
  }

  // ----- downmix -----

  lemma {:induction false} SumOfTwo(a: seq<real>, b: seq<real>, v: real)
    ensures Sum(a + b) == Sum(a) + Sum(b) && Sum([v]) == v
    decreases |b|
  {
    assert [v][..0] == [];
    if b == [] {
      assert a + b == a;
    } else {
      SumOfTwo(a, b[..|b| - 1], v);
      assert (a + b)[..|a + b| - 1] == a + b[..|b| - 1];
    }
  }

  // The mono sample of a frame, times the number of channels, is the sum over the channels.
  lemma MonoIsMean(frames: seq<Frame>, k: nat)
    requires k < |frames| && frames[k] != []
    ensures |frames[k]| as real * Mono(frames)[k] == Sum(frames[k])
  {
    Quotient(Sum(frames[k]), |frames[k]| as real);
  }

  // The same on interleaved samples: group k holds the channels of mono sample k.
  lemma DownmixIsMean(samples: seq<real>, channels: nat, count: nat, k: nat)
    requires channels > 0 && |samples| == count * channels && k < count
    ensures k * channels + channels <= |samples| && |Downmix(samples, channels)| == count
    ensures channels as real * Downmix(samples, channels)[k] == Sum(samples[k * channels..k * channels + channels])
  {
    hide Deinterleave, Flatten, Mono, Downmix, Sum;
    var frames := Deinterleave(samples, count, channels);
    DeinterleaveShape(samples, count, channels);
    FrameIsGroup(samples, count, channels, k);
    DeinterleavedBack(samples, count, channels);
    assert samples[..count * channels] == samples;
    DownmixFlatten(frames, channels);
    MonoIsMean(frames, k);
  }

  lemma FrameIsGroup(samples: seq<real>, count: nat, channels: nat, k: nat)
    requires count * channels <= |samples| && k < count
    ensures k * channels + channels <= |samples| && |Deinterleave(samples, count, channels)| == count
    ensures Deinterleave(samples, count, channels)[k] == samples[k * channels..k * channels + channels]
  {
    DeinterleaveShape(samples, count, channels);
    NextMultiple(k, channels);
    if channels > 0 {
      MulLess(k + 1, count, channels);
    }
    var frame := Deinterleave(samples, count, channels)[k];
    forall c | 0 <= c < channels ensures frame[c] == samples[k * channels + c] {
      FrameSample(samples, count, channels, k, c);
    }
  }

  lemma {:induction false} DeinterleavedBack(samples: seq<real>, count: nat, channels: nat)
    requires count * channels <= |samples|
    ensures Flatten(Deinterleave(samples, count, channels)) == samples[..count * channels]
    decreases count
  {
    if count > 0 {
      NextMultiple(count - 1, channels);
      DeinterleavedBack(samples, count - 1, channels);
      var frames := Deinterleave(samples, count, channels);
      assert frames[..|frames| - 1] == Deinterleave(samples, count - 1, channels);
    }
  }

  lemma {:induction false} SumOfEqual(values: seq<real>, v: real)
    requires forall i :: 0 <= i < |values| ==> values[i] == v
    ensures Sum(values) == |values| as real * v
    decreases |values|
  {
    if values != [] {
      SumOfEqual(values[..|values| - 1], v);
      assert |values| as real * v == (|values| - 1) as real * v + v;
    }
  }

  // A frame whose channels agree passes through unchanged.
  lemma EqualChannelsPassThrough(frames: seq<Frame>, k: nat, v: real)
    requires k < |frames| && frames[k] != [] && forall c :: 0 <= c < |frames[k]| ==> frames[k][c] == v
    ensures Mono(frames)[k] == v
  {
    MonoIsMean(frames, k);
    SumOfEqual(frames[k], v);
    var n := |frames[k]| as real;
    assert n * (Mono(frames)[k] - v) == 0.0;
  }

  // ----- feature frames -----

  lemma SquareOfOne(v: real)
    ensures Bands.SumSquares([v]) == v * v
  {
    assert [v][..0] == [];
  }

  // Feature value b of the frame that starts at sample j * hop: the logarithm of the mean square of the
  // b-th slice of the window, or of 1e-12 if that is more.
  lemma FeatureIsLogEnergy(samples: seq<real>, shape: Bands.Shape, j: nat, b: nat)
    requires shape.Valid() && b < shape.bands && j * shape.hopLength + shape.frameLength <= |samples|
    ensures j < |Bands.Features(samples, shape)|
    ensures
      var frame := Bands.Features(samples, shape)[j];
      var begin, end := b * shape.frameLength / shape.bands, (b + 1) * shape.frameLength / shape.bands;
      var start := j * shape.hopLength;
      && frame.startSample == start && |frame.values| == shape.bands
      && 0 <= begin < end <= shape.frameLength
      && var e := Bands.SumSquares(samples[start + begin..start + end]) / (end - begin) as real;
         frame.values[b] == shape.log(if e >= 0.000000000001 then e else 0.000000000001)
  {
    Bands.WindowCountIsExact(|samples|, shape, j);
    Bands.FeaturesAt(samples, shape, j);
    Bands.BandsPartition(shape, b);
    hide Bands.Features, Bands.WindowCount, Bands.SumSquares;
    var start := j * shape.hopLength;
    var window := samples[start..start + shape.frameLength];
    var begin, end := shape.BandStart(b), shape.BandStart(b + 1);
    SliceOfWindow(samples, start, shape.frameLength, begin, end);
  }

  lemma SliceOfWindow(samples: seq<real>, start: nat, length: nat, begin: nat, end: nat)
    requires begin <= end <= length && start + length <= |samples|
    ensures samples[start..start + length][begin..end] == samples[start + begin..start + end]
  {
    var window, slice := samples[start..start + length], samples[start + begin..start + end];
    forall i | 0 <= i < end - begin ensures window[begin..end][i] == slice[i] {
      assert window[begin..end][i] == window[begin + i] == samples[start + begin + i];
    }
  }

  lemma {:induction false} SquaresOfEqual(values: seq<real>, a: real)
    requires forall i :: 0 <= i < |values| ==> values[i] == a
    ensures Bands.SumSquares(values) == |values| as real * (a * a)
    decreases |values|
  {
    if values != [] {
      SquaresOfEqual(values[..|values| - 1], a);
      assert |values| as real * (a * a) == (|values| - 1) as real * (a * a) + a * a;
    }
  }

  // One feature value and the slice it measures.
  lemma MeasuredSlice(samples: seq<real>, shape: Bands.Shape, j: nat, b: nat) returns (slice: seq<real>)
    requires shape.Valid() && b < shape.bands && j * shape.hopLength + shape.frameLength <= |samples|
    ensures slice != [] && forall i :: 0 <= i < |slice| ==> slice[i] in samples
    ensures j < |Bands.Features(samples, shape)| && |Bands.Features(samples, shape)[j].values| == shape.bands
    ensures
      var e := Bands.SumSquares(slice) / |slice| as real;
      Bands.Features(samples, shape)[j].values[b] == shape.log(if e >= 0.000000000001 then e else 0.000000000001)
  {
    FeatureIsLogEnergy(samples, shape, j, b);
    hide Bands.Features, Bands.SumSquares;
    var begin, end := b * shape.frameLength / shape.bands, (b + 1) * shape.frameLength / shape.bands;
    var start := j * shape.hopLength;
    slice := samples[start + begin..start + end];
  }

  // A constant amplitude gives the logarithm of its square in every band, and silence that of 1e-12.
  lemma ConstantAmplitude(samples: seq<real>, shape: Bands.Shape, j: nat, b: nat, a: real)
    requires shape.Valid() && b < shape.bands && j * shape.hopLength + shape.frameLength <= |samples|
    requires forall i :: 0 <= i < |samples| ==> samples[i] == a
    ensures j < |Bands.Features(samples, shape)| && |Bands.Features(samples, shape)[j].values| == shape.bands
    ensures a * a > 0.000000000001 ==> Bands.Features(samples, shape)[j].values[b] == shape.log(a * a)
    ensures a == 0.0 ==> Bands.Features(samples, shape)[j].values[b] == shape.log(0.000000000001)
  {
    var slice := MeasuredSlice(samples, shape, j, b);
    hide Bands.Features, Bands.SumSquares;
    forall i | 0 <= i < |slice| ensures slice[i] == a {
      assert slice[i] in samples;
    }
    SquaresOfEqual(slice, a);
    var v := a * a;
    MeanOfEqual(|slice| as real, v);
    var e := Bands.SumSquares(slice) / |slice| as real;
    assert e == v;
    assert a == 0.0 ==> v == 0.0;
  }

  lemma MeanOfEqual(n: real, v: real)
    requires n > 0.0
    ensures n * v / n == v
  {
  }

  // ----- the whole session -----

  // A frame is published exactly when all samples of its window have been produced.
  lemma PublishedCount(x: seq<Frame>, final: bool, config: StreamConfig, j: nat)
    requires config.Valid() && Uniform(x, config.layout.channels)
    ensures j < |SessionFeatures(x, final, config)| <==>
      j * config.shape.hopLength + config.shape.frameLength <= |Resampled(x, final, config.layout)|
  {
    Bands.WindowCountIsExact(|Resampled(x, final, config.layout)|, config.shape, j);
  }

  // What a session publishes for stream x: feature value b of frame j measures the mono mix of the
  // resampled stream, whose samples are means over channels and weighted means over input frames.
  lemma PublishedFeature(x: seq<Frame>, final: bool, config: StreamConfig, j: nat, b: nat)
    requires config.Valid() && Uniform(x, config.layout.channels) && b < config.shape.bands
    requires j * config.shape.hopLength + config.shape.frameLength <= |Resampled(x, final, config.layout)|
    ensures j < |SessionFeatures(x, final, config)|
    ensures
      var shape, mono := config.shape, Mono(Resampled(x, final, config.layout));
      var frame := SessionFeatures(x, final, config)[j];
      var begin, end := b * shape.frameLength / shape.bands, (b + 1) * shape.frameLength / shape.bands;
      var start := j * shape.hopLength;
      && frame.startSample == start && |frame.values| == shape.bands
      && 0 <= begin < end <= shape.frameLength && start + end <= |mono|
      && var e := Bands.SumSquares(mono[start + begin..start + end]) / (end - begin) as real;
         frame.values[b] == shape.log(if e >= 0.000000000001 then e else 0.000000000001)
  {
    FeatureIsLogEnergy(Mono(Resampled(x, final, config.layout)), config.shape, j, b);
  }
}
