// Streaming linear resampling: the frames that arrived so far determine the whole output.
module LinearResampling {
  import opened Results
  import opened Rationals

  // One value per channel.
  type Frame = seq<real>

  const MAXIMUM_RATE := 384_000
  const MAXIMUM_CHANNELS := 32
  const MAXIMUM_FRAMES_PER_CALL := 1_000_000

  datatype Layout = Layout(inputRate: nat, outputRate: nat, channels: nat) {
    predicate Valid() {
      && 1 <= inputRate <= MAXIMUM_RATE
      && 1 <= outputRate <= MAXIMUM_RATE
      && 1 <= channels <= MAXIMUM_CHANNELS
    }
  }

  datatype ResamplerError = InvalidResamplerInput

  ghost predicate Uniform(frames: seq<Frame>, channels: nat) {
    forall i :: 0 <= i < |frames| ==> |frames[i]| == channels
  }

  // ----- interleaving -----

  function Flatten(frames: seq<Frame>): seq<real> {
    if frames == [] then [] else Flatten(frames[..|frames| - 1]) + frames[|frames| - 1]
  }

  function Deinterleave(samples: seq<real>, count: nat, channels: nat): seq<Frame>
    requires count * channels <= |samples|
  {
    if count == 0 then [] else
      assert (count - 1) * channels + channels == count * channels;
      Deinterleave(samples, count - 1, channels) + [samples[(count - 1) * channels..count * channels]]
  }

  lemma {:induction false} DeinterleaveShape(samples: seq<real>, count: nat, channels: nat)
    requires count * channels <= |samples|
    ensures |Deinterleave(samples, count, channels)| == count
    ensures Uniform(Deinterleave(samples, count, channels), channels)
  {
    if count > 0 {
      assert (count - 1) * channels + channels == count * channels;
      DeinterleaveShape(samples, count - 1, channels);
    }
  }

  lemma {:induction false} FlattenLength(frames: seq<Frame>, channels: nat)
    requires Uniform(frames, channels)
    ensures |Flatten(frames)| == |frames| * channels
  {
    if frames != [] {
      FlattenLength(frames[..|frames| - 1], channels);
      assert (|frames| - 1) * channels + channels == |frames| * channels;
    }
  }

  // Reading back an interleaved buffer returns exactly the frames that were written to it.
  lemma {:induction false} DeinterleaveFlatten(frames: seq<Frame>, channels: nat, rest: seq<real>)
    requires Uniform(frames, channels)
    ensures |frames| * channels <= |Flatten(frames) + rest|
    ensures Deinterleave(Flatten(frames) + rest, |frames|, channels) == frames
  {
    FlattenLength(frames, channels);
    if frames != [] {
      var front, last := frames[..|frames| - 1], frames[|frames| - 1];
      FlattenLength(front, channels);
      assert |front| * channels + channels == |frames| * channels;
      DeinterleaveFlatten(front, channels, last + rest);
      assert Flatten(frames) + rest == Flatten(front) + (last + rest);
      assert (Flatten(frames) + rest)[|front| * channels..|frames| * channels] == last;
      assert frames == front + [last];
    }
  }

  // Sample c of frame i stands at position i * channels + c, on the way out and on the way in.
  lemma {:induction false} FlattenedSample(frames: seq<Frame>, channels: nat, i: nat, c: nat)
    requires Uniform(frames, channels) && i < |frames| && c < channels
    ensures i * channels + c < |Flatten(frames)| && Flatten(frames)[i * channels + c] == frames[i][c]
    decreases |frames|
  {
    var n := |frames| - 1;
    FlattenLength(frames[..n], channels);
    if i < n {
      FlattenedSample(frames[..n], channels, i, c);
    }
  }

  lemma {:induction false} FrameSample(samples: seq<real>, count: nat, channels: nat, i: nat, c: nat)
    requires count * channels <= |samples| && i < count && c < channels
    ensures |Deinterleave(samples, count, channels)| == count && |Deinterleave(samples, count, channels)[i]| == channels
    ensures i * channels + c < |samples| && Deinterleave(samples, count, channels)[i][c] == samples[i * channels + c]
    decreases count
  {
    DeinterleaveShape(samples, count, channels);
    assert (count - 1) * channels + channels == count * channels;
    if i < count - 1 {
      DeinterleaveShape(samples, count - 1, channels);
      FrameSample(samples, count - 1, channels, i, c);
    }
  }

  lemma FlattenSlice(frames: seq<Frame>, from: nat, to: nat)
    requires from <= to < |frames|
    ensures Flatten(frames[from..to + 1]) == Flatten(frames[from..to]) + frames[to]
  {
    assert frames[from..to + 1][..to - from] == frames[from..to];
  }

  // ----- the closed form -----

  // How many outputs a stream of n frames yields before it is finished.
  function EmittedCount(n: nat, layout: Layout): nat
    requires layout.Valid()
  {
    if n == 0 then 0 else CeilDiv((n - 1) * layout.outputRate, layout.inputRate)
  }

  // Output k sits at input position k * inputRate / outputRate, and is emitted early exactly
  // when the input frame after that position has arrived.
  lemma EmittedCountIsExact(n: nat, layout: Layout, k: nat)
    requires layout.Valid()
    ensures k < EmittedCount(n, layout) <==> k * layout.inputRate + layout.outputRate < n * layout.outputRate
  {
    if n == 0 {
      assert n * layout.outputRate == 0;
    } else {
      CeilDivIsLeast((n - 1) * layout.outputRate, layout.inputRate, k);
      assert (n - 1) * layout.outputRate + layout.outputRate == n * layout.outputRate;
    }
  }

  lemma EmittedCountMonotone(m: nat, n: nat, layout: Layout)
    requires layout.Valid() && m <= n
    ensures EmittedCount(m, layout) <= EmittedCount(n, layout)
  {
    var k := EmittedCount(n, layout);
    MulLess(m, n, layout.outputRate);
    EmittedCountIsExact(m, layout, k);
    EmittedCountIsExact(n, layout, k);
  }

  // The interpolation between two frames, channel by channel.
  function Mix(first: Frame, second: Frame, fraction: real): Frame
    requires |first| == |second|
  {
    seq(|first|, c requires 0 <= c < |first| => first[c] + (second[c] - first[c]) * fraction)
  }

  function LowerIndex(layout: Layout, k: nat): nat
    requires layout.Valid()
  {
    FloorDiv(Product(k, layout.inputRate), layout.outputRate)
  }

  function Fraction(layout: Layout, k: nat): real
    requires layout.Valid()
  {
    ((k * layout.inputRate) % layout.outputRate) as real / layout.outputRate as real
  }

  lemma UpperNeighbourArrived(n: nat, layout: Layout, k: nat)
    requires layout.Valid() && k < EmittedCount(n, layout)
    ensures LowerIndex(layout, k) + 1 < n
  {
    EmittedCountIsExact(n, layout, k);
    var lower, out := LowerIndex(layout, k), layout.outputRate;
    DivBounds(k * layout.inputRate, out);
    assert (lower + 1) * out == out * lower + out;
    MulLess(lower + 1, n, out);
  }

  // The value of the piecewise linear signal through x at position k * inputRate / outputRate.
  function Interpolation(x: seq<Frame>, layout: Layout, k: nat): Frame
    requires layout.Valid()
    requires LowerIndex(layout, k) + 1 < |x|
    requires |x[LowerIndex(layout, k)]| == |x[LowerIndex(layout, k) + 1]|
  {
    Mix(x[LowerIndex(layout, k)], x[LowerIndex(layout, k) + 1], Fraction(layout, k))
  }

  // The first m interpolations.
  ghost function Outputs(x: seq<Frame>, layout: Layout, m: nat): (ys: seq<Frame>)
    requires layout.Valid() && Uniform(x, layout.channels)
    requires m <= EmittedCount(|x|, layout)
    ensures |ys| == m && Uniform(ys, layout.channels)
  {
    if m == 0 then [] else
      UpperNeighbourArrived(|x|, layout, m - 1);
      Outputs(x, layout, m - 1) + [Interpolation(x, layout, m - 1)]
  }

  // Everything an unfinished stream x has produced so far.
  ghost function OpenOutput(x: seq<Frame>, layout: Layout): (ys: seq<Frame>)
    requires layout.Valid() && Uniform(x, layout.channels)
    ensures |ys| == EmittedCount(|x|, layout) && Uniform(ys, layout.channels)
  {
    Outputs(x, layout, EmittedCount(|x|, layout))
  }

  function RoundedTarget(n: nat, layout: Layout): nat
    requires layout.Valid()
  {
    RoundHalfEven(n * layout.outputRate, layout.inputRate)
  }

  function FinishedCount(n: nat, layout: Layout): nat
    requires layout.Valid()
  {
    var emitted, target := EmittedCount(n, layout), RoundedTarget(n, layout);
    if n == 0 || target <= emitted then emitted else target
  }

  function Repeat(frame: Frame, count: nat): (ys: seq<Frame>)
    ensures |ys| == count && forall i :: 0 <= i < count ==> ys[i] == frame
  {
    seq(count, _ => frame)
  }

  // Everything a finished stream x has produced: the tail repeats the last input frame.
  ghost function FinishedOutput(x: seq<Frame>, layout: Layout): (ys: seq<Frame>)
    requires layout.Valid() && Uniform(x, layout.channels)
    ensures |ys| == FinishedCount(|x|, layout) && Uniform(ys, layout.channels)
  {
    var open := OpenOutput(x, layout);
    var padding := FinishedCount(|x|, layout) - |open|;
    if padding == 0 then open else open + Repeat(x[|x| - 1], padding)
  }

  ghost function Resampled(x: seq<Frame>, final: bool, layout: Layout): (ys: seq<Frame>)
    requires layout.Valid() && Uniform(x, layout.channels)
    ensures Uniform(ys, layout.channels)
  {
    if final then FinishedOutput(x, layout) else OpenOutput(x, layout)
  }

  lemma {:induction false} OutputsPrefix(x: seq<Frame>, layout: Layout, m: nat, n: nat)
    requires layout.Valid() && Uniform(x, layout.channels)
    requires m <= n <= EmittedCount(|x|, layout)
    ensures Outputs(x, layout, m) <= Outputs(x, layout, n)
  {
    if m < n {
      OutputsPrefix(x, layout, m, n - 1);
    }
  }

  // Closed form, output by output.
  lemma OpenOutputAt(x: seq<Frame>, layout: Layout, k: nat)
    requires layout.Valid() && Uniform(x, layout.channels)
    requires k < EmittedCount(|x|, layout)
    ensures LowerIndex(layout, k) + 1 < |x|
    ensures OpenOutput(x, layout)[k] == Interpolation(x, layout, k)
  {
    UpperNeighbourArrived(|x|, layout, k);
    OutputsPrefix(x, layout, k + 1, EmittedCount(|x|, layout));
    assert Outputs(x, layout, k + 1)[k] == Interpolation(x, layout, k);
  }

  lemma {:induction false} OutputsIgnoreLaterInput(x: seq<Frame>, y: seq<Frame>, layout: Layout, m: nat)
    requires layout.Valid() && Uniform(x, layout.channels) && Uniform(y, layout.channels)
    requires m <= EmittedCount(|x|, layout) <= EmittedCount(|x + y|, layout)
    ensures Outputs(x, layout, m) == Outputs(x + y, layout, m)
  {
    if m > 0 {
      OutputsIgnoreLaterInput(x, y, layout, m - 1);
      UpperNeighbourArrived(|x|, layout, m - 1);
    }
  }

  // More input never revises what was already emitted.
  lemma OpenOutputIsStable(x: seq<Frame>, y: seq<Frame>, layout: Layout, final: bool)
    requires layout.Valid() && Uniform(x, layout.channels) && Uniform(y, layout.channels)
    ensures Uniform(x + y, layout.channels)
    ensures OpenOutput(x, layout) <= Resampled(x + y, final, layout)
  {
    var m := EmittedCount(|x|, layout);
    EmittedCountMonotone(|x|, |x + y|, layout);
    OutputsIgnoreLaterInput(x, y, layout, m);
    OutputsPrefix(x + y, layout, m, EmittedCount(|x + y|, layout));
  }

  // ----- length and range -----

  lemma RoundedTargetReachesLastFrame(n: nat, inRate: nat, outRate: nat)
    requires n > 0 && 0 < inRate <= 2 * outRate
    ensures RoundHalfEven(n * outRate, inRate) * inRate >= (n - 1) * outRate
  {
    RoundHalfEvenIsNearest(n * outRate, inRate);
    assert (n - 1) * outRate + outRate == n * outRate;
  }

  lemma EmittedCountAtMost(n: nat, layout: Layout, m: nat)
    requires layout.Valid() && n > 0 && m * layout.inputRate >= (n - 1) * layout.outputRate
    ensures EmittedCount(n, layout) <= m
  {
    CeilDivIsLeast((n - 1) * layout.outputRate, layout.inputRate, m);
  }

  // The rounded target is the length of a finished stream whenever the rate is at most halved.
  lemma FinishedLengthIsRounded(n: nat, layout: Layout)
    requires layout.Valid() && layout.inputRate <= 2 * layout.outputRate
    ensures FinishedCount(n, layout) == RoundedTarget(n, layout)
  {
    if n > 0 {
      RoundedTargetReachesLastFrame(n, layout.inputRate, layout.outputRate);
      EmittedCountAtMost(n, layout, RoundedTarget(n, layout));
    } else {
      assert n * layout.outputRate == 0;
    }
  }

  // At any rate: exactly when the rounded target reaches the position of the last input frame.
  lemma FinishedLengthIff(n: nat, layout: Layout)
    requires layout.Valid()
    ensures FinishedCount(n, layout) == RoundedTarget(n, layout) <==>
      n * layout.outputRate <= RoundedTarget(n, layout) * layout.inputRate + layout.outputRate
  {
    EmittedCountIsExact(n, layout, RoundedTarget(n, layout));
    if n == 0 { assert n * layout.outputRate == 0; }
  }

  // Beyond halving the early outputs alone can exceed the rounded target.
  lemma RoundedTargetCanBeExceeded()
    ensures FinishedCount(2, Layout(4, 1, 1)) == 1 && RoundedTarget(2, Layout(4, 1, 1)) == 0
  {
  }

  ghost predicate WithinRange(frames: seq<Frame>, c: nat, low: real, high: real) {
    forall i :: 0 <= i < |frames| ==> c < |frames[i]| && low <= frames[i][c] <= high
  }

  lemma MixWithinRange(a: real, b: real, t: real, low: real, high: real)
    requires low <= a <= high && low <= b <= high && 0.0 <= t <= 1.0
    ensures low <= a + (b - a) * t <= high
  {
    assert a + (b - a) * t == a * (1.0 - t) + b * t;
    assert low * (1.0 - t) + low * t == low && high * (1.0 - t) + high * t == high;
    MulNonNegative(a - low, 1.0 - t);
    MulNonNegative(b - low, t);
    MulNonNegative(high - a, 1.0 - t);
    MulNonNegative(high - b, t);
  }

  lemma FractionBounds(layout: Layout, k: nat)
    requires layout.Valid()
    ensures 0.0 <= Fraction(layout, k) < 1.0
  {
    var r, out := ((k * layout.inputRate) % layout.outputRate) as real, layout.outputRate as real;
    assert 0.0 <= r < out;
    assert r / out * out == r;
  }

  lemma InterpolationStaysInRange(x: seq<Frame>, layout: Layout, k: nat, c: nat, low: real, high: real)
    requires layout.Valid() && Uniform(x, layout.channels) && c < layout.channels
    requires WithinRange(x, c, low, high) && k < EmittedCount(|x|, layout)
    ensures low <= OpenOutput(x, layout)[k][c] <= high
  {
    hide EmittedCount, LowerIndex, Fraction;
    OpenOutputAt(x, layout, k);
    FractionBounds(layout, k);
    var lower := LowerIndex(layout, k);
    MixWithinRange(x[lower][c], x[lower + 1][c], Fraction(layout, k), low, high);
  }

  // No output leaves the range of its channel's inputs.
  lemma OutputStaysInRange(x: seq<Frame>, final: bool, layout: Layout, c: nat, low: real, high: real)
    requires layout.Valid() && Uniform(x, layout.channels) && c < layout.channels
    requires WithinRange(x, c, low, high)
    ensures WithinRange(Resampled(x, final, layout), c, low, high)
  {
    var ys := Resampled(x, final, layout);
    forall k | 0 <= k < |ys| ensures c < |ys[k]| && low <= ys[k][c] <= high {
      if k < EmittedCount(|x|, layout) {
        InterpolationStaysInRange(x, layout, k, c, low, high);
      }
    }
  }

  // ----- the streaming object -----

  // One step on; at the end of the stream the position stays within the buffer.
  function AdvancedPosition(position: nat, length: nat, layout: Layout, clamp: bool): nat
    requires length > 0
  {
    var next := position + layout.inputRate;
    if clamp && next >= Product(length, layout.outputRate) then Product(length - 1, layout.outputRate) else next
  }

  // The channel loop: appends the mix of two frames to an interleaved buffer.
  method AppendMix(output: seq<real>, lower: Frame, upper: Frame, fraction: real) returns (extended: seq<real>)
    requires |lower| == |upper|
    ensures extended == output + Mix(lower, upper, fraction)
  {
    extended := output;
    ghost var mixed := Mix(lower, upper, fraction);
    for channel := 0 to |lower|
      invariant extended == output + mixed[..channel]
    {
      var first, second := lower[channel], upper[channel];
      extended := extended + [first + (second - first) * fraction];
      assert mixed[channel] == first + (second - first) * fraction;
      assert mixed[..channel + 1] == mixed[..channel] + [mixed[channel]];
    }
    assert mixed[..|lower|] == mixed;
  }

  lemma SplitProduct(whole: nat, part: nat, b: nat)
    requires part <= whole
    ensures whole * b == (whole - part) * b + part * b
  {
  }

  // A read position past the last frame pair stays non-negative when all frames but the last go.
  lemma PositionPastLastPair(length: nat, position: nat, b: nat)
    requires length > 0 && b > 0 && position + b >= length * b
    ensures position / b >= length - 1 && position >= (length - 1) * b
  {
    assert (length - 1) * b + b == length * b;
    DivBounds(position, b);
    assert (position / b + 1) * b == b * (position / b) + b;
    MulLess(length - 1, position / b + 1, b);
  }

  // New frames at the end of the stream and of its retained suffix.
  lemma SuffixExtends(received: seq<Frame>, frames: seq<Frame>, added: seq<Frame>, channels: nat)
    requires |frames| <= |received| && frames == received[|received| - |frames|..]
    requires Uniform(received, channels) && Uniform(added, channels)
    ensures frames + added == (received + added)[|received + added| - |frames + added|..]
    ensures Uniform(received + added, channels)
  {
  }

  class StreamingLinearResampler {
    const layout: Layout
    var frames: seq<Frame>
    // The read position in `frames`, in units of one input frame / layout.outputRate.
    var position: nat
    var totalInputFrames: nat
    var totalOutputFrames: nat
    // All frames accepted since construction or the last reset.
    ghost var Received: seq<Frame>

    // What holds at every point inside Process: `frames` is a suffix of the stream, and
    // discarded frames plus position account for every emitted output.
    ghost predicate Aligned()
      reads this
    {
      && layout.Valid()
      && Uniform(Received, layout.channels)
      && totalInputFrames == |Received|
      && |frames| <= |Received|
      && (|frames| == 0 ==> |Received| == 0)
      && frames == Received[|Received| - |frames|..]
      && (|Received| - |frames|) * layout.outputRate + position == totalOutputFrames * layout.inputRate
    }

    ghost predicate Valid()
      reads this
    {
      && Aligned()
      && totalOutputFrames == EmittedCount(|Received|, layout)
      && |frames| == (if |Received| == 0 then 0 else 1)
    }

    constructor (layout: Layout)
      requires layout.Valid()
      ensures Valid() && Received == [] && this.layout == layout
    {
      this.layout := layout;
      frames := [];
      position, totalInputFrames, totalOutputFrames := 0, 0, 0;
      Received := [];
      new;
      assert 0 * layout.outputRate == 0 && 0 * layout.inputRate == 0;
    }

    method Reset()
      requires layout.Valid()
      modifies this
      ensures Valid() && Received == []
    {
      frames := [];
      position, totalInputFrames, totalOutputFrames := 0, 0, 0;
      Received := [];
      assert 0 * layout.outputRate == 0 && 0 * layout.inputRate == 0;
    }

    // The main loop's guard, read from the whole stream: the next output is already determined.
    lemma GuardMeaning()
      requires Aligned()
      ensures position + layout.outputRate < |frames| * layout.outputRate
        <==> totalOutputFrames < EmittedCount(|Received|, layout)
    {
      EmittedCountIsExact(|Received|, layout, totalOutputFrames);
      SplitProduct(|Received|, |frames|, layout.outputRate);
    }

    function Lower(): nat
      requires layout.Valid() && |frames| > 0
      reads this
    {
      if position / layout.outputRate < |frames| - 1 then position / layout.outputRate else |frames| - 1
    }

    function Upper(): nat
      requires layout.Valid() && |frames| > 0
      reads this
    {
      if Lower() + 1 < |frames| - 1 then Lower() + 1 else |frames| - 1
    }

    // What the next append interpolates, read from the buffer.
    function Next(): Frame
      requires layout.Valid() && |frames| > 0 && Uniform(frames, layout.channels)
      reads this
    {
      Mix(frames[Lower()], frames[Upper()], (position % layout.outputRate) as real / layout.outputRate as real)
    }

    // In the main loop the buffer's next value is the stream's next interpolation.
    lemma NextIsInterpolation()
      requires Aligned() && totalOutputFrames < EmittedCount(|Received|, layout)
      ensures |frames| > 0 && Uniform(frames, layout.channels)
      ensures LowerIndex(layout, totalOutputFrames) + 1 < |Received|
      ensures Next() == Interpolation(Received, layout, totalOutputFrames)
    {
      var dropped := |Received| - |frames|;
      UpperNeighbourArrived(|Received|, layout, totalOutputFrames);
      DivModShift(dropped, position, layout.outputRate);
      assert LowerIndex(layout, totalOutputFrames) == dropped + position / layout.outputRate;
    }

    // Appends one output frame: the mix of the two neighbours of the read position.
    method AppendInterpolated(output: seq<real>, clamp: bool) returns (extended: seq<real>)
      requires layout.Valid() && |frames| > 0 && Uniform(frames, layout.channels)
      modifies this`position, this`totalOutputFrames
      ensures extended == output + old(Next())
      ensures |frames| == 1 ==> extended == output + frames[0]
      ensures totalOutputFrames == old(totalOutputFrames) + 1
      ensures position == AdvancedPosition(old(position), |frames|, layout, clamp)
    {
      extended := AppendMix(output, frames[Lower()], frames[Upper()],
                            (position % layout.outputRate) as real / layout.outputRate as real);
      assert |frames| == 1 ==> Next() == frames[0];
      position := position + layout.inputRate;
      totalOutputFrames := totalOutputFrames + 1;
      if clamp && position >= |frames| * layout.outputRate {
        position := (|frames| - 1) * layout.outputRate;
      }
    }

    method Process(samples: seq<real>, frameCount: int, final: bool) returns (r: Result<seq<real>, ResamplerError>)
      requires Valid()
      modifies this
      ensures Valid()
      ensures r.Ok? <==> 0 <= frameCount <= 1_000_000 && frameCount * layout.channels <= |samples|
      ensures r.Err? ==> unchanged(this)
      ensures r.Ok? ==>
        var before := old(Received);
        var after := before + Deinterleave(samples, frameCount, layout.channels);
        && Uniform(after, layout.channels)
        && OpenOutput(before, layout) <= Resampled(after, final, layout)
        && r.value == Flatten(Resampled(after, final, layout)[|OpenOutput(before, layout)|..])
        && Received == if final then [] else after
    {
      if !(0 <= frameCount <= MAXIMUM_FRAMES_PER_CALL && frameCount * layout.channels <= |samples|) {
        return Err(InvalidResamplerInput);
      }
      Accept(samples, frameCount);
      ghost var before, after := old(Received), Received;
      ghost var sent := EmittedCount(|before|, layout);
      DeinterleaveShape(samples, frameCount, layout.channels);
      OpenOutputIsStable(before, Deinterleave(samples, frameCount, layout.channels), layout, final);
      var output := EmitAvailable(sent);
      DiscardConsumed();
      if final {
        var target := RoundedTarget(totalInputFrames, layout);
        output := PadToTarget(output, target, sent);
        Reset();
      }
      r := Ok(output);
    }

    // Splits the interleaved samples into frames and appends them to the buffer.
    method Accept(samples: seq<real>, frameCount: nat)
      requires Valid() && frameCount * layout.channels <= |samples|
      modifies this
      ensures Aligned()
      ensures Received == old(Received) + Deinterleave(samples, frameCount, layout.channels)
      ensures totalOutputFrames == EmittedCount(|old(Received)|, layout) <= EmittedCount(|Received|, layout)
    {
      hide EmittedCount, Deinterleave;
      EmittedCountMonotone(|Received|, |Received| + frameCount, layout);
      DeinterleaveShape(samples, frameCount, layout.channels);
      ghost var added := Deinterleave(samples, frameCount, layout.channels);
      SuffixExtends(Received, frames, added, layout.channels);
      AppendFrames(samples, frameCount);
      totalInputFrames := totalInputFrames + frameCount;
      Received := Received + added;
    }

    method AppendFrames(samples: seq<real>, frameCount: nat)
      requires layout.Valid() && frameCount * layout.channels <= |samples|
      modifies this`frames
      ensures frames == old(frames) + Deinterleave(samples, frameCount, layout.channels)
    {
      var channels := layout.channels;
      for frame := 0 to frameCount
        invariant frame * channels <= |samples|
        invariant frames == old(frames) + Deinterleave(samples, frame, channels)
      {
        assert frame * channels + channels == (frame + 1) * channels;
        MulLess(frame + 1, frameCount, channels);
        frames := frames + [samples[frame * channels..frame * channels + channels]];
      }
    }

    // The main loop: emits every output whose upper neighbour has arrived.
    method EmitAvailable(ghost sent: nat) returns (output: seq<real>)
      requires Aligned() && sent == totalOutputFrames <= EmittedCount(|Received|, layout)
      modifies this`position, this`totalOutputFrames
      ensures Aligned() && totalOutputFrames == EmittedCount(|Received|, layout)
      ensures output == Flatten(OpenOutput(Received, layout)[sent..])
    {
      hide EmittedCount, Interpolation, LowerIndex, OpenOutput, Next;
      output := [];
      ghost var whole := OpenOutput(Received, layout);
      var out := layout.outputRate;
      GuardMeaning();
      while position + out < |frames| * out
        invariant Aligned() && sent <= totalOutputFrames <= |whole|
        invariant position + out < |frames| * out <==> totalOutputFrames < |whole|
        invariant output == Flatten(whole[sent..totalOutputFrames])
        decreases |whole| - totalOutputFrames
      {
        ghost var k := totalOutputFrames;
        OpenOutputAt(Received, layout, k);
        NextIsInterpolation();
        FlattenSlice(whole, sent, k);
        output := AppendInterpolated(output, false);
        NextMultiple(k, layout.inputRate);
        GuardMeaning();
      }
      assert whole[sent..totalOutputFrames] == whole[sent..];
    }

    // The end-of-stream loop: repeats the last frame up to the rounded target.
    method PadToTarget(output: seq<real>, target: nat, ghost sent: nat) returns (padded: seq<real>)
      requires layout.Valid() && Uniform(Received, layout.channels)
      requires if |Received| == 0 then frames == [] else frames == [Received[|Received| - 1]]
      requires sent <= totalOutputFrames == EmittedCount(|Received|, layout)
      requires target == RoundedTarget(|Received|, layout)
      requires output == Flatten(OpenOutput(Received, layout)[sent..])
      modifies this`position, this`totalOutputFrames
      ensures padded == Flatten(FinishedOutput(Received, layout)[sent..])
    {
      hide EmittedCount, RoundedTarget, OpenOutput, Next, AdvancedPosition;
      padded := output;
      ghost var whole := FinishedOutput(Received, layout);
      assert whole[sent..totalOutputFrames] == OpenOutput(Received, layout)[sent..];
      while totalOutputFrames < target && |frames| > 0
        invariant old(totalOutputFrames) <= totalOutputFrames <= |whole|
        invariant padded == Flatten(whole[sent..totalOutputFrames])
        decreases target - totalOutputFrames
      {
        assert whole[totalOutputFrames] == frames[0];
        FlattenSlice(whole, sent, totalOutputFrames);
        padded := AppendInterpolated(padded, true);
      }
      assert totalOutputFrames == |whole|;
      assert whole[sent..totalOutputFrames] == whole[sent..];
    }

    // Drops every frame but the last, and moves the read position back by as much.
    method DiscardConsumed()
      requires Aligned() && totalOutputFrames == EmittedCount(|Received|, layout)
      modifies this`frames, this`position
      ensures Valid()
    {
      var out := layout.outputRate;
      GuardMeaning();
      if |frames| > 0 {
        PositionPastLastPair(|frames|, position, out);
      }
      var retained := if |frames| > 0 then |frames| - 1 else 0;
      var discard := if position / out < retained then position / out else retained;
      if discard > 0 {
        SplitProduct(|Received| - |frames| + discard, discard, out);
        frames := frames[discard..];
        position := position - discard * out;
      }
    }
  }
}

// Log-energy features over overlapping windows of a mono stream.
module LogBandEncoding {
  import opened Results
  import opened Rationals

  const MAXIMUM_SAMPLES_PER_CALL := 4_000_000
  const ENERGY_FLOOR := 0.000000000001

  // `log` stands for the natural logarithm, about which nothing is assumed.
  datatype Shape = Shape(frameLength: nat, hopLength: nat, bands: nat, log: real -> real) {
    predicate Valid() {
      && 2 <= frameLength <= 8192
      && 1 <= hopLength <= frameLength
      && 1 <= bands <= (if frameLength < 256 then frameLength else 256)
    }

    function BandStart(band: nat): nat
      requires Valid()
    {
      FloorDiv(Product(band, frameLength), bands)
    }
  }

  datatype FeatureFrame = FeatureFrame(startSample: nat, values: seq<real>)

  datatype EncoderError = ChunkExceedsBound

  // ----- bands of one window -----

  function SumSquares(values: seq<real>): real {
    if values == [] then 0.0 else SumSquares(values[..|values| - 1]) + values[|values| - 1] * values[|values| - 1]
  }

  lemma {:induction false} SumSquaresConcat(a: seq<real>, b: seq<real>)
    ensures SumSquares(a + b) == SumSquares(a) + SumSquares(b)
  {
    if b == [] {
      assert a + b == a;
    } else {
      SumSquaresConcat(a, b[..|b| - 1]);
      assert (a + b)[..|a + b| - 1] == a + b[..|b| - 1];
    }
  }

  // Consecutive bands are non-empty, start at sample 0 and end at the window's end.
  lemma BandsPartition(shape: Shape, band: nat)
    requires shape.Valid() && band < shape.bands
    ensures shape.BandStart(0) == 0 && shape.BandStart(shape.bands) == shape.frameLength
    ensures shape.BandStart(band) < shape.BandStart(band + 1) <= shape.frameLength
  {
    var length, bands := shape.frameLength, shape.bands;
    DivModShift(0, 0, bands);
    DivModShift(length, 0, bands);
    NextMultiple(band, length);
    FloorDivStep(Product(band, length), length, bands);
    MulLess(band + 1, bands, length);
    FloorDivMonotone(Product(band + 1, length), Product(bands, length), bands);
  }

  function Energy(window: seq<real>, shape: Shape, band: nat): real
    requires shape.Valid() && |window| == shape.frameLength && band < shape.bands
  {
    BandsPartition(shape, band);
    var begin, end := shape.BandStart(band), shape.BandStart(band + 1);
    SumSquares(window[begin..end]) / (end - begin) as real
  }

  function LogEnergy(window: seq<real>, shape: Shape, band: nat): real
    requires shape.Valid() && |window| == shape.frameLength && band < shape.bands
  {
    var energy := Energy(window, shape, band);
    shape.log(if energy > ENERGY_FLOOR then energy else ENERGY_FLOOR)
  }

  function BandValues(window: seq<real>, shape: Shape): (values: seq<real>)
    requires shape.Valid() && |window| == shape.frameLength
    ensures |values| == shape.bands
  {
    seq(shape.bands, band requires 0 <= band < shape.bands => LogEnergy(window, shape, band))
  }

  function BandShare(window: seq<real>, shape: Shape, band: nat): real
    requires shape.Valid() && |window| == shape.frameLength && band < shape.bands
  {
    (shape.BandStart(band + 1) - shape.BandStart(band)) as real * Energy(window, shape, band)
  }

  // The energies of the first bands, each weighted by its number of samples.
  function WeightedEnergy(window: seq<real>, shape: Shape, bands: nat): real
    requires shape.Valid() && |window| == shape.frameLength && bands <= shape.bands
  {
    if bands == 0 then 0.0 else
      WeightedEnergy(window, shape, bands - 1) + BandShare(window, shape, bands - 1)
  }

  lemma WeightedBand(window: seq<real>, shape: Shape, band: nat)
    requires shape.Valid() && |window| == shape.frameLength && band < shape.bands
    ensures shape.BandStart(band) < shape.BandStart(band + 1) <= |window|
    ensures BandShare(window, shape, band)
      == SumSquares(window[shape.BandStart(band)..shape.BandStart(band + 1)])
  {
    BandsPartition(shape, band);
    var begin, end := shape.BandStart(band), shape.BandStart(band + 1);
    Quotient(SumSquares(window[begin..end]), (end - begin) as real);
  }

  lemma JoinSumSquares(window: seq<real>, begin: nat, end: nat)
    requires begin <= end <= |window|
    ensures SumSquares(window[..end]) == SumSquares(window[..begin]) + SumSquares(window[begin..end])
  {
    SumSquaresConcat(window[..begin], window[begin..end]);
    assert window[..begin] + window[begin..end] == window[..end];
  }

  lemma {:induction false} WeightedEnergyOfPrefix(window: seq<real>, shape: Shape, bands: nat)
    requires shape.Valid() && |window| == shape.frameLength && bands <= shape.bands
    ensures shape.BandStart(bands) <= |window|
    ensures WeightedEnergy(window, shape, bands) == SumSquares(window[..shape.BandStart(bands)])
  {
    hide BandShare, Energy;
    if bands == 0 {
      BandsPartition(shape, 0);
    } else {
      WeightedEnergyOfPrefix(window, shape, bands - 1);
      WeightedBand(window, shape, bands - 1);
      JoinSumSquares(window, shape.BandStart(bands - 1), shape.BandStart(bands));
    }
  }

  // No signal energy is lost or counted twice across the bands.
  lemma BandsConserveEnergy(window: seq<real>, shape: Shape)
    requires shape.Valid() && |window| == shape.frameLength
    ensures WeightedEnergy(window, shape, shape.bands) == SumSquares(window)
  {
    WeightedEnergyOfPrefix(window, shape, shape.bands);
    BandsPartition(shape, 0);
    assert window[..|window|] == window;
  }

  // ----- windows of the stream -----

  function WindowCount(n: nat, shape: Shape): nat
    requires shape.Valid()
  {
    if n < shape.frameLength then 0 else (n - shape.frameLength) / shape.hopLength + 1
  }

  // A window is counted exactly when it fits in the n samples received.
  lemma WindowCountIsExact(n: nat, shape: Shape, j: nat)
    requires shape.Valid()
    ensures j < WindowCount(n, shape) <==> j * shape.hopLength + shape.frameLength <= n
  {
    var hop := shape.hopLength;
    if n >= shape.frameLength {
      var q := (n - shape.frameLength) / hop;
      DivBounds(n - shape.frameLength, hop);
      assert (q + 1) * hop == hop * q + hop && q * hop == hop * q;
      MulLess(j, q + 1, hop);
      MulLess(j, q, hop);
      if j > q {
        MulLess(q + 1, j, hop);
      }
    }
  }

  function Window(samples: seq<real>, shape: Shape, j: nat): FeatureFrame
    requires shape.Valid() && j * shape.hopLength + shape.frameLength <= |samples|
  {
    var start := j * shape.hopLength;
    FeatureFrame(start, BandValues(samples[start..start + shape.frameLength], shape))
  }

  ghost function Windows(samples: seq<real>, shape: Shape, m: nat): (fs: seq<FeatureFrame>)
    requires shape.Valid() && m <= WindowCount(|samples|, shape)
    ensures |fs| == m
  {
    if m == 0 then [] else
      WindowCountIsExact(|samples|, shape, m - 1);
      Windows(samples, shape, m - 1) + [Window(samples, shape, m - 1)]
  }

  // Every feature frame determined by the samples received so far.
  ghost function Features(samples: seq<real>, shape: Shape): (fs: seq<FeatureFrame>)
    requires shape.Valid()
    ensures |fs| == WindowCount(|samples|, shape)
  {
    Windows(samples, shape, WindowCount(|samples|, shape))
  }

  lemma WindowCountMonotone(m: nat, n: nat, shape: Shape)
    requires shape.Valid() && m <= n
    ensures WindowCount(m, shape) <= WindowCount(n, shape)
  {
    var j := WindowCount(n, shape);
    WindowCountIsExact(m, shape, j);
    WindowCountIsExact(n, shape, j);
  }

  lemma {:induction false} WindowsPrefix(samples: seq<real>, shape: Shape, m: nat, n: nat)
    requires shape.Valid() && m <= n <= WindowCount(|samples|, shape)
    ensures Windows(samples, shape, m) <= Windows(samples, shape, n)
  {
    if m < n {
      WindowsPrefix(samples, shape, m, n - 1);
    }
  }

  lemma {:induction false} WindowsIgnoreLaterSamples(a: seq<real>, b: seq<real>, shape: Shape, m: nat)
    requires shape.Valid() && m <= WindowCount(|a|, shape) <= WindowCount(|a + b|, shape)
    ensures Windows(a, shape, m) == Windows(a + b, shape, m)
  {
    if m > 0 {
      WindowsIgnoreLaterSamples(a, b, shape, m - 1);
      WindowCountIsExact(|a|, shape, m - 1);
      var start := (m - 1) * shape.hopLength;
      assert a[start..start + shape.frameLength] == (a + b)[start..start + shape.frameLength];
    }
  }

  // Closed form, frame by frame: frame j is the window that starts at sample j * hopLength.
  lemma FeaturesAt(samples: seq<real>, shape: Shape, j: nat)
    requires shape.Valid() && j < WindowCount(|samples|, shape)
    ensures j * shape.hopLength + shape.frameLength <= |samples|
    ensures Features(samples, shape)[j] == Window(samples, shape, j)
  {
    WindowCountIsExact(|samples|, shape, j);
    WindowsPrefix(samples, shape, j + 1, WindowCount(|samples|, shape));
    assert Windows(samples, shape, j + 1)[j] == Window(samples, shape, j);
  }

  lemma FeaturesAreStable(a: seq<real>, b: seq<real>, shape: Shape)
    requires shape.Valid()
    ensures Features(a, shape) <= Features(a + b, shape)
  {
    var m := WindowCount(|a|, shape);
    WindowCountMonotone(|a|, |a + b|, shape);
    WindowsIgnoreLaterSamples(a, b, shape, m);
    WindowsPrefix(a + b, shape, m, WindowCount(|a + b|, shape));
  }

  // What must be kept for later windows always exists and is shorter than one window.
  lemma RetainedTail(n: nat, shape: Shape)
    requires shape.Valid()
    ensures WindowCount(n, shape) * shape.hopLength <= n
    ensures n - WindowCount(n, shape) * shape.hopLength < shape.frameLength
  {
    var count := WindowCount(n, shape);
    WindowCountIsExact(n, shape, count);
    if count > 0 {
      WindowCountIsExact(n, shape, count - 1);
      assert (count - 1) * shape.hopLength + shape.hopLength == count * shape.hopLength;
    } else {
      assert count * shape.hopLength == 0;
    }
  }

  // ----- the streaming object -----

  class StreamingLogBandEncoder {
    const shape: Shape
    var samples: seq<real>
    var startSample: nat
    // All samples accepted since construction or the last reset.
    ghost var Received: seq<real>

    // The retained samples are the tail of the stream from window number `emitted` on.
    ghost predicate Holds(emitted: nat)
      reads this
    {
      && shape.Valid()
      && startSample == emitted * shape.hopLength <= |Received|
      && samples == Received[startSample..]
    }

    ghost predicate Valid()
      reads this
    {
      shape.Valid() && Holds(WindowCount(|Received|, shape))
    }

    constructor (shape: Shape)
      requires shape.Valid()
      ensures Valid() && Received == [] && this.shape == shape
    {
      this.shape := shape;
      samples, startSample, Received := [], 0, [];
      new;
      assert 0 * shape.hopLength == 0;
    }

    method Reset()
      requires shape.Valid()
      modifies this
      ensures Valid() && Received == []
    {
      samples, startSample, Received := [], 0, [];
      assert 0 * shape.hopLength == 0;
    }

    method Process(chunk: seq<real>) returns (r: Result<seq<FeatureFrame>, EncoderError>)
      requires Valid()
      modifies this
      ensures Valid() && |samples| < shape.frameLength
      ensures r.Err? <==> |chunk| > 4_000_000
      ensures r.Err? ==> unchanged(this)
      ensures r.Ok? ==>
        && Received == old(Received) + chunk
        && Features(old(Received), shape) <= Features(Received, shape)
        && r.value == Features(Received, shape)[|Features(old(Received), shape)|..]
    {
      RetainedTail(|Received|, shape);
      if |chunk| > MAXIMUM_SAMPLES_PER_CALL {
        return Err(ChunkExceedsBound);
      }
      FeaturesAreStable(Received, chunk, shape);
      ghost var sent := WindowCount(|Received|, shape);
      samples := samples + chunk;
      Received := Received + chunk;
      var fs := EmitWindows(sent);
      r := Ok(fs);
    }

    method EmitWindows(ghost sent: nat) returns (fs: seq<FeatureFrame>)
      requires shape.Valid() && Holds(sent) && sent <= WindowCount(|Received|, shape)
      modifies this`samples, this`startSample
      ensures Valid() && |samples| < shape.frameLength
      ensures fs == Features(Received, shape)[sent..]
    {
      hide Features, WindowCount, BandValues;
      fs := [];
      ghost var emitted: nat, whole := sent, Features(Received, shape);
      WindowCountIsExact(|Received|, shape, emitted);
      while |samples| >= shape.frameLength
        invariant Holds(emitted) && sent <= emitted <= |whole|
        invariant |samples| >= shape.frameLength <==> emitted < |whole|
        invariant fs == whole[sent..emitted]
        decreases |samples|
      {
        FeaturesAt(Received, shape, emitted);
        var window := samples[..shape.frameLength];
        var values := EncodeBands(window, shape);
        assert window == Received[startSample..startSample + shape.frameLength];
        fs := fs + [FeatureFrame(startSample, values)];
        samples := samples[shape.hopLength..];
        startSample := startSample + shape.hopLength;
        NextMultiple(emitted, shape.hopLength);
        emitted := emitted + 1;
        WindowCountIsExact(|Received|, shape, emitted);
      }
    }
  }

  // The band loop of one window.
  method EncodeBands(window: seq<real>, shape: Shape) returns (values: seq<real>)
    requires shape.Valid() && |window| == shape.frameLength
    ensures values == BandValues(window, shape)
  {
    values := [];
    for band := 0 to shape.bands
      invariant |values| == band
      invariant forall b :: 0 <= b < band ==> values[b] == LogEnergy(window, shape, b)
    {
      BandsPartition(shape, band);
      var begin, end := shape.BandStart(band), shape.BandStart(band + 1);
      var energy := SumSquares(window[begin..end]) / (end - begin) as real;
      values := values + [shape.log(if energy > ENERGY_FLOOR then energy else ENERGY_FLOOR)];
    }
  }
}
