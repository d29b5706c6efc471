// One ordered audio stream: resampling, downmix and feature windows behind a sequence number.
module AudioStreaming {
  import opened Results
  import opened Rationals
  import opened RealNumbers
  import opened LinearResampling
  import LogBandEncoding
  import Totals

  type FeatureFrame = LogBandEncoding.FeatureFrame

  datatype StreamConfig = StreamConfig(
    layout: Layout,
    shape: LogBandEncoding.Shape,
    maximumInputFrames: nat,
    maximumStateBytes: nat)
  {
    predicate Valid() {
      layout.Valid() && shape.Valid() && maximumInputFrames > 0 && 1 <= maximumStateBytes <= 0x4000_0000
    }
  }

  // ----- downmix -----

  function Average(frame: Frame): real {
    if frame == [] then 0.0 else Sum(frame) / |frame| as real
  }

  // The mono signal of a frame sequence.
  function Mono(frames: seq<Frame>): (mono: seq<real>)
    ensures |mono| == |frames|
  {
    seq(|frames|, i requires 0 <= i < |frames| => Average(frames[i]))
  }

  function AverageGroups(samples: seq<real>, channels: nat): seq<real>
    requires channels > 0
  {
    if samples == [] then []
    else if |samples| <= channels then [Sum(samples) / channels as real]
    else [Sum(samples[..channels]) / channels as real] + AverageGroups(samples[channels..], channels)
  }

  function Downmix(samples: seq<real>, channels: nat): seq<real>
    requires channels > 0
  {
    if channels == 1 then samples else AverageGroups(samples, channels)
  }

  lemma {:induction false} FlattenCons(first: Frame, rest: seq<Frame>)
    ensures Flatten([first] + rest) == first + Flatten(rest)
  {
    if rest == [] {
      assert [first] + rest == [] + [first];
      assert ([first] + rest)[..0] == [];
      assert Flatten([first] + rest) == Flatten([]) + first;
    } else {
      var front, last := rest[..|rest| - 1], rest[|rest| - 1];
      FlattenCons(first, front);
      assert ([first] + rest)[..|rest|] == [first] + front;
    }
  }

  lemma SumOfOne(frame: Frame)
    requires |frame| == 1
    ensures Average(frame) == frame[0]
  {
    assert Sum(frame[..0]) == 0.0;
  }

  // Downmixing interleaved frames averages each frame over its channels.
  lemma {:induction false} DownmixFlatten(frames: seq<Frame>, channels: nat)
    requires channels > 0 && Uniform(frames, channels)
    ensures Downmix(Flatten(frames), channels) == Mono(frames)
  {
    if frames == [] {
    } else {
      var first, rest := frames[0], frames[1..];
      assert frames == [first] + rest;
      FlattenCons(first, rest);
      DownmixFlatten(rest, channels);
      assert Mono(frames) == [Average(first)] + Mono(rest);
      assert (first + Flatten(rest))[..channels] == first;
      assert (first + Flatten(rest))[channels..] == Flatten(rest);
      if channels == 1 {
        SumOfOne(first);
      } else if Flatten(rest) == [] {
        assert first + Flatten(rest) == first;
      }
    }
  }

  // ----- what a stream publishes -----

  ghost function SessionFeatures(x: seq<Frame>, final: bool, config: StreamConfig): seq<FeatureFrame>
    requires config.Valid() && Uniform(x, config.layout.channels)
  {
    LogBandEncoding.Features(Mono(Resampled(x, final, config.layout)), config.shape)
  }

  lemma MonoSuffix(whole: seq<Frame>, prefix: seq<Frame>)
    requires prefix <= whole
    ensures Mono(whole) == Mono(prefix) + Mono(whole[|prefix|..])
  {
  }

  lemma SessionFeaturesAreStable(x: seq<Frame>, y: seq<Frame>, final: bool, config: StreamConfig)
    requires config.Valid() && Uniform(x, config.layout.channels) && Uniform(y, config.layout.channels)
    ensures Uniform(x + y, config.layout.channels)
    ensures SessionFeatures(x, false, config) <= SessionFeatures(x + y, final, config)
  {
    OpenOutputIsStable(x, y, config.layout, final);
    var before, after := OpenOutput(x, config.layout), Resampled(x + y, final, config.layout);
    MonoSuffix(after, before);
    LogBandEncoding.FeaturesAreStable(Mono(before), Mono(after[|before|..]), config.shape);
  }

  // What one accepted call publishes when y arrives after x.
  ghost function Increment(x: seq<Frame>, y: seq<Frame>, final: bool, config: StreamConfig): seq<FeatureFrame>
    requires config.Valid() && Uniform(x, config.layout.channels) && Uniform(y, config.layout.channels)
  {
    SessionFeaturesAreStable(x, y, final, config);
    SessionFeatures(x + y, final, config)[|SessionFeatures(x, false, config)|..]
  }

  ghost predicate UniformCut(cut: seq<seq<Frame>>, channels: nat) {
    forall i :: 0 <= i < |cut| ==> Uniform(cut[i], channels)
  }

  ghost function Joined(cut: seq<seq<Frame>>): seq<Frame> {
    if cut == [] then [] else cut[0] + Joined(cut[1..])
  }

  lemma {:induction false} JoinedUniform(cut: seq<seq<Frame>>, channels: nat)
    requires UniformCut(cut, channels)
    ensures Uniform(Joined(cut), channels)
  {
    if cut != [] {
      JoinedUniform(cut[1..], channels);
    }
  }

  // The features of all calls in order, the last call being the final one.
  ghost function Played(x: seq<Frame>, cut: seq<seq<Frame>>, config: StreamConfig): seq<FeatureFrame>
    requires config.Valid() && Uniform(x, config.layout.channels) && UniformCut(cut, config.layout.channels)
    requires cut != []
    decreases |cut|
  {
    if |cut| == 1 then Increment(x, cut[0], true, config)
    else Increment(x, cut[0], false, config) + Played(x + cut[0], cut[1..], config)
  }

  lemma {:induction false} PlayedCompletesStream(x: seq<Frame>, cut: seq<seq<Frame>>, config: StreamConfig)
    requires config.Valid() && Uniform(x, config.layout.channels) && UniformCut(cut, config.layout.channels)
    requires cut != []
    ensures Uniform(x + Joined(cut), config.layout.channels)
    ensures SessionFeatures(x, false, config) + Played(x, cut, config)
      == SessionFeatures(x + Joined(cut), true, config)
    decreases |cut|
  {
    hide SessionFeatures;
    JoinedUniform(cut, config.layout.channels);
    SessionFeaturesAreStable(x, cut[0], |cut| == 1, config);
    if |cut| == 1 {
      assert Joined(cut) == cut[0];
    } else {
      PlayedCompletesStream(x + cut[0], cut[1..], config);
      assert x + Joined(cut) == x + cut[0] + Joined(cut[1..]);
      calc {
        SessionFeatures(x, false, config) + Played(x, cut, config);
        SessionFeatures(x, false, config) + (Increment(x, cut[0], false, config) + Played(x + cut[0], cut[1..], config));
        SessionFeatures(x, false, config) + Increment(x, cut[0], false, config) + Played(x + cut[0], cut[1..], config);
        SessionFeatures(x + cut[0], false, config) + Played(x + cut[0], cut[1..], config);
      }
    }
  }

  lemma PlayedFromStart(cut: seq<seq<Frame>>, config: StreamConfig)
    requires config.Valid() && UniformCut(cut, config.layout.channels) && cut != []
    ensures Uniform(Joined(cut), config.layout.channels)
    ensures Played([], cut, config) == SessionFeatures(Joined(cut), true, config)
  {
    NothingBeforeInput(config);
    hide SessionFeatures, Played;
    PlayedCompletesStream([], cut, config);
    assert [] + Joined(cut) == Joined(cut);
  }

  // However a stream is cut into calls, the same features come out.
  lemma ChunkInvariance(a: seq<seq<Frame>>, b: seq<seq<Frame>>, config: StreamConfig)
    requires config.Valid() && UniformCut(a, config.layout.channels) && UniformCut(b, config.layout.channels)
    requires a != [] && b != [] && Joined(a) == Joined(b)
    ensures Played([], a, config) == Played([], b, config)
  {
    hide *;
    PlayedFromStart(a, config);
    PlayedFromStart(b, config);
  }

  lemma NothingBeforeInput(config: StreamConfig)
    requires config.Valid()
    ensures SessionFeatures([], false, config) == []
  {
  }

  // ----- interleaved chunks of one flat sample stream -----

  datatype Chunk = Chunk(samples: seq<real>, frameCount: nat)

  ghost predicate ExactChunks(chunks: seq<Chunk>, channels: nat) {
    forall i :: 0 <= i < |chunks| ==> |chunks[i].samples| == chunks[i].frameCount * channels
  }

  ghost predicate ReadableChunks(chunks: seq<Chunk>, channels: nat) {
    forall i :: 0 <= i < |chunks| ==> chunks[i].frameCount * channels <= |chunks[i].samples|
  }

  ghost function CutOf(chunks: seq<Chunk>, channels: nat): (cut: seq<seq<Frame>>)
    requires ReadableChunks(chunks, channels)
    ensures |cut| == |chunks| && UniformCut(cut, channels)
    ensures forall i :: 0 <= i < |cut| ==> cut[i] == Deinterleave(chunks[i].samples, chunks[i].frameCount, channels)
  {
    if chunks == [] then [] else
      DeinterleaveShape(chunks[0].samples, chunks[0].frameCount, channels);
      [Deinterleave(chunks[0].samples, chunks[0].frameCount, channels)] + CutOf(chunks[1..], channels)
  }

  ghost function Samples(chunks: seq<Chunk>): seq<real> {
    if chunks == [] then [] else chunks[0].samples + Samples(chunks[1..])
  }

  ghost function FrameTotal(chunks: seq<Chunk>): nat {
    if chunks == [] then 0 else chunks[0].frameCount + FrameTotal(chunks[1..])
  }

  lemma {:induction false} DeinterleaveConcat(a: seq<real>, n: nat, b: seq<real>, m: nat, channels: nat)
    requires |a| == n * channels && m * channels <= |b|
    ensures (n + m) * channels <= |a + b|
    ensures Deinterleave(a + b, n + m, channels) == Deinterleave(a, n, channels) + Deinterleave(b, m, channels)
  {
    assert (n + m) * channels == n * channels + m * channels;
    if m == 0 {
      DeinterleaveIgnoresRest(a, b, n, channels);
    } else {
      NextMultiple(m - 1, channels);
      NextMultiple(n + m - 1, channels);
      DeinterleaveConcat(a, n, b, m - 1, channels);
      assert (a + b)[(n + m - 1) * channels..(n + m) * channels] == b[(m - 1) * channels..m * channels];
    }
  }

  lemma {:induction false} DeinterleaveIgnoresRest(a: seq<real>, b: seq<real>, n: nat, channels: nat)
    requires n * channels <= |a|
    ensures Deinterleave(a + b, n, channels) == Deinterleave(a, n, channels)
  {
    if n > 0 {
      NextMultiple(n - 1, channels);
      DeinterleaveIgnoresRest(a, b, n - 1, channels);
      assert (a + b)[(n - 1) * channels..n * channels] == a[(n - 1) * channels..n * channels];
    }
  }

  // The frames of exact chunks are the frames of the flat stream they were cut from.
  lemma {:induction false} ChunksAreCuts(chunks: seq<Chunk>, channels: nat)
    requires ExactChunks(chunks, channels)
    ensures ReadableChunks(chunks, channels)
    ensures FrameTotal(chunks) * channels == |Samples(chunks)|
    ensures Joined(CutOf(chunks, channels)) == Deinterleave(Samples(chunks), FrameTotal(chunks), channels)
  {
    if chunks != [] {
      var first, rest := chunks[0], chunks[1..];
      ChunksAreCuts(rest, channels);
      assert (first.frameCount + FrameTotal(rest)) * channels
        == first.frameCount * channels + FrameTotal(rest) * channels;
      DeinterleaveConcat(first.samples, first.frameCount, Samples(rest), FrameTotal(rest), channels);
      assert CutOf(chunks, channels)[1..] == CutOf(rest, channels);
    }
  }

  // Two ways of cutting one interleaved sample stream publish the same features.
  lemma SameSamplesSameFeatures(a: seq<Chunk>, b: seq<Chunk>, config: StreamConfig)
    requires config.Valid() && a != [] && b != []
    requires ExactChunks(a, config.layout.channels) && ExactChunks(b, config.layout.channels)
    requires Samples(a) == Samples(b)
    ensures ReadableChunks(a, config.layout.channels) && ReadableChunks(b, config.layout.channels)
    ensures Played([], CutOf(a, config.layout.channels), config) == Played([], CutOf(b, config.layout.channels), config)
  {
    var channels := config.layout.channels;
    ChunksAreCuts(a, channels);
    ChunksAreCuts(b, channels);
    MulLess(FrameTotal(a), FrameTotal(b), channels);
    MulLess(FrameTotal(b), FrameTotal(a), channels);
    ChunkInvariance(CutOf(a, channels), CutOf(b, channels), config);
  }

  // ----- when the feature stage can refuse a chunk the resampler already took -----

  ghost function FreshOutputs(n: nat, added: nat, final: bool, layout: Layout): int
    requires layout.Valid()
  {
    (if final then FinishedCount(n + added, layout) else EmittedCount(n + added, layout)) - EmittedCount(n, layout)
  }

  // A first chunk within the resampler's own bound can overflow the feature stage.
  lemma UpsampledChunkCanExceedFeatureBound()
    ensures FreshOutputs(0, MAXIMUM_FRAMES_PER_CALL, false, Layout(8_000, 48_000, 1)) > LogBandEncoding.MAXIMUM_SAMPLES_PER_CALL
  {
  }

  lemma RatioBound(n: nat, m: nat, k: nat, inRate: nat, outRate: nat)
    requires 0 < inRate && outRate <= 4 * inRate && m >= n && k * inRate < (m - n) * outRate
    ensures k < 4 * (m - n)
  {
    assert (m - n) * outRate <= (m - n) * (4 * inRate) by {
      assert (m - n) * (4 * inRate - outRate) >= 0;
    }
    assert (m - n) * (4 * inRate) == (4 * (m - n)) * inRate;
    MulLess(k, 4 * (m - n), inRate);
  }

  // Up to fourfold upsampling, shorter chunks are never refused.
  lemma ModerateUpsamplingIsAccepted(n: nat, added: nat, final: bool, layout: Layout)
    requires layout.Valid() && layout.outputRate <= 4 * layout.inputRate
    requires added < MAXIMUM_FRAMES_PER_CALL
    ensures FreshOutputs(n, added, final, layout) <= LogBandEncoding.MAXIMUM_SAMPLES_PER_CALL
  {
    var inRate, outRate, sent := layout.inputRate, layout.outputRate, EmittedCount(n, layout);
    SentCoversPosition(n, layout);
    EmittedBound(n, added, layout);
    if final {
      TargetBound(n, added, layout);
    }
  }

  lemma SentCoversPosition(n: nat, layout: Layout)
    requires layout.Valid()
    ensures EmittedCount(n, layout) * layout.inputRate + layout.outputRate >= n * layout.outputRate
  {
    EmittedCountIsExact(n, layout, EmittedCount(n, layout));
  }

  lemma EmittedBound(n: nat, added: nat, layout: Layout)
    requires layout.Valid() && layout.outputRate <= 4 * layout.inputRate
    ensures EmittedCount(n + added, layout) - EmittedCount(n, layout) <= 4 * added
  {
    hide EmittedCount;
    var sent, all := EmittedCount(n, layout), EmittedCount(n + added, layout);
    if all > sent {
      SentCoversPosition(n, layout);
      EmittedCountIsExact(n + added, layout, all - 1);
      assert (all - 1) * layout.inputRate == (all - 1 - sent) * layout.inputRate + sent * layout.inputRate;
      assert (n + added) * layout.outputRate == n * layout.outputRate + added * layout.outputRate;
      RatioBound(n, n + added, all - 1 - sent, layout.inputRate, layout.outputRate);
    }
  }

  lemma TargetBound(n: nat, added: nat, layout: Layout)
    requires layout.Valid() && layout.outputRate <= 4 * layout.inputRate
    ensures RoundedTarget(n + added, layout) - EmittedCount(n, layout) <= 4 * (added + 1)
  {
    hide EmittedCount, RoundedTarget;
    var sent, target := EmittedCount(n, layout), RoundedTarget(n + added, layout);
    SentCoversPosition(n, layout);
    TargetIsNearest(n + added, layout);
    TargetBoundArithmetic(n, added, sent, target, layout.inputRate, layout.outputRate);
  }

  lemma TargetIsNearest(n: nat, layout: Layout)
    requires layout.Valid()
    ensures 2 * (RoundedTarget(n, layout) * layout.inputRate - n * layout.outputRate) <= layout.inputRate
  {
    RoundHalfEvenIsNearest(n * layout.outputRate, layout.inputRate);
  }

  lemma TargetBoundArithmetic(n: nat, added: nat, sent: nat, target: nat, inRate: nat, outRate: nat)
    requires 0 < inRate && 0 < outRate <= 4 * inRate
    requires sent * inRate + outRate >= n * outRate
    requires 2 * (target * inRate - (n + added) * outRate) <= inRate
    ensures target - sent <= 4 * (added + 1)
  {
    if target > sent {
      assert target * inRate == (target - sent - 1) * inRate + sent * inRate + inRate;
      assert (n + added) * outRate == n * outRate + added * outRate;
      NextMultiple(added, outRate);
      RatioBound(0, added + 1, target - sent - 1, inRate, outRate);
    }
  }

  // ----- the session object -----

  datatype IngestError =
    | SessionClosed
    | UnexpectedSequence(expected: nat)
    | FrameBudgetExceeded
    | UnreadableChunk
    | FeatureChunkTooLarge

  datatype StreamUpdate = StreamUpdate(
    sequence: nat,
    inputFrames: nat,
    resampledFrames: nat,
    totalInputFrames: nat,
    totalResampledFrames: nat,
    features: seq<FeatureFrame>,
    final: bool)

  datatype StateError = ClosedForState | StateBudgetExceeded

  type Bytes = seq<bv8>

  ghost function Lengths(states: map<string, Bytes>): map<string, nat> {
    map name | name in states :: |states[name]|
  }

  class StreamingAudioSession {
    const config: StreamConfig
    const resampler: StreamingLinearResampler
    const encoder: LogBandEncoding.StreamingLogBandEncoder
    var nextSequence: nat
    var totalInputFrames: nat
    var totalResampledFrames: nat
    var states: map<string, Bytes>
    var stateBytes: nat
    var closed: bool
    // The input frames of all accepted calls, the features those calls returned, and whether
    // one of them was final.
    ghost var Received: seq<Frame>
    ghost var Published: seq<FeatureFrame>
    ghost var Finished: bool
    // False once the feature stage refused a chunk that the resampler had already taken.
    ghost var InStep: bool

    ghost predicate StagesValid()
      reads this, resampler, encoder
    {
      && config.Valid()
      && resampler.Valid() && resampler.layout == config.layout
      && encoder.Valid() && encoder.shape == config.shape
    }

    // The counters and the published features are those of the accepted frames.
    ghost predicate Accounts()
      requires config.Valid()
      reads this
    {
      && Uniform(Received, config.layout.channels)
      && totalInputFrames == |Received| <= config.maximumInputFrames
      && (Finished ==> closed)
      && (InStep ==> Published == SessionFeatures(Received, Finished, config))
      && (InStep ==> totalResampledFrames == |Resampled(Received, Finished, config.layout)|)
    }

    ghost predicate StateBudget()
      reads this`states, this`stateBytes
    {
      stateBytes == Totals.Total(Lengths(states)) <= config.maximumStateBytes
    }

    // Both stages have seen exactly the accepted stream.
    ghost predicate StagesInStep()
      requires config.Valid() && Uniform(Received, config.layout.channels)
      reads this, resampler, encoder
    {
      && resampler.Received == Received
      && encoder.Received == Mono(OpenOutput(Received, config.layout))
    }

    ghost predicate Valid()
      reads this, resampler, encoder
    {
      && StagesValid()
      && Accounts()
      && StateBudget()
      && (InStep && !closed ==> StagesInStep())
    }

    constructor (config: StreamConfig)
      requires config.Valid()
      ensures Valid() && fresh(resampler) && fresh(encoder)
      ensures this.config == config && !closed && InStep && !Finished
      ensures Received == [] && Published == [] && nextSequence == 0
    {
      this.config := config;
      resampler := new StreamingLinearResampler(config.layout);
      encoder := new LogBandEncoding.StreamingLogBandEncoder(config.shape);
      nextSequence, totalInputFrames, totalResampledFrames := 0, 0, 0;
      states, stateBytes, closed := map[], 0, false;
      Received, Published, Finished, InStep := [], [], false, true;
      new;
      NothingBeforeInput(config);
      assert Lengths(states) == map[];
    }

    // Why a call is refused before any stage sees it, if it is.
    ghost function Refusal(sequence: int, samples: seq<real>, frameCount: int): Option<IngestError>
      reads this
    {
      if closed then Some(SessionClosed)
      else if sequence != nextSequence then Some(UnexpectedSequence(nextSequence))
      else if frameCount < 0 || totalInputFrames + frameCount > config.maximumInputFrames then Some(FrameBudgetExceeded)
      else if frameCount > MAXIMUM_FRAMES_PER_CALL || frameCount * config.layout.channels > |samples| then Some(UnreadableChunk)
      else None
    }

    // An accepted call: the counters advance and, while the stages are in step, the call
    // publishes exactly what its frames add to the stream.
    twostate predicate Accepted(sequence: int, samples: seq<real>, frameCount: nat, final: bool, update: StreamUpdate)
      requires config.Valid() && Uniform(old(Received), config.layout.channels)
      requires frameCount * config.layout.channels <= |samples|
      requires frameCount <= MAXIMUM_FRAMES_PER_CALL
      reads this
    {
      var added := Deinterleave(samples, frameCount, config.layout.channels);
      DeinterleaveShape(samples, frameCount, config.layout.channels);
      && update.sequence == sequence == old(nextSequence) && nextSequence == sequence + 1
      && update.inputFrames == frameCount
      && update.totalInputFrames == totalInputFrames == old(totalInputFrames) + frameCount
      && update.totalResampledFrames == totalResampledFrames == old(totalResampledFrames) + update.resampledFrames
      && update.final == final == closed == Finished
      && InStep == old(InStep)
      && Received == old(Received) + added
      && Published == old(Published) + update.features
      && (InStep ==> update.features == Increment(old(Received), added, final, config))
      && (InStep ==> update.resampledFrames == FreshOutputs(|old(Received)|, frameCount, final, config.layout))
    }

    // A call refused by the feature stage: the resampler has consumed the chunk although the
    // session still expects it.
    twostate predicate LostStep(samples: seq<real>, frameCount: nat, final: bool)
      requires frameCount * config.layout.channels <= |samples|
      reads this, resampler, encoder
    {
      && unchanged(`nextSequence) && unchanged(`totalInputFrames) && unchanged(`totalResampledFrames)
      && unchanged(`Received) && unchanged(`Published) && unchanged(`closed) && unchanged(`Finished)
      && unchanged(encoder) && !InStep
      && resampler.Received == if final then [] else
           old(resampler.Received) + Deinterleave(samples, frameCount, config.layout.channels)
    }

    method Ingest(sequence: int, samples: seq<real>, frameCount: int, final: bool) returns (r: Result<StreamUpdate, IngestError>)
      requires Valid()
      modifies this, resampler, encoder
      ensures Valid()
      ensures old(Refusal(sequence, samples, frameCount)).Some? ==>
        && r == Err(old(Refusal(sequence, samples, frameCount)).value)
        && unchanged(this) && unchanged(resampler) && unchanged(encoder)
      ensures r == Err(SessionClosed) <==> old(closed)
      ensures r == Err(UnexpectedSequence(old(nextSequence))) <==> !old(closed) && sequence != old(nextSequence)
      ensures r == Err(FrameBudgetExceeded) <==>
        && !old(closed) && sequence == old(nextSequence)
        && (frameCount < 0 || old(totalInputFrames) + frameCount > config.maximumInputFrames)
      ensures r == Err(UnreadableChunk) <==>
        && !old(closed) && sequence == old(nextSequence)
        && 0 <= frameCount <= config.maximumInputFrames - old(totalInputFrames)
        && (frameCount > 1_000_000 || frameCount * config.layout.channels > |samples|)
      ensures old(Refusal(sequence, samples, frameCount)).None? ==>
        if r.Ok? then Accepted(sequence, samples, frameCount, final, r.value)
        else r.error == FeatureChunkTooLarge && LostStep(samples, frameCount, final)
      ensures old(Refusal(sequence, samples, frameCount)).None? && old(InStep) ==>
        (r.Err? <==> FreshOutputs(|old(Received)|, frameCount, final, config.layout) > 4_000_000)
      ensures unchanged(`states) && unchanged(`stateBytes)
    {
      hide Increment, FreshOutputs, Uniform;
      if closed {
        return Err(SessionClosed);
      }
      if sequence != nextSequence {
        return Err(UnexpectedSequence(nextSequence));
      }
      if frameCount < 0 || totalInputFrames + frameCount > config.maximumInputFrames {
        return Err(FrameBudgetExceeded);
      }
      if !(frameCount <= MAXIMUM_FRAMES_PER_CALL && frameCount * config.layout.channels <= |samples|) {
        return Err(UnreadableChunk);
      }
      r := IngestAdmitted(sequence, samples, frameCount, final);
    }

    method IngestAdmitted(sequence: int, samples: seq<real>, frameCount: nat, final: bool)
      returns (r: Result<StreamUpdate, IngestError>)
      requires Valid() && Refusal(sequence, samples, frameCount).None?
      modifies this`nextSequence, this`totalInputFrames, this`totalResampledFrames, this`closed
      modifies this`Received, this`Published, this`Finished, this`InStep, resampler, encoder
      ensures Valid()
      ensures if r.Ok? then Accepted(sequence, samples, frameCount, final, r.value)
        else r.error == FeatureChunkTooLarge && LostStep(samples, frameCount, final)
      ensures old(InStep) ==>
        (r.Err? <==> FreshOutputs(|old(Received)|, frameCount, final, config.layout) > LogBandEncoding.MAXIMUM_SAMPLES_PER_CALL)
    {
      hide SessionFeatures, Increment, FreshOutputs, OpenOutput, FinishedOutput, LogBandEncoding.Features, Mono, Totals.Total;
      hide Deinterleave, EmittedCount, FinishedCount, LogBandEncoding.WindowCount, Lengths;
      hide StateBudget, StreamingLinearResampler.Valid, LogBandEncoding.StreamingLogBandEncoder.Valid;
      ghost var added := Deinterleave(samples, frameCount, config.layout.channels);
      DeinterleaveShape(samples, frameCount, config.layout.channels);
      var stages, emitted := RunStages(samples, frameCount, final);
      if InStep {
        StageComposition(Received, added, emitted, final, config);
        if stages.Some? {
          ConcatCancel(Published, stages.value.1, Increment(Received, added, final, config));
        }
      }
      if stages.None? {
        InStep := false;
        return Err(FeatureChunkTooLarge);
      }
      var (resampledFrames, features) := stages.value;
      Commit(frameCount, resampledFrames, features, final, added);
      r := Ok(StreamUpdate(sequence, frameCount, resampledFrames, totalInputFrames, totalResampledFrames, features, final));
    }

    // The counters and the history after the stages have taken a chunk.
    method Commit(frameCount: nat, resampledFrames: nat, features: seq<FeatureFrame>, final: bool, ghost added: seq<Frame>)
      requires config.Valid() && Accounts() && !closed && totalInputFrames + frameCount <= config.maximumInputFrames
      requires |added| == frameCount && Uniform(added, config.layout.channels) && Uniform(Received + added, config.layout.channels)
      requires InStep ==>
        && Published + features == SessionFeatures(Received + added, final, config)
        && totalResampledFrames + resampledFrames == |Resampled(Received + added, final, config.layout)|
      modifies this`nextSequence, this`totalInputFrames, this`totalResampledFrames, this`closed
      modifies this`Received, this`Published, this`Finished
      ensures Accounts() && closed == Finished == final && nextSequence == old(nextSequence) + 1
      ensures totalInputFrames == old(totalInputFrames) + frameCount
      ensures totalResampledFrames == old(totalResampledFrames) + resampledFrames
      ensures Received == old(Received) + added && Published == old(Published) + features
    {
      hide SessionFeatures, Resampled, Uniform;
      nextSequence := nextSequence + 1;
      totalInputFrames := totalInputFrames + frameCount;
      totalResampledFrames := totalResampledFrames + resampledFrames;
      Received, Published := Received + added, Published + features;
      if final {
        closed, Finished := true, true;
      }
    }

    // Resampler, downmix and feature windows, one after the other; None when the last refuses.
    method RunStages(samples: seq<real>, frameCount: nat, final: bool)
      returns (r: Option<(nat, seq<FeatureFrame>)>, ghost emitted: seq<Frame>)
      requires resampler.Valid() && encoder.Valid()
      requires frameCount <= MAXIMUM_FRAMES_PER_CALL && frameCount * resampler.layout.channels <= |samples|
      requires resampler.layout == config.layout && encoder.shape == config.shape
      modifies resampler, encoder
      ensures resampler.Valid() && encoder.Valid()
      ensures
        var base, added := old(resampler.Received), Deinterleave(samples, frameCount, config.layout.channels);
        && Uniform(base, config.layout.channels) && Uniform(base + added, config.layout.channels)
        && resampler.Received == (if final then [] else base + added)
        && OpenOutput(base, config.layout) + emitted == Resampled(base + added, final, config.layout)
      ensures r.None? <==> |emitted| > LogBandEncoding.MAXIMUM_SAMPLES_PER_CALL
      ensures r.None? ==> unchanged(encoder)
      ensures r.Some? ==>
        && r.value.0 == |emitted|
        && encoder.Received == old(encoder.Received) + Mono(emitted)
        && LogBandEncoding.Features(old(encoder.Received), config.shape) + r.value.1
           == LogBandEncoding.Features(encoder.Received, config.shape)
    {
      hide Resampled, OpenOutput, LogBandEncoding.Features, Deinterleave;
      var channels := config.layout.channels;
      ghost var base, added := resampler.Received, Deinterleave(samples, frameCount, channels);
      var taken := resampler.Process(samples, frameCount, final);
      emitted := Resampled(base + added, final, config.layout)[|OpenOutput(base, config.layout)|..];
      FlattenLength(emitted, channels);
      MulCancel(|emitted|, channels);
      DownmixFlatten(emitted, channels);
      var encoded := encoder.Process(Downmix(taken.value, channels));
      r := if encoded.Err? then None else Some((|taken.value| / channels, encoded.value));
    }

    method SetRecurrentState(name: string, payload: Bytes) returns (r: Result<(), StateError>)
      requires Valid()
      modifies this`states, this`stateBytes
      ensures Valid()
      ensures r == Err(ClosedForState) <==> closed
      ensures r == Err(StateBudgetExceeded)
        <==> (!closed && Totals.Total(Lengths(old(states)[name := payload])) > config.maximumStateBytes)
      ensures states == if r.Ok? then old(states)[name := payload] else old(states)
      ensures stateBytes == old(stateBytes)
        + if r.Err? then 0 else |payload| - if name in old(states) then |old(states)[name]| else 0
    {
      if closed {
        return Err(ClosedForState);
      }
      var previous: Bytes := if name in states then states[name] else [];
      hide StagesValid, Accounts;
      Totals.TotalUpdate(Lengths(states), name, |payload|);
      assert Lengths(states[name := payload]) == Lengths(states)[name := |payload|];
      var resultingSize := stateBytes - |previous| + |payload|;
      if resultingSize > config.maximumStateBytes {
        return Err(StateBudgetExceeded);
      }
      states, stateBytes := states[name := payload], resultingSize;
      r := Ok(());
    }

    method Close()
      requires Valid()
      modifies this, resampler, encoder
      ensures Valid() && closed && states == map[]
      ensures resampler.Received == [] && encoder.Received == []
      ensures unchanged(this`Received) && unchanged(this`Published) && unchanged(this`Finished)
    {
      hide SessionFeatures, Resampled, Deinterleave, Uniform;
      closed := true;
      resampler.Reset();
      encoder.Reset();
      states, stateBytes := map[], 0;
      assert Lengths(states) == map[];
    }
  }

  lemma MulCancel(a: nat, b: nat)
    requires b > 0
    ensures a * b / b == a
  {
    DivModShift(a, 0, b);
  }

  lemma ConcatCancel<T>(a: seq<T>, b: seq<T>, c: seq<T>)
    requires a + b == a + c
    ensures b == c
  {
    assert b == (a + b)[|a|..] && c == (a + c)[|a|..];
  }

  // The three stages in sequence turn the fresh frames of a chunk into its increment.
  lemma StageComposition(x: seq<Frame>, y: seq<Frame>, emitted: seq<Frame>, final: bool, config: StreamConfig)
    requires config.Valid() && Uniform(x, config.layout.channels) && Uniform(y, config.layout.channels)
    requires Uniform(x + y, config.layout.channels)
    requires OpenOutput(x, config.layout) + emitted == Resampled(x + y, final, config.layout)
    ensures |emitted| == FreshOutputs(|x|, |y|, final, config.layout)
    ensures Mono(OpenOutput(x, config.layout)) + Mono(emitted) == Mono(Resampled(x + y, final, config.layout))
    ensures LogBandEncoding.Features(Mono(OpenOutput(x, config.layout)), config.shape) == SessionFeatures(x, false, config)
    ensures LogBandEncoding.Features(Mono(Resampled(x + y, final, config.layout)), config.shape)
      == SessionFeatures(x + y, final, config)
      == SessionFeatures(x, false, config) + Increment(x, y, final, config)
  {
    hide OpenOutput, FinishedOutput, LogBandEncoding.Features, Mono, EmittedCount, FinishedCount, LogBandEncoding.WindowCount;
    SessionFeaturesAreStable(x, y, final, config);
    MonoSuffix(Resampled(x + y, final, config.layout), OpenOutput(x, config.layout));
  }

  // Plays a whole stream through one session, the last chunk being the final one.
  method PlayStream(config: StreamConfig, chunks: seq<Chunk>) returns (played: Option<seq<FeatureFrame>>, total: nat)
    requires config.Valid() && chunks != [] && ReadableChunks(chunks, config.layout.channels)
    ensures played.Some? ==>
      var x := Joined(CutOf(chunks, config.layout.channels));
      && Uniform(x, config.layout.channels)
      && played.value == Played([], CutOf(chunks, config.layout.channels), config)
      && played.value == SessionFeatures(x, true, config)
      && total == FinishedCount(|x|, config.layout)
    // Nothing but a bound stops a stream.
    ensures FrameTotal(chunks) <= config.maximumInputFrames && config.layout.outputRate <= 4 * config.layout.inputRate
      && (forall i :: 0 <= i < |chunks| ==> chunks[i].frameCount < MAXIMUM_FRAMES_PER_CALL)
      ==> played.Some?
  {
    var session := new StreamingAudioSession(config);
    var features: seq<FeatureFrame> := [];
    ghost var cut := CutOf(chunks, config.layout.channels);
    JoinedUniform(cut, config.layout.channels);
    PlayedFromStart(cut, config);
    assert Joined(cut[..0]) == [] && FrameTotal(chunks[..0]) == 0;
    hide Joined, FrameTotal, StreamingAudioSession.StateBudget, StreamingAudioSession.StagesInStep, Mono;
    hide SessionFeatures, Increment, Played, Deinterleave, CutOf, EmittedCount, FinishedCount, OpenOutput, FinishedOutput;
    hide StreamingLinearResampler.Valid, LogBandEncoding.StreamingLogBandEncoder.Valid, FreshOutputs;
    for i := 0 to |chunks|
      invariant session.Valid() && session.config == config && session.InStep && fresh(session) && fresh(session.resampler) && fresh(session.encoder)
      invariant session.Received == Joined(cut[..i]) && features == session.Published
      invariant session.nextSequence == i && |session.Received| == FrameTotal(chunks[..i])
      invariant session.closed == session.Finished == (i == |chunks|)
    {
      var r := session.Ingest(i, chunks[i].samples, chunks[i].frameCount, i == |chunks| - 1);
      JoinedSnoc(cut, i);
      FrameTotalSnoc(chunks, i);
      if r.Err? {
        if config.layout.outputRate <= 4 * config.layout.inputRate && chunks[i].frameCount < MAXIMUM_FRAMES_PER_CALL {
          ModerateUpsamplingIsAccepted(FrameTotal(chunks[..i]), chunks[i].frameCount, i == |chunks| - 1, config.layout);
        }
        FrameTotalPrefix(chunks, i + 1);
        return None, 0;
      }
      DeinterleaveShape(chunks[i].samples, chunks[i].frameCount, config.layout.channels);
      features := features + r.value.features;
    }
    assert cut[..|chunks|] == cut;
    return Some(features), session.totalResampledFrames;
  }

  lemma {:induction false} JoinedSnoc(cut: seq<seq<Frame>>, i: nat)
    requires i < |cut|
    ensures Joined(cut[..i + 1]) == Joined(cut[..i]) + cut[i]
  {
    if i == 0 {
      assert cut[..1][1..] == [] && cut[..1][0] == cut[0];
    } else {
      JoinedSnoc(cut[1..], i - 1);
      assert cut[..i][1..] == cut[1..][..i - 1] && cut[..i + 1][1..] == cut[1..][..i];
    }
  }

  lemma {:induction false} FrameTotalConcat(a: seq<Chunk>, b: seq<Chunk>)
    ensures FrameTotal(a + b) == FrameTotal(a) + FrameTotal(b)
  {
    if a == [] {
      assert a + b == b;
    } else {
      FrameTotalConcat(a[1..], b);
      assert (a + b)[1..] == a[1..] + b;
    }
  }

  lemma FrameTotalSnoc(chunks: seq<Chunk>, i: nat)
    requires i < |chunks|
    ensures FrameTotal(chunks[..i + 1]) == FrameTotal(chunks[..i]) + chunks[i].frameCount
  {
    FrameTotalConcat(chunks[..i], [chunks[i]]);
    assert chunks[..i + 1] == chunks[..i] + [chunks[i]];
  }

  lemma FrameTotalPrefix(chunks: seq<Chunk>, i: nat)
    requires i <= |chunks|
    ensures FrameTotal(chunks[..i]) <= FrameTotal(chunks)
  {
    FrameTotalConcat(chunks[..i], chunks[i..]);
    assert chunks == chunks[..i] + chunks[i..];
  }
}
