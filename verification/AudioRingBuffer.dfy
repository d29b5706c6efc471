// A preallocated ring of interleaved frames between one producer and one consumer.
module AudioRingBuffering {
  import opened Results
  import opened Rationals
  import opened LinearResampling

  // What a producer hands in: a number, or an infinity or not-a-number.
  datatype Sample = Finite(value: real) | NonFinite

  datatype WriteError = InvalidProducerInput | NonFiniteSample

  datatype ReadError = InvalidConsumerOutput

  function Values(samples: seq<Sample>): (values: seq<real>)
    ensures |values| == |samples|
    ensures forall i :: 0 <= i < |samples| && samples[i].Finite? ==> values[i] == samples[i].value
  {
    seq(|samples|, i requires 0 <= i < |samples| => if samples[i].Finite? then samples[i].value else 0.0)
  }

  // A sample of an accepted frame comes out as it was handed in, where the consumer reads that frame.
  lemma SampleIsDelivered(source: seq<Sample>, accepted: nat, channels: nat, i: nat, c: nat)
    returns (frames: seq<Frame>, position: nat)
    requires accepted * channels <= |source| && i < accepted && c < channels
    requires forall j :: 0 <= j < accepted * channels ==> source[j].Finite?
    ensures frames == Deinterleave(Values(source), accepted, channels) && position == i * channels + c
    ensures |frames| == accepted && |frames[i]| == channels && position < |Flatten(frames)| && position < |source|
    ensures source[position].Finite? && Flatten(frames)[position] == frames[i][c] == source[position].value
  {
    hide Deinterleave, Flatten;
    frames, position := Deinterleave(Values(source), accepted, channels), i * channels + c;
    DeinterleaveShape(Values(source), accepted, channels);
    FrameSample(Values(source), accepted, channels, i, c);
    FlattenedSample(frames, channels, i, c);
    FrameFits(i, accepted, channels);
  }

  // ----- positions on the ring -----

  function Slot(start: nat, k: nat, capacity: nat): (slot: nat)
    requires capacity > 0
    ensures slot < capacity
  {
    (start + k) % capacity
  }

  lemma SlotWraps(start: nat, k: nat, capacity: nat)
    requires capacity > 0 && start < capacity && k <= capacity
    ensures Slot(start, k, capacity) == if start + k < capacity then start + k else start + k - capacity
  {
    if start + k >= capacity {
      DivModShift(1, start + k - capacity, capacity);
    }
  }

  lemma SlotsDiffer(start: nat, j: nat, k: nat, capacity: nat)
    requires capacity > 0 && start < capacity && j < k < capacity
    ensures Slot(start, j, capacity) != Slot(start, k, capacity)
  {
    SlotWraps(start, j, capacity);
    SlotWraps(start, k, capacity);
  }

  lemma SlotAdvance(start: nat, j: nat, k: nat, capacity: nat)
    requires capacity > 0 && start < capacity && j + k <= capacity
    ensures Slot(Slot(start, j, capacity), k, capacity) == Slot(start, j + k, capacity)
  {
    SlotWraps(start, j, capacity);
    SlotWraps(start, j + k, capacity);
    SlotWraps(Slot(start, j, capacity), k, capacity);
  }

  // ----- frames inside a flat sample buffer -----

  lemma FrameFits(k: nat, count: nat, channels: nat)
    requires k < count
    ensures k * channels + channels <= count * channels
  {
    NextMultiple(k, channels);
    if channels > 0 {
      MulLess(k + 1, count, channels);
    }
  }

  lemma {:induction false} DeinterleaveAt(flat: seq<real>, count: nat, channels: nat, k: nat)
    requires count * channels <= |flat| && k < count
    ensures k * channels + channels <= |flat| && |Deinterleave(flat, count, channels)| == count
    ensures Deinterleave(flat, count, channels)[k] == flat[k * channels..k * channels + channels]
  {
    FrameFits(k, count, channels);
    DeinterleaveShape(flat, count, channels);
    NextMultiple(count - 1, channels);
    if k < count - 1 {
      DeinterleaveAt(flat, count - 1, channels, k);
      DeinterleaveShape(flat, count - 1, channels);
    }
  }

  lemma SlotKept(before: seq<real>, after: seq<real>, count: nat, channels: nat, slot: nat, k: nat)
    requires |before| == |after| == count * channels && slot < count && k < count && k != slot
    requires forall i :: 0 <= i < |before| && !(slot * channels <= i < slot * channels + channels) ==> after[i] == before[i]
    ensures k * channels + channels <= count * channels
    ensures after[k * channels..k * channels + channels] == before[k * channels..k * channels + channels]
  {
    FrameFits(k, count, channels);
    if k < slot {
      FrameFits(k, slot, channels);
    } else {
      FrameFits(slot, k, channels);
    }
  }

  // Writing inside one slot leaves the frames of the others alone.
  lemma OtherSlotsKept(before: seq<real>, after: seq<real>, count: nat, channels: nat, slot: nat)
    requires |before| == |after| == count * channels && slot < count
    requires forall i :: 0 <= i < |before| && !(slot * channels <= i < slot * channels + channels) ==> after[i] == before[i]
    ensures slot * channels + channels <= |after|
    ensures |Deinterleave(before, count, channels)| == |Deinterleave(after, count, channels)| == count
    ensures Deinterleave(after, count, channels)
      == Deinterleave(before, count, channels)[slot := after[slot * channels..slot * channels + channels]]
  {
    hide Deinterleave;
    DeinterleaveAt(after, count, channels, slot);
    DeinterleaveAt(before, count, channels, slot);
    var was, now := Deinterleave(before, count, channels), Deinterleave(after, count, channels);
    forall k | 0 <= k < count && k != slot ensures now[k] == was[k] {
      SlotKept(before, after, count, channels, slot, k);
      DeinterleaveAt(before, count, channels, k);
      DeinterleaveAt(after, count, channels, k);
    }
  }

  // ----- a run of frames on the ring -----

  // The frames occupy consecutive slots from `start` on, wrapping around.
  ghost predicate Mirrors(frames: seq<Frame>, slots: seq<Frame>, start: nat)
    requires 0 < |slots| && |frames| <= |slots|
  {
    forall k :: 0 <= k < |frames| ==> frames[k] == slots[Slot(start, k, |slots|)]
  }

  lemma JoinMirrors(a: seq<Frame>, b: seq<Frame>, slots: seq<Frame>, start: nat)
    requires start < |slots| && |a| + |b| <= |slots|
    requires Mirrors(a, slots, start) && Mirrors(b, slots, Slot(start, |a|, |slots|))
    ensures Mirrors(a + b, slots, start)
  {
    hide Slot;
    forall k | 0 <= k < |a + b| ensures (a + b)[k] == slots[Slot(start, k, |slots|)] {
      if k >= |a| {
        SlotAdvance(start, |a|, k - |a|, |slots|);
      }
    }
  }

  lemma DropMirrors(a: seq<Frame>, n: nat, slots: seq<Frame>, start: nat)
    requires start < |slots| && n <= |a| <= |slots| && Mirrors(a, slots, start)
    ensures Mirrors(a[n..], slots, Slot(start, n, |slots|))
  {
    hide Slot;
    forall k | 0 <= k < |a| - n ensures a[n..][k] == slots[Slot(Slot(start, n, |slots|), k, |slots|)] {
      SlotAdvance(start, n, k, |slots|);
    }
  }

  lemma NoMirrors(slots: seq<Frame>, start: nat)
    requires 0 < |slots|
    ensures Mirrors([], slots, start)
  {
  }

  lemma MirrorsSnoc(a: seq<Frame>, n: nat, slots: seq<Frame>, start: nat)
    requires n < |a| <= |slots| && Mirrors(a[..n], slots, start) && slots[Slot(start, n, |slots|)] == a[n]
    ensures Mirrors(a[..n + 1], slots, start)
  {
  }

  // Writing the slot at distance n leaves the first n frames in place.
  lemma WriteKeepsMirrors(a: seq<Frame>, before: seq<Frame>, after: seq<Frame>, start: nat, n: nat)
    requires |before| == |after| && start < |before| && |a| <= n < |before| && Mirrors(a, before, start)
    requires forall s :: 0 <= s < |before| && s != Slot(start, n, |before|) ==> after[s] == before[s]
    ensures Mirrors(a, after, start)
  {
    hide Slot;
    forall k | 0 <= k < |a| ensures a[k] == after[Slot(start, k, |after|)] {
      SlotsDiffer(start, k, n, |before|);
    }
  }

  class AudioRingBuffer {
    const capacity: nat
    const channels: nat
    const samples: array<real>
    var readPosition: nat
    var writePosition: nat
    var available: nat
    var writtenFrames: nat
    var readFrames: nat
    var overflowFrames: nat
    var underrunFrames: nat
    // The unread frames; all frames accepted and delivered since the last clear; and all frames
    // ever offered by the producer, requested by the consumer, and discarded by clears.
    ghost var Contents: seq<Frame>
    ghost var Accepted: seq<Frame>
    ghost var Delivered: seq<Frame>
    ghost var Offered: nat
    ghost var Requested: nat
    ghost var Discarded: nat

    ghost predicate Shape()
      reads this
    {
      && 2 <= capacity <= 10_000_000 && 1 <= channels <= 32
      && samples.Length == capacity * channels
      && readPosition < capacity && available <= capacity
      && writePosition == Slot(readPosition, available, capacity)
    }

    // The ring as one frame per slot.
    ghost function Slots(): (slots: seq<Frame>)
      requires samples.Length == capacity * channels
      reads samples
      ensures |slots| == capacity
    {
      DeinterleaveShape(samples[..], capacity, channels);
      Deinterleave(samples[..], capacity, channels)
    }

    ghost predicate Valid()
      reads this, samples
    {
      && Shape()
      && |Contents| == available
      && Mirrors(Contents, Slots(), readPosition)
      && Accepted == Delivered + Contents
      && writtenFrames == readFrames + available + Discarded
      && writtenFrames + overflowFrames == Offered
      && readFrames + underrunFrames == Requested
    }

    constructor (capacity: nat, channels: nat)
      requires 2 <= capacity <= 10_000_000 && 1 <= channels <= 32
      ensures Valid() && fresh(samples) && Contents == [] && Accepted == [] && Delivered == []
      ensures this.capacity == capacity && this.channels == channels
    {
      this.capacity, this.channels := capacity, channels;
      samples := new real[Product(capacity, channels)](_ => 0.0);
      readPosition, writePosition, available := 0, 0, 0;
      writtenFrames, readFrames, overflowFrames, underrunFrames := 0, 0, 0, 0;
      Contents, Accepted, Delivered, Offered, Requested, Discarded := [], [], [], 0, 0, 0;
      new;
      SlotWraps(0, 0, capacity);
    }

    // Copies one frame into a slot, stopping at the first sample that is not finite.
    method WriteFrame(source: seq<Sample>, offset: nat, slot: nat) returns (ok: bool)
      requires samples.Length == capacity * channels && slot < capacity && offset + channels <= |source|
      modifies samples
      ensures ok <==> forall i :: offset <= i < offset + channels ==> source[i].Finite?
      ensures ok ==> Slots() == old(Slots())[slot := Values(source)[offset..offset + channels]]
      ensures forall s :: 0 <= s < capacity && s != slot ==> Slots()[s] == old(Slots())[s]
    {
      FrameFits(slot, capacity, channels);
      ghost var before := samples[..];
      var target := Product(slot, channels);
      ok := true;
      var channel := 0;
      while channel < channels && ok
        invariant 0 <= channel <= channels
        invariant forall i :: offset <= i < offset + channel ==> source[i].Finite?
        invariant !ok ==> channel < channels && source[offset + channel].NonFinite?
        invariant forall i :: 0 <= i < samples.Length && !(target <= i < target + channels) ==> samples[i] == before[i]
        invariant samples[target..target + channel] == Values(source)[offset..offset + channel]
        decreases channels - channel, ok
      {
        if source[offset + channel].NonFinite? {
          ok := false;
        } else {
          samples[target + channel] := source[offset + channel].value;
          assert samples[target..target + channel + 1] == samples[target..target + channel] + [samples[target + channel]];
          channel := channel + 1;
        }
      }
      hide Values;
      OtherSlotsKept(before, samples[..], capacity, channels, slot);
      assert samples[..][target..target + channels] == samples[target..target + channels];
    }

    method WriteFrom(source: seq<Sample>, frameCount: int) returns (r: Result<nat, WriteError>)
      requires Valid()
      modifies this, samples
      ensures Valid()
      ensures r == Err(InvalidProducerInput) <==> frameCount < 0 || |source| < frameCount * channels
      ensures r == Err(InvalidProducerInput) ==> unchanged(this) && unchanged(samples)
      // A sample that is not finite among the frames that fit rejects the call as a whole.
      ensures r == Err(NonFiniteSample) ==> unchanged(this) && frameCount >= 0
      ensures r != Err(InvalidProducerInput) ==>
        var accepted := if frameCount <= capacity - old(available) then frameCount else capacity - old(available);
        && accepted * channels <= |source|
        && (r.Ok? <==> forall i :: 0 <= i < accepted * channels ==> source[i].Finite?)
        && (r.Ok? ==>
          && r.value == accepted
          && Contents == old(Contents) + Deinterleave(Values(source), accepted, channels)
          && Accepted == old(Accepted) + Deinterleave(Values(source), accepted, channels)
          && Delivered == old(Delivered)
          && writtenFrames == old(writtenFrames) + accepted
          && overflowFrames == old(overflowFrames) + frameCount - accepted
          && readFrames == old(readFrames) && underrunFrames == old(underrunFrames))
    {
      if frameCount < 0 || |source| < frameCount * channels {
        return Err(InvalidProducerInput);
      }
      hide Slot, Slots, Deinterleave, Values, Mirrors;
      var free := capacity - available;
      var accepted := if frameCount <= free then frameCount else free;
      MulLess(accepted, frameCount, channels);
      var ok := FillSlots(source, accepted);
      if !ok {
        return Err(NonFiniteSample);
      }
      Publish(accepted, frameCount - accepted, Deinterleave(Values(source), accepted, channels));
      r := Ok(accepted);
    }

    // The producer's bookkeeping after its loop.
    method Publish(accepted: nat, refused: nat, ghost added: seq<Frame>)
      requires Valid() && |added| == accepted <= capacity - available && Mirrors(added, Slots(), writePosition)
      modifies this`writePosition, this`available, this`writtenFrames, this`overflowFrames
      modifies this`Contents, this`Accepted, this`Offered
      ensures Valid()
      ensures Contents == old(Contents) + added && Accepted == old(Accepted) + added
      ensures writtenFrames == old(writtenFrames) + accepted && overflowFrames == old(overflowFrames) + refused
    {
      hide Slot, Slots, Mirrors;
      SlotAdvance(readPosition, available, accepted, capacity);
      JoinMirrors(Contents, added, Slots(), readPosition);
      writePosition := Slot(writePosition, accepted, capacity);
      available := available + accepted;
      writtenFrames := writtenFrames + accepted;
      overflowFrames := overflowFrames + refused;
      Contents, Accepted := Contents + added, Accepted + added;
      Offered := Offered + accepted + refused;
    }

    // The producer's loop: fills free slots from the write position on.
    method FillSlots(source: seq<Sample>, accepted: nat) returns (ok: bool)
      requires Valid() && accepted <= capacity - available && accepted * channels <= |source|
      modifies samples
      ensures Valid()
      ensures ok <==> forall i :: 0 <= i < accepted * channels ==> source[i].Finite?
      ensures |Deinterleave(Values(source), accepted, channels)| == accepted
      ensures ok ==> Mirrors(Deinterleave(Values(source), accepted, channels), Slots(), writePosition)
    {
      hide Slot, Slots, Deinterleave, Values, Mirrors;
      DeinterleaveShape(Values(source), accepted, channels);
      ghost var added := Deinterleave(Values(source), accepted, channels);
      NoMirrors(Slots(), writePosition);
      for frame := 0 to accepted
        invariant frame * channels <= |source|
        invariant forall i :: 0 <= i < frame * channels ==> source[i].Finite?
        invariant Mirrors(added[..frame], Slots(), writePosition)
        invariant Mirrors(Contents, Slots(), readPosition)
      {
        NextMultiple(frame, channels);
        FrameFits(frame, accepted, channels);
        DeinterleaveAt(Values(source), accepted, channels, frame);
        ghost var before := Slots();
        SlotAdvance(readPosition, available, frame, capacity);
        var written := WriteFrame(source, frame * channels, Slot(writePosition, frame, capacity));
        WriteKeepsMirrors(Contents, before, Slots(), readPosition, available + frame);
        if !written {
          return false;
        }
        WriteKeepsMirrors(added[..frame], before, Slots(), writePosition, frame);
        MirrorsSnoc(added, frame, Slots(), writePosition);
      }
      assert added[..accepted] == added;
      return true;
    }

    method ReadInto(output: array<real>, frameCount: int) returns (r: Result<nat, ReadError>)
      requires Valid() && output != samples
      modifies this, output
      ensures Valid()
      ensures r.Err? <==> frameCount < 0 || output.Length < frameCount * channels
      ensures r.Err? ==> unchanged(this) && unchanged(output)
      ensures r.Ok? ==>
        var consumed := if frameCount <= old(available) then frameCount else old(available);
        && r.value == consumed <= |old(Contents)|
        && consumed * channels <= output.Length
        && output[..consumed * channels] == Flatten(old(Contents)[..consumed])
        && output[consumed * channels..] == old(output[consumed * channels..])
        && Contents == old(Contents)[consumed..]
        && Delivered == old(Delivered) + old(Contents)[..consumed]
        && Accepted == old(Accepted)
        && readFrames == old(readFrames) + consumed
        && underrunFrames == old(underrunFrames) + frameCount - consumed
        && writtenFrames == old(writtenFrames) && overflowFrames == old(overflowFrames)
    {
      if frameCount < 0 || output.Length < frameCount * channels {
        return Err(InvalidConsumerOutput);
      }
      hide Slot, Slots, Mirrors, Flatten;
      var consumed := if frameCount <= available then frameCount else available;
      MulLess(consumed, frameCount, channels);
      CopyOut(output, consumed);
      Consume(consumed, frameCount - consumed);
      r := Ok(consumed);
    }

    // The consumer's bookkeeping after its loop.
    method Consume(consumed: nat, missing: nat)
      requires Valid() && consumed <= available
      modifies this`readPosition, this`available, this`readFrames, this`underrunFrames
      modifies this`Contents, this`Delivered, this`Requested
      ensures Valid()
      ensures Contents == old(Contents)[consumed..] && Delivered == old(Delivered) + old(Contents)[..consumed]
      ensures readFrames == old(readFrames) + consumed && underrunFrames == old(underrunFrames) + missing
    {
      hide Slot, Slots, Mirrors;
      DropMirrors(Contents, consumed, Slots(), readPosition);
      SlotAdvance(readPosition, consumed, available - consumed, capacity);
      readPosition := Slot(readPosition, consumed, capacity);
      available := available - consumed;
      readFrames := readFrames + consumed;
      underrunFrames := underrunFrames + missing;
      Requested := Requested + consumed + missing;
      Delivered, Contents := Delivered + Contents[..consumed], Contents[consumed..];
    }

    // The consumer's loop.
    method CopyOut(output: array<real>, consumed: nat)
      requires Valid() && output != samples && consumed <= available && consumed * channels <= output.Length
      modifies output
      ensures output[..consumed * channels] == Flatten(Contents[..consumed])
      ensures output[consumed * channels..] == old(output[consumed * channels..])
    {
      ghost var before := output[..];
      for frame := 0 to consumed
        invariant frame * channels <= consumed * channels <= output.Length
        invariant output[..frame * channels] == Flatten(Contents[..frame])
        invariant output[frame * channels..] == before[frame * channels..]
      {
        NextMultiple(frame, channels);
        FrameFits(frame, consumed, channels);
        var slot := Slot(readPosition, frame, capacity);
        CopyFrame(output, frame * channels, slot);
        FlattenSlice(Contents, 0, frame);
      }
    }

    method CopyFrame(output: array<real>, target: nat, slot: nat)
      requires samples.Length == capacity * channels && slot < capacity && output != samples
      requires target + channels <= output.Length
      modifies output
      ensures output[..target + channels] == old(output[..target]) + Slots()[slot]
      ensures output[target + channels..] == old(output[target + channels..])
    {
      FrameFits(slot, capacity, channels);
      DeinterleaveAt(samples[..], capacity, channels, slot);
      var origin := Product(slot, channels);
      ghost var frame := samples[..][origin..origin + channels];
      for channel := 0 to channels
        invariant output[..target + channel] == old(output[..target]) + frame[..channel]
        invariant output[target + channel..] == old(output[target + channel..])
      {
        output[target + channel] := samples[origin + channel];
        assert frame[..channel + 1] == frame[..channel] + [samples[origin + channel]];
        assert output[..target + channel + 1] == output[..target + channel] + [samples[origin + channel]];
      }
    }

    // Discards the unread frames.
    method Clear()
      requires Valid()
      modifies this
      ensures Valid() && Contents == [] && Accepted == [] && Delivered == []
      ensures writtenFrames == old(writtenFrames) && readFrames == old(readFrames)
      ensures overflowFrames == old(overflowFrames) && underrunFrames == old(underrunFrames)
      ensures Discarded == old(Discarded) + |old(Contents)|
    {
      Discarded := Discarded + available;
      readPosition, writePosition, available := 0, 0, 0;
      Contents, Accepted, Delivered := [], [], [];
      SlotWraps(0, 0, capacity);
    }
  }
}
