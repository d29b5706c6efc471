// The ring buffer's shared frame count when producer and consumer run at the same time without a
// lock: each call reads the count once to decide, and updates it by a load and a later store.
module AudioRingInterleaving {
  import opened Rationals

  // A call that has decided how many frames to move, and then has loaded the count to update it.
  datatype Side = Idle | Moving(frames: int) | Updating(frames: int, loaded: int)

  // available is the shared count; produced and taken are the frames each side has accounted for.
  datatype State = State(available: int, produced: int, taken: int, producer: Side, consumer: Side)

  const INITIAL := State(0, 0, 0, Idle, Idle)

  datatype Event =
    | BeginWrite(offered: nat)
    | AbandonWrite
    | LoadForWrite
    | StoreWrite
    | BeginRead(requested: nat)
    | LoadForRead
    | StoreRead

  function Min(a: int, b: int): int {
    if a <= b then a else b
  }

  predicate Next(s: State, event: Event, t: State, capacity: nat) {
    match event
    case BeginWrite(offered) =>
      s.producer.Idle? && t == s.(producer := Moving(Min(offered, capacity - s.available)))
    case AbandonWrite =>
      // A sample that is not finite.
      s.producer.Moving? && t == s.(producer := Idle)
    case LoadForWrite =>
      s.producer.Moving? && t == s.(producer := Updating(s.producer.frames, s.available))
    case StoreWrite =>
      && s.producer.Updating?
      && t == s.(available := s.producer.loaded + s.producer.frames, produced := s.produced + s.producer.frames, producer := Idle)
    case BeginRead(requested) =>
      s.consumer.Idle? && t == s.(consumer := Moving(Min(requested, s.available)))
    case LoadForRead =>
      s.consumer.Moving? && t == s.(consumer := Updating(s.consumer.frames, s.available))
    case StoreRead =>
      && s.consumer.Updating?
      && t == s.(available := s.consumer.loaded - s.consumer.frames, taken := s.taken + s.consumer.frames, consumer := Idle)
  }

  predicate Exact(s: State) {
    s.available == s.produced - s.taken
  }

  // A store writes back what its own load saw, with nothing stored in between.
  predicate FreshStore(s: State, event: Event) {
    && (event.StoreWrite? && s.producer.Updating? ==> s.producer.loaded == s.available)
    && (event.StoreRead? && s.consumer.Updating? ==> s.consumer.loaded == s.available)
  }

  // Frames being written go to free slots and frames being read are unread ones.
  predicate SlotsAreSafe(s: State, capacity: nat) {
    && 0 <= s.taken <= s.produced <= s.taken + capacity
    && (!s.producer.Idle? ==> s.producer.frames >= 0 && s.produced + s.producer.frames <= s.taken + capacity)
    && (!s.consumer.Idle? ==> s.consumer.frames >= 0 && s.taken + s.consumer.frames <= s.produced)
  }

  lemma StoreKeepsExactIff(s: State, event: Event, t: State, capacity: nat)
    requires Exact(s) && Next(s, event, t, capacity)
    ensures Exact(t) <==> FreshStore(s, event)
  {
  }

  // Deciding on an outdated count is harmless: the other side only makes more room or more data.
  lemma StepKeepsSlotsSafe(s: State, event: Event, t: State, capacity: nat)
    requires Exact(s) && SlotsAreSafe(s, capacity) && Next(s, event, t, capacity)
    ensures SlotsAreSafe(t, capacity)
  {
  }

  predicate StepAt(states: seq<State>, events: seq<Event>, capacity: nat, i: nat)
    requires i < |events| < |states|
  {
    Next(states[i], events[i], states[i + 1], capacity)
  }

  predicate IsRun(states: seq<State>, events: seq<Event>, capacity: nat) {
    && |states| == |events| + 1
    && states[0] == INITIAL
    && forall i :: 0 <= i < |events| ==> StepAt(states, events, capacity, i)
  }

  predicate AllExact(states: seq<State>) {
    forall i :: 0 <= i < |states| ==> Exact(states[i])
  }

  // ----- the schedule that keeps the count right -----

  // writer selects the side: the producer or the consumer.
  function SideOf(s: State, writer: bool): Side {
    if writer then s.producer else s.consumer
  }

  predicate Loads(event: Event, writer: bool) {
    if writer then event.LoadForWrite? else event.LoadForRead?
  }

  predicate Stores(event: Event, writer: bool) {
    if writer then event.StoreWrite? else event.StoreRead?
  }

  function Moved(side: Side): int {
    if side.Idle? then 0 else side.frames
  }

  // Event i is a load of one side and event j the first store of that side after it.
  predicate IsUpdate(events: seq<Event>, writer: bool, i: nat, j: nat) {
    && i < j < |events| && Loads(events[i], writer) && Stores(events[j], writer)
    && forall k :: i < k < j ==> !Stores(events[k], writer)
  }

  // The stores of the other side between events i and j move no frame.
  predicate OthersMoveNothing(states: seq<State>, events: seq<Event>, writer: bool, i: nat, j: nat)
    requires j <= |events| < |states|
  {
    forall k :: i < k < j && Stores(events[k], !writer) ==> Moved(SideOf(states[k], !writer)) == 0
  }

  // Whenever one side updates the count, the other side moves nothing between the load and the store.
  ghost predicate UpdatesDoNotOverlap(states: seq<State>, events: seq<Event>)
    requires |states| == |events| + 1
  {
    forall writer: bool, i: nat, j: nat :: IsUpdate(events, writer, i, j) ==> OthersMoveNothing(states, events, writer, i, j)
  }

  // Every store before event m is fresh.
  predicate FreshUpTo(states: seq<State>, events: seq<Event>, m: nat)
    requires m <= |events| < |states|
  {
    forall i :: 0 <= i < m ==> FreshStore(states[i], events[i])
  }

  lemma InitialIsSafe(capacity: nat)
    ensures SlotsAreSafe(INITIAL, capacity)
  {
  }

  lemma InitialIsExact()
    ensures Exact(INITIAL)
  {
  }

  lemma RunStarts(states: seq<State>, events: seq<Event>, capacity: nat)
    requires IsRun(states, events, capacity)
    ensures |states| == |events| + 1
    ensures Exact(states[0]) && SlotsAreSafe(states[0], capacity) && states[0].producer.Idle? && states[0].consumer.Idle?
  {
    hide Next, StepAt, Exact, SlotsAreSafe;
    InitialIsSafe(capacity);
    InitialIsExact();
  }

  lemma StepOfRun(states: seq<State>, events: seq<Event>, capacity: nat, i: nat)
    requires IsRun(states, events, capacity) && i < |events|
    ensures |states| == |events| + 1 && Next(states[i], events[i], states[i + 1], capacity)
  {
    assert StepAt(states, events, capacity, i);
    hide Next;
  }

  lemma {:induction false} FreshRunIsExact(states: seq<State>, events: seq<Event>, capacity: nat, m: nat)
    requires IsRun(states, events, capacity) && m <= |events| < |states| && FreshUpTo(states, events, m)
    ensures Exact(states[m]) && SlotsAreSafe(states[m], capacity)
    decreases m
  {
    hide IsRun, Next, Exact, SlotsAreSafe;
    RunStarts(states, events, capacity);
    if m > 0 {
      StepOfRun(states, events, capacity, m - 1);
      assert FreshStore(states[m - 1], events[m - 1]);
      hide FreshStore;
      FreshRunIsExact(states, events, capacity, m - 1);
      StoreKeepsExactIff(states[m - 1], events[m - 1], states[m], capacity);
      StepKeepsSlotsSafe(states[m - 1], events[m - 1], states[m], capacity);
    }
  }

  // How far the count has moved away, against this side, from what this side loaded.
  function Gap(loaded: int, available: int, writer: bool): int {
    if writer then loaded - available else available - loaded
  }

  // One step while this side waits to store: the gap grows by what the other side moves.
  lemma GapStep(s: State, event: Event, t: State, capacity: nat, writer: bool)
    requires Next(s, event, t, capacity) && FreshStore(s, event) && Exact(s) && SlotsAreSafe(s, capacity)
    requires SideOf(s, writer).Updating? && !Stores(event, writer)
    ensures
      var loaded := SideOf(s, writer).loaded;
      && SideOf(t, writer) == SideOf(s, writer)
      && Gap(loaded, t.available, writer)
         == Gap(loaded, s.available, writer) + (if Stores(event, !writer) then Moved(SideOf(s, !writer)) else 0)
      && (Stores(event, !writer) ==> Moved(SideOf(s, !writer)) >= 0)
  {
  }

  // Between a load and the next store of a side the gap is never negative, and it is zero exactly
  // when the other side has moved nothing.
  lemma {:induction false} GapGrows(states: seq<State>, events: seq<Event>, capacity: nat, writer: bool, i: nat, m: nat)
    requires IsRun(states, events, capacity) && i < m <= |events| < |states| && FreshUpTo(states, events, m)
    requires Loads(events[i], writer) && forall k :: i < k < m ==> !Stores(events[k], writer)
    ensures SideOf(states[m], writer).Updating?
    ensures
      var gap := Gap(SideOf(states[m], writer).loaded, states[m].available, writer);
      gap >= 0 && (gap == 0 <==> OthersMoveNothing(states, events, writer, i, m))
    decreases m
  {
    StepOfRun(states, events, capacity, m - 1);
    if i < m - 1 {
      assert FreshStore(states[m - 1], events[m - 1]) && !Stores(events[m - 1], writer);
      assert FreshUpTo(states, events, m - 1);
      hide IsRun, Next, FreshStore, Exact, SlotsAreSafe, Stores, Loads, SideOf, Moved, FreshUpTo;
      FreshRunIsExact(states, events, capacity, m - 1);
      GapGrows(states, events, capacity, writer, i, m - 1);
      GapStep(states[m - 1], events[m - 1], states[m], capacity, writer);
      LongerSilence(states, events, writer, i, m - 1);
    } else {
      hide IsRun, FreshUpTo, Exact, SlotsAreSafe;
    }
  }

  lemma LongerSilence(states: seq<State>, events: seq<Event>, writer: bool, i: nat, m: nat)
    requires i < m < |events| < |states|
    ensures OthersMoveNothing(states, events, writer, i, m + 1) <==>
      OthersMoveNothing(states, events, writer, i, m) && (Stores(events[m], !writer) ==> Moved(SideOf(states[m], !writer)) == 0)
  {
    hide Stores, Moved, SideOf;
  }

  // A side that is about to store has loaded, and not stored since.
  lemma {:induction false} LastLoad(states: seq<State>, events: seq<Event>, capacity: nat, writer: bool, m: nat) returns (i: nat)
    requires IsRun(states, events, capacity) && m <= |events| < |states| && SideOf(states[m], writer).Updating?
    ensures i < m && Loads(events[i], writer) && forall k :: i < k < m ==> !Stores(events[k], writer)
    decreases m
  {
    hide IsRun, Exact, SlotsAreSafe;
    RunStarts(states, events, capacity);
    assert m > 0;
    StepOfRun(states, events, capacity, m - 1);
    if Loads(events[m - 1], writer) {
      i := m - 1;
    } else {
      assert SideOf(states[m - 1], writer).Updating? && !Stores(events[m - 1], writer);
      hide Next, Stores, Loads, SideOf;
      i := LastLoad(states, events, capacity, writer, m - 1);
    }
  }

  lemma {:induction false} SeparateRunIsFresh(states: seq<State>, events: seq<Event>, capacity: nat, m: nat)
    requires IsRun(states, events, capacity) && m <= |events| < |states| && UpdatesDoNotOverlap(states, events)
    ensures FreshUpTo(states, events, m)
    decreases m
  {
    if m > 0 {
      SeparateRunIsFresh(states, events, capacity, m - 1);
      StoreIsFresh(states, events, capacity, m - 1);
      hide IsRun, UpdatesDoNotOverlap, FreshStore;
    }
  }

  lemma StoreIsFresh(states: seq<State>, events: seq<Event>, capacity: nat, m: nat)
    requires IsRun(states, events, capacity) && m < |events| < |states| && UpdatesDoNotOverlap(states, events)
    requires FreshUpTo(states, events, m)
    ensures FreshStore(states[m], events[m])
  {
    if events[m].StoreWrite? || events[m].StoreRead? {
      var writer := events[m].StoreWrite?;
      StepOfRun(states, events, capacity, m);
      assert Stores(events[m], writer) && SideOf(states[m], writer).Updating?;
      var i := LastLoad(states, events, capacity, writer, m);
      assert IsUpdate(events, writer, i, m);
      GapGrows(states, events, capacity, writer, i, m);
      hide IsRun, FreshUpTo, OthersMoveNothing;
    }
  }

  // Over every interleaving: the count is right in every state exactly when, for every load and the
  // first store of the same side after it, the stores of the other side in between move no frame.
  lemma CountIsExactIff(states: seq<State>, events: seq<Event>, capacity: nat)
    requires IsRun(states, events, capacity)
    ensures AllExact(states) <==> UpdatesDoNotOverlap(states, events)
  {
    hide IsRun, Next, Exact, FreshStore, SlotsAreSafe;
    RunStarts(states, events, capacity);
    if UpdatesDoNotOverlap(states, events) {
      SeparateRunIsFresh(states, events, capacity, |events|);
      forall i | 0 <= i < |states| ensures Exact(states[i]) {
        FreshRunIsExact(states, events, capacity, i);
      }
    }
    if AllExact(states) {
      forall i | 0 <= i < |events| ensures FreshStore(states[i], events[i]) {
        StepOfRun(states, events, capacity, i);
        StoreKeepsExactIff(states[i], events[i], states[i + 1], capacity);
      }
      forall writer: bool, i: nat, j: nat | IsUpdate(events, writer, i, j)
        ensures OthersMoveNothing(states, events, writer, i, j)
      {
        GapGrows(states, events, capacity, writer, i, j);
        FreshMeansNoGap(states[j], events[j], writer);
      }
    }
  }

  lemma FreshMeansNoGap(s: State, event: Event, writer: bool)
    requires FreshStore(s, event) && Stores(event, writer) && SideOf(s, writer).Updating?
    ensures Gap(SideOf(s, writer).loaded, s.available, writer) == 0
  {
  }

  // While the count is right, unread frames are never overwritten and unwritten ones never read,
  // although each side decides on a count that the other may have changed since.
  lemma {:induction false} ExactRunIsSafe(states: seq<State>, events: seq<Event>, capacity: nat, i: nat)
    requires IsRun(states, events, capacity) && AllExact(states) && i < |states|
    ensures SlotsAreSafe(states[i], capacity)
    decreases i
  {
    hide IsRun, Next, Exact, SlotsAreSafe;
    RunStarts(states, events, capacity);
    if i > 0 {
      StepOfRun(states, events, capacity, i - 1);
      assert Exact(states[i - 1]);
      hide *;
      ExactRunIsSafe(states, events, capacity, i - 1);
      StepKeepsSlotsSafe(states[i - 1], events[i - 1], states[i], capacity);
    }
  }

  // Frame number j is stored in slot j % capacity: a slot being written holds no unread frame.
  lemma WrittenSlotsAreFree(s: State, capacity: nat, unread: nat, written: nat)
    requires capacity > 0 && SlotsAreSafe(s, capacity) && !s.producer.Idle?
    requires s.taken <= unread < s.produced <= written < s.produced + s.producer.frames
    ensures unread % capacity != written % capacity
  {
    if unread % capacity == written % capacity {
      SameRemainder(unread, written, capacity);
    }
  }

  lemma SameRemainder(a: nat, b: nat, n: nat)
    requires n > 0 && a < b && a % n == b % n
    ensures a + n <= b
  {
    var p, q := a / n, b / n;
    assert a == n * p + a % n && b == n * q + a % n;
    MulLess(p, q, n);
    MulLess(p + 1, q, n);
    NextMultiple(q, n);
    hide *;
    assert (p + 1) * n == p * n + n;
  }

  // The failing interleaving: a read is accounted for between the load and the store of a write.
  // The read is forgotten, and the next read may take a frame that was never written.
  lemma ReadCanBeForgotten() returns (states: seq<State>, events: seq<Event>)
    ensures IsRun(states, events, 2) && !UpdatesDoNotOverlap(states, events)
    ensures
      var last := states[|states| - 1];
      last.producer.Idle? && last.available == 2 && last.produced - last.taken == 1 && !SlotsAreSafe(last, 2)
  {
    var s1 := INITIAL.(producer := Moving(1));
    var s2 := s1.(producer := Updating(1, 0));
    var s3 := State(1, 1, 0, Idle, Idle);
    var s4 := s3.(producer := Moving(1));
    var s5 := s4.(producer := Updating(1, 1));
    var s6 := s5.(consumer := Moving(1));
    var s7 := s6.(consumer := Updating(1, 1));
    var s8 := State(0, 1, 1, Updating(1, 1), Idle);
    var s9 := State(2, 2, 1, Idle, Idle);
    var s10 := s9.(consumer := Moving(2));
    states := [INITIAL, s1, s2, s3, s4, s5, s6, s7, s8, s9, s10];
    events := [BeginWrite(1), LoadForWrite, StoreWrite, BeginWrite(1), LoadForWrite, BeginRead(1), LoadForRead, StoreRead,
               StoreWrite, BeginRead(2)];
    assert states[9] == s9 && !Exact(s9);
    hide Next;
    forall i | 0 <= i < |events| ensures StepAt(states, events, 2, i) {
    }
    CountIsExactIff(states, events, 2);
  }
}
