// Bounded HTTP admission, draining, and the byte budget for request bodies.
module HttpAdmission {
  import opened Results
  import Totals

  // ----- request slots -----

  // The counters guarded by the metrics lock, and the semaphore's free permits.
  datatype Slots = Slots(limit: nat, free: int, active: int, peak: int, completed: nat, rejected: nat, accepting: bool)

  function OpenSlots(limit: nat): Slots {
    Slots(limit, limit, 0, 0, 0, 0, true)
  }

  predicate Admits(s: Slots) {
    s.accepting && s.free > 0
  }

  // process_request's locked part: refuse while draining or busy, otherwise take a permit.
  function Arrived(s: Slots): Slots {
    if Admits(s) then
      s.(free := s.free - 1, active := s.active + 1, peak := if s.active + 1 > s.peak then s.active + 1 else s.peak)
    else s.(rejected := s.rejected + 1)
  }

  // _release_request_slot's locked part. None stands for the underflow error.
  function Retired(s: Slots, completed: bool): Option<Slots> {
    if s.active - 1 < 0 then None
    else Some(s.(active := s.active - 1, completed := if completed then s.completed + 1 else s.completed))
  }

  // The bounded semaphore's release. None stands for its over-release error.
  function Returned(s: Slots): Option<Slots> {
    if s.free >= s.limit then None else Some(s.(free := s.free + 1))
  }

  // The server object: each method is one atomic step of a request.
  class BoundedRuntimeServer {
    const limit: nat
    var free: int
    var active: int
    var peak: int
    var completed: nat
    var rejected: nat
    var accepting: bool

    ghost function View(): Slots
      reads this
    {
      Slots(limit, free, active, peak, completed, rejected, accepting)
    }

    constructor (limit: nat)
      requires limit > 0
      ensures View() == OpenSlots(limit)
    {
      this.limit := limit;
      free, active, peak, completed, rejected, accepting := limit, 0, 0, 0, 0, true;
    }

    method ProcessRequest() returns (admitted: bool)
      modifies this
      ensures admitted == Admits(old(View())) && View() == Arrived(old(View()))
      ensures admitted <==> old(accepting) && old(free) > 0
      ensures free == old(free) - (if admitted then 1 else 0) && active == old(active) + (if admitted then 1 else 0)
      ensures rejected == old(rejected) + (if admitted then 0 else 1) && completed == old(completed)
      ensures peak >= old(peak) && (admitted ==> peak >= active) && peak in {old(peak), active}
      ensures accepting == old(accepting)
    {
      if !accepting || free <= 0 {
        rejected := rejected + 1;
        return false;
      }
      free := free - 1;
      active := active + 1;
      peak := if active > peak then active else peak;
      return true;
    }

    method RetireRequest(wasCompleted: bool) returns (underflow: bool)
      modifies this`active, this`completed
      ensures underflow <==> Retired(old(View()), wasCompleted).None?
      ensures !underflow ==> View() == Retired(old(View()), wasCompleted).value
      ensures underflow ==> View() == old(View()).(active := old(active) - 1) && active < 0
      ensures active == old(active) - 1 && (underflow <==> active < 0)
      ensures completed == old(completed) + if wasCompleted && !underflow then 1 else 0
    {
      active := active - 1;
      if active < 0 {
        return true;
      }
      if wasCompleted {
        completed := completed + 1;
      }
      return false;
    }

    method ReturnPermit() returns (overRelease: bool)
      modifies this`free
      ensures overRelease <==> Returned(old(View())).None?
      ensures View() == if overRelease then old(View()) else Returned(old(View())).value
      ensures (overRelease <==> old(free) >= limit) && free == old(free) + if overRelease then 0 else 1
    {
      if free >= limit {
        return true;
      }
      free := free + 1;
      return false;
    }

    method BeginDraining()
      modifies this`accepting
      ensures View() == old(View()).(accepting := false)
    {
      accepting := false;
    }

    // What a drain waiter tests under the lock.
    method Drained() returns (done: bool)
      ensures done == (active == 0)
    {
      done := active == 0;
    }
  }

  // Who returns a permit: the thread that handled a request, or the dispatching thread after an
  // exception out of starting it.
  datatype Releaser = Handler(request: nat) | Dispatcher(request: nat)

  // pending: admitted, no handler thread has begun. serving: a handler thread has begun and not yet
  // retired. starting: a handler thread has begun and the dispatching call has not returned. returning:
  // between a decrement and the release of the permit. late: how many dispatching calls were interrupted
  // after their handler thread had begun. broken: an error branch was reached.
  datatype ServerState = ServerState(
    slots: Slots,
    pending: set<nat>,
    serving: set<nat>,
    starting: set<nat>,
    returning: set<Releaser>,
    arrived: nat,
    failed: nat,
    late: nat,
    broken: bool)

  datatype ServerEvent =
    | Arrive(request: nat)
    | Begin(request: nat)
    | DispatchReturns(request: nat)
    | DispatchFails(request: nat)
    | Retire(request: nat)
    | Return(holder: Releaser)
    | Drain

  function ServerInitial(limit: nat): ServerState {
    ServerState(OpenSlots(limit), {}, {}, {}, {}, 0, 0, 0, false)
  }

  // A decrement by one of the threads of a request; below zero it is an error.
  function Decremented(s: ServerState, completed: bool, holder: Releaser): ServerState {
    match Retired(s.slots, completed)
    case None => s.(slots := s.slots.(active := s.slots.active - 1), broken := true)
    case Some(slots) =>
      s.(slots := slots, returning := s.returning + {holder}, failed := if completed then s.failed else s.failed + 1)
  }

  // Steps of different requests interleave freely; an error ends the run. A dispatching call can fail
  // before its handler thread has begun, and be interrupted after.
  predicate ServerNext(s: ServerState, event: ServerEvent, t: ServerState) {
    && !s.broken
    && match event
       case Arrive(request) =>
         && request !in s.pending && request !in s.serving && request !in s.starting
         && Handler(request) !in s.returning && Dispatcher(request) !in s.returning
         && t == s.(slots := Arrived(s.slots), arrived := s.arrived + 1,
                    pending := if Admits(s.slots) then s.pending + {request} else s.pending)
       case Begin(request) =>
         && request in s.pending
         && t == s.(pending := s.pending - {request}, serving := s.serving + {request}, starting := s.starting + {request})
       case DispatchReturns(request) =>
         request in s.starting && t == s.(starting := s.starting - {request})
       case DispatchFails(request) =>
         if request in s.pending then
           t == Decremented(s.(pending := s.pending - {request}), false, Dispatcher(request))
         else
           && request in s.starting
           && t == Decremented(s.(starting := s.starting - {request}, late := s.late + 1), false, Dispatcher(request))
       case Retire(request) =>
         request in s.serving && t == Decremented(s.(serving := s.serving - {request}), true, Handler(request))
       case Return(holder) =>
         && holder in s.returning
         && t == (match Returned(s.slots)
                  case None => s.(broken := true)
                  case Some(slots) => s.(slots := slots, returning := s.returning - {holder}))
       case Drain =>
         t == s.(slots := s.slots.(accepting := false))
  }

  // Every permit is free, held by an unfinished request, or on its way back; each late interruption
  // has counted one request twice.
  ghost predicate ServerInvariant(s: ServerState) {
    && s.pending !! s.serving && s.pending !! s.starting
    && (forall request :: request in s.pending ==> Handler(request) !in s.returning && Dispatcher(request) !in s.returning)
    && (forall request :: request in s.serving ==> Handler(request) !in s.returning)
    && (forall request :: request in s.starting ==> Dispatcher(request) !in s.returning)
    && s.slots.active == |s.pending| + |s.serving| - s.late
    && (s.broken ==> s.slots.active == -1 && s.late > 0)
    && (!s.broken ==>
         && 0 <= s.slots.free && 0 <= s.slots.active <= s.slots.peak <= s.slots.limit
         && s.slots.free + s.slots.active + |s.returning| == s.slots.limit
         && s.arrived == s.slots.rejected + s.slots.active + s.slots.completed + s.failed)
  }

  lemma OneMore<T>(a: set<T>, x: T)
    requires x !in a
    ensures |a + {x}| == |a| + 1
  {
  }

  lemma OneLess<T>(a: set<T>, x: T)
    requires x in a
    ensures |a - {x}| == |a| - 1
  {
  }

  lemma ArriveKeepsInvariant(s: ServerState, request: nat, t: ServerState)
    requires ServerInvariant(s) && ServerNext(s, Arrive(request), t)
    ensures ServerInvariant(t)
  {
    OneMore(s.pending, request);
  }

  lemma BeginKeepsInvariant(s: ServerState, request: nat, t: ServerState)
    requires ServerInvariant(s) && ServerNext(s, Begin(request), t)
    ensures ServerInvariant(t)
  {
    OneLess(s.pending, request);
    OneMore(s.serving, request);
  }

  lemma FailKeepsInvariant(s: ServerState, request: nat, t: ServerState)
    requires ServerInvariant(s) && ServerNext(s, DispatchFails(request), t)
    ensures ServerInvariant(t)
  {
    if request in s.pending { OneLess(s.pending, request); }
    OneMore(s.returning, Dispatcher(request));
  }

  lemma RetireKeepsInvariant(s: ServerState, request: nat, t: ServerState)
    requires ServerInvariant(s) && ServerNext(s, Retire(request), t)
    ensures ServerInvariant(t)
  {
    OneLess(s.serving, request);
    OneMore(s.returning, Handler(request));
  }

  lemma ReturnKeepsInvariant(s: ServerState, holder: Releaser, t: ServerState)
    requires ServerInvariant(s) && ServerNext(s, Return(holder), t)
    ensures ServerInvariant(t) && !t.broken
  {
    OneLess(s.returning, holder);
  }

  lemma ServerStepKeepsInvariant(s: ServerState, event: ServerEvent, t: ServerState)
    requires ServerInvariant(s) && ServerNext(s, event, t)
    ensures ServerInvariant(t) && t.slots.limit == s.slots.limit
  {
    match event
    case Arrive(request) => ArriveKeepsInvariant(s, request, t);
    case Begin(request) => BeginKeepsInvariant(s, request, t);
    case DispatchReturns(_) =>
    case DispatchFails(request) => FailKeepsInvariant(s, request, t);
    case Retire(request) => RetireKeepsInvariant(s, request, t);
    case Return(holder) => ReturnKeepsInvariant(s, holder, t);
    case Drain =>
  }

  predicate IsServerRunFrom(s: ServerState, states: seq<ServerState>, events: seq<ServerEvent>) {
    && |states| == |events| + 1
    && states[0] == s
    && forall i :: 0 <= i < |events| ==> ServerNext(states[i], events[i], states[i + 1])
  }

  predicate IsServerRun(states: seq<ServerState>, events: seq<ServerEvent>, limit: nat) {
    IsServerRunFrom(ServerInitial(limit), states, events)
  }

  // Over every run no permit is lost or over-released, and the error branch is reached only by an
  // underflow after a late interruption.
  lemma {:induction false} ServerRunKeepsInvariant(states: seq<ServerState>, events: seq<ServerEvent>, limit: nat, i: nat)
    requires IsServerRun(states, events, limit) && i < |states|
    ensures ServerInvariant(states[i]) && states[i].slots.limit == limit
    decreases i
  {
    if i > 0 {
      ServerRunKeepsInvariant(states, events, limit, i - 1);
      ServerStepKeepsInvariant(states[i - 1], events[i - 1], states[i]);
    }
  }

  // ----- what a late interruption does -----

  // Some continuation of s without a further late interruption reaches the underflow, or s has.
  ghost predicate CanUnderflow(s: ServerState) {
    exists states: seq<ServerState>, events: seq<ServerEvent>, i: nat ::
      IsServerRunFrom(s, states, events) && i < |states| && states[i].broken && states[i].late == s.late
  }

  lemma {:induction false} RunFromKeepsInvariant(s: ServerState, states: seq<ServerState>, events: seq<ServerEvent>, i: nat)
    requires ServerInvariant(s) && IsServerRunFrom(s, states, events) && i < |states|
    ensures ServerInvariant(states[i])
    decreases i
  {
    if i > 0 {
      RunFromKeepsInvariant(s, states, events, i - 1);
      ServerStepKeepsInvariant(states[i - 1], events[i - 1], states[i]);
    }
  }

  lemma UnderflowsNow(s: ServerState)
    requires s.broken
    ensures CanUnderflow(s)
  {
    var states: seq<ServerState>, events: seq<ServerEvent> := [s], [];
    assert IsServerRunFrom(s, states, events);
    assert states[0].broken;
  }

  lemma UnderflowsLater(s: ServerState, event: ServerEvent, t: ServerState)
    requires ServerNext(s, event, t) && t.late == s.late && CanUnderflow(t)
    ensures CanUnderflow(s)
  {
    hide ServerNext;
    var states: seq<ServerState>, events: seq<ServerEvent>, i: nat :|
      IsServerRunFrom(t, states, events) && i < |states| && states[i].broken && states[i].late == t.late;
    var all, steps := [s] + states, [event] + events;
    forall k | 0 <= k < |steps| ensures ServerNext(all[k], steps[k], all[k + 1]) {
      if k > 0 {
        assert all[k] == states[k - 1] && steps[k] == events[k - 1] && all[k + 1] == states[k];
      }
    }
    assert IsServerRunFrom(s, all, steps);
    assert all[i + 1] == states[i];
  }

  // An arriving request waits for its handler exactly when the server accepts and a permit is free;
  // otherwise it is counted as rejected.
  lemma ArrivalMeaning(s: ServerState, request: nat, t: ServerState)
    requires ServerNext(s, Arrive(request), t)
    ensures request in t.pending <==> s.slots.accepting && s.slots.free > 0
    ensures request in t.pending ==>
      && t.slots.free == s.slots.free - 1 && t.slots.active == s.slots.active + 1 && t.slots.rejected == s.slots.rejected
      && t.slots.peak >= t.slots.active && t.slots.peak in {s.slots.peak, t.slots.active}
    ensures request !in t.pending ==> t == s.(slots := s.slots.(rejected := s.slots.rejected + 1), arrived := s.arrived + 1)
  {
  }

  // A dispatching call that has returned can no longer be interrupted, so its slot is given back once.
  lemma DispatchReturnIsFinal(s: ServerState, request: nat, t: ServerState)
    requires ServerInvariant(s) && ServerNext(s, DispatchReturns(request), t)
    ensures request in s.starting && t.slots == s.slots && t.pending == s.pending && t.serving == s.serving
    ensures forall u :: !ServerNext(t, DispatchFails(request), u)
  {
  }

  // When the requests finish one after the other, the last ones find the count at zero.
  lemma {:induction false} LateMeansUnderflow(s: ServerState)
    requires ServerInvariant(s) && s.late > 0
    ensures CanUnderflow(s)
    decreases |s.pending| + |s.serving|
  {
    if s.broken {
      UnderflowsNow(s);
    } else if s.serving != {} {
      var request :| request in s.serving;
      var t := Decremented(s.(serving := s.serving - {request}), true, Handler(request));
      assert ServerNext(s, Retire(request), t);
      OneLess(s.serving, request);
      ServerStepKeepsInvariant(s, Retire(request), t);
      LateMeansUnderflow(t);
      UnderflowsLater(s, Retire(request), t);
    } else {
      assert s.pending != {};
      var request :| request in s.pending;
      var t := Decremented(s.(pending := s.pending - {request}), false, Dispatcher(request));
      assert ServerNext(s, DispatchFails(request), t);
      OneLess(s.pending, request);
      ServerStepKeepsInvariant(s, DispatchFails(request), t);
      LateMeansUnderflow(t);
      UnderflowsLater(s, DispatchFails(request), t);
    }
  }

  // In every reachable state: an underflow has happened or can still happen, without a further late
  // interruption, exactly when some dispatching call was interrupted after its handler had begun.
  lemma UnderflowIff(states: seq<ServerState>, events: seq<ServerEvent>, limit: nat, i: nat)
    requires IsServerRun(states, events, limit) && i < |states|
    ensures CanUnderflow(states[i]) <==> states[i].late > 0
  {
    ServerRunKeepsInvariant(states, events, limit, i);
    var s := states[i];
    if s.late > 0 {
      LateMeansUnderflow(s);
    } else {
      forall later: seq<ServerState>, steps: seq<ServerEvent>, j: nat | IsServerRunFrom(s, later, steps) && j < |later|
        ensures !(later[j].broken && later[j].late == s.late)
      {
        RunFromKeepsInvariant(s, later, steps, j);
      }
    }
  }

  // An interruption of the dispatching call after the handler has begun gives one slot back twice.
  lemma LateInterruptionUnderflows() returns (states: seq<ServerState>, events: seq<ServerEvent>)
    ensures IsServerRun(states, events, 1) && events == [Arrive(0), Begin(0), DispatchFails(0), Retire(0)]
    ensures states[4].broken && states[4].slots.active == -1
  {
    var s0 := ServerInitial(1);
    var s1 := s0.(slots := Arrived(s0.slots), arrived := 1, pending := {0});
    var s2 := s1.(pending := {}, serving := {0}, starting := {0});
    var s3 := Decremented(s2.(starting := {}, late := 1), false, Dispatcher(0));
    var s4 := Decremented(s3.(serving := {}), true, Handler(0));
    assert s0.pending + {0} == {0} && s1.pending - {0} == {} && s1.serving + {0} == {0} == s1.starting + {0};
    assert s2.starting - {0} == {} && s3.serving - {0} == {};
    assert ServerNext(s0, Arrive(0), s1) && ServerNext(s1, Begin(0), s2);
    assert ServerNext(s2, DispatchFails(0), s3) && ServerNext(s3, Retire(0), s4);
    hide ServerNext;
    states, events := [s0, s1, s2, s3, s4], [Arrive(0), Begin(0), DispatchFails(0), Retire(0)];
  }

  // Once draining has begun and active has reached 0 it stays at 0, or underflows; the requests still
  // unfinished are as many as there were late interruptions, so without any there are none.
  lemma {:induction false} DrainIsFinal(states: seq<ServerState>, events: seq<ServerEvent>, limit: nat, i: nat, j: nat)
    requires IsServerRun(states, events, limit) && i <= j < |states|
    requires !states[i].slots.accepting && states[i].slots.active == 0
    ensures !states[j].slots.accepting && states[j].slots.active == if states[j].broken then -1 else 0
    ensures |states[j].pending| + |states[j].serving| == states[j].slots.active + states[j].late
    ensures states[j].late == 0 ==> !states[j].broken && states[j].pending == {} && states[j].serving == {}
    decreases j
  {
    ServerRunKeepsInvariant(states, events, limit, j);
    if i < j {
      DrainIsFinal(states, events, limit, i, j - 1);
      assert ServerNext(states[j - 1], events[j - 1], states[j]);
    }
  }

  // ----- the byte budget -----

  const MAXIMUM_REQUEST_BYTES := 4 * 1024 * 1024

  datatype Budget = Budget(maximum: nat, current: int, peak: int, rejections: nat)

  predicate Fits(b: Budget, requested: nat) {
    b.current + requested <= b.maximum
  }

  function Reserved(b: Budget, requested: nat): Budget {
    if Fits(b, requested) then
      b.(current := b.current + requested, peak := if b.current + requested > b.peak then b.current + requested else b.peak)
    else b.(rejections := b.rejections + 1)
  }

  // None stands for the underflow error.
  function Freed(b: Budget, released: nat): Option<Budget> {
    if b.current - released < 0 then None else Some(b.(current := b.current - released))
  }

  datatype BudgetError = OutsideBounds | NegativeRelease | Underflow

  class RequestByteBudget {
    const maximum: nat
    var current: int
    var peak: int
    var rejections: nat

    ghost function View(): Budget
      reads this
    {
      Budget(maximum, current, peak, rejections)
    }

    constructor (maximum: nat)
      requires MAXIMUM_REQUEST_BYTES <= maximum <= 0x4000_0000
      ensures View() == Budget(maximum, 0, 0, 0)
    {
      this.maximum := maximum;
      current, peak, rejections := 0, 0, 0;
    }

    method Reserve(requested: int) returns (r: Result<bool, BudgetError>)
      modifies this
      ensures r.Err? <==> !(0 <= requested <= 4_194_304)
      ensures r.Err? ==> unchanged(this) && r.error == OutsideBounds
      ensures r == Ok(true) <==> 0 <= requested <= 4_194_304 && old(current) + requested <= maximum
      ensures r == Ok(true) ==>
        && current == old(current) + requested && rejections == old(rejections)
        && peak >= old(peak) && peak >= current && peak in {old(peak), current}
      ensures r == Ok(false) ==> current == old(current) && peak == old(peak) && rejections == old(rejections) + 1
      ensures r.Ok? ==> r.value == Fits(old(View()), requested) && View() == Reserved(old(View()), requested)
    {
      if !(0 <= requested <= MAXIMUM_REQUEST_BYTES) {
        return Err(OutsideBounds);
      }
      if current + requested > maximum {
        rejections := rejections + 1;
        return Ok(false);
      }
      current := current + requested;
      peak := if current > peak then current else peak;
      return Ok(true);
    }

    method Release(released: int) returns (r: Result<(), BudgetError>)
      modifies this`current
      ensures r == Err(NegativeRelease) <==> released < 0
      ensures released < 0 ==> unchanged(this)
      ensures released >= 0 ==> current == old(current) - released && (r == Err(Underflow) <==> current < 0)
      ensures released >= 0 ==>
        && (r.Err? <==> Freed(old(View()), released).None?)
        && (r.Ok? ==> View() == Freed(old(View()), released).value)
        && (r.Err? ==> r.error == Underflow && View() == old(View()).(current := old(current) - released) && current < 0)
    {
      if released < 0 {
        return Err(NegativeRelease);
      }
      current := current - released;
      if current < 0 {
        return Err(Underflow);
      }
      return Ok(());
    }
  }

  // A handler's native completion: never handed out, still running, or finished.
  datatype Completion = NoCompletion | Pending | Done

  // A reservation is held by its handler, or by the completion's one-shot callback.
  datatype Holder = Handling(bytes: nat, completion: Completion) | Awaiting(bytes: nat)

  datatype ByteState = ByteState(
    budget: Budget,
    holders: map<nat, Holder>,
    granted: map<nat, nat>,
    releases: multiset<nat>,
    broken: bool)

  datatype ByteEvent =
    | Reserve(handler: nat, bytes: nat)
    | HandOut(handler: nat)
    | Complete(handler: nat)
    | Finish(handler: nat)

  function ByteInitial(maximum: nat): ByteState {
    ByteState(Budget(maximum, 0, 0, 0), map[], map[], multiset{}, false)
  }

  function Outstanding(holders: map<nat, Holder>): map<nat, nat> {
    map h | h in holders :: holders[h].bytes
  }

  // Gives the bytes of one holder back.
  function Settle(s: ByteState, handler: nat): ByteState
    requires handler in s.holders
  {
    match Freed(s.budget, s.holders[handler].bytes)
    case None => s.(broken := true)
    case Some(budget) => s.(budget := budget, holders := s.holders - {handler}, releases := s.releases + multiset{handler})
  }

  predicate ByteNext(s: ByteState, event: ByteEvent, t: ByteState) {
    match event
    case Reserve(handler, bytes) =>
      && handler !in s.granted && bytes <= MAXIMUM_REQUEST_BYTES
      && t == (if Fits(s.budget, bytes) then
                 s.(budget := Reserved(s.budget, bytes), holders := s.holders[handler := Handling(bytes, NoCompletion)],
                    granted := s.granted[handler := bytes])
               else s.(budget := Reserved(s.budget, bytes)))
    case HandOut(handler) =>
      && handler in s.holders && s.holders[handler].Handling? && s.holders[handler].completion.NoCompletion?
      && t == s.(holders := s.holders[handler := Handling(s.holders[handler].bytes, Pending)])
    case Complete(handler) =>
      // The native call ends: a registered callback runs, otherwise the handler will find it done.
      && handler in s.holders
      && (s.holders[handler].Awaiting? || s.holders[handler].completion.Pending?)
      && t == (if s.holders[handler].Awaiting? then Settle(s, handler)
               else s.(holders := s.holders[handler := Handling(s.holders[handler].bytes, Done)]))
    case Finish(handler) =>
      // The end of do_POST: nothing reserved, wait for the completion, or release now.
      && handler in s.holders && s.holders[handler].Handling?
      && t == (if s.holders[handler].bytes == 0 then s.(holders := s.holders - {handler})
               else if s.holders[handler].completion.Pending? then
                 s.(holders := s.holders[handler := Awaiting(s.holders[handler].bytes)])
               else Settle(s, handler))
  }

  // In-flight bytes are the outstanding reservations; what is no longer held was released
  // exactly once (never, if nothing was reserved).
  ghost predicate ByteInvariant(s: ByteState) {
    && s.budget.current == Totals.Total(Outstanding(s.holders))
    && 0 <= s.budget.current <= s.budget.peak <= s.budget.maximum
    && (forall h :: h in s.holders ==> h in s.granted && s.granted[h] == s.holders[h].bytes)
    && (forall h :: h in s.holders && s.holders[h].Awaiting? ==> s.holders[h].bytes > 0)
    && (forall h :: h in s.granted ==> s.releases[h] == if h in s.holders || s.granted[h] == 0 then 0 else 1)
    && (forall h :: h in s.releases ==> h in s.granted)
    && !s.broken
  }

  // A reservation is refused exactly when it would have exceeded the maximum.
  lemma ReservationMeaning(s: ByteState, handler: nat, bytes: nat, t: ByteState)
    requires ByteInvariant(s) && ByteNext(s, ByteEvent.Reserve(handler, bytes), t)
    ensures handler in t.holders <==> Totals.Total(Outstanding(s.holders)) + bytes <= s.budget.maximum
    ensures handler in t.holders ==> t.holders[handler].bytes == bytes && t.budget.current == s.budget.current + bytes
    ensures handler !in t.holders ==> t == s.(budget := s.budget.(rejections := s.budget.rejections + 1))
  {
    hide Totals.Total;
  }

  lemma ReservationIsDecided(s: ByteState, handler: nat, bytes: nat) returns (t: ByteState)
    requires handler !in s.granted && bytes <= 4_194_304
    ensures ByteNext(s, ByteEvent.Reserve(handler, bytes), t)
  {
    var after := s.(budget := Reserved(s.budget, bytes));
    t := if Fits(s.budget, bytes) then
        after.(holders := s.holders[handler := Handling(bytes, NoCompletion)], granted := s.granted[handler := bytes])
      else after;
  }

  lemma SettleKeepsInvariant(s: ByteState, handler: nat)
    requires ByteInvariant(s) && handler in s.holders && s.holders[handler].bytes > 0
    ensures ByteInvariant(Settle(s, handler))
  {
    Totals.TotalTake(Outstanding(s.holders), handler);
    assert Outstanding(s.holders - {handler}) == Outstanding(s.holders) - {handler};
  }

  // A reservation that only changes hands.
  lemma HandoverKeepsInvariant(s: ByteState, handler: nat, holder: Holder)
    requires ByteInvariant(s) && handler in s.holders && holder.bytes == s.holders[handler].bytes
    requires holder.Awaiting? ==> holder.bytes > 0
    ensures ByteInvariant(s.(holders := s.holders[handler := holder]))
  {
    assert Outstanding(s.holders[handler := holder]) == Outstanding(s.holders);
  }

  lemma EmptyFinishKeepsInvariant(s: ByteState, handler: nat)
    requires ByteInvariant(s) && handler in s.holders && s.holders[handler].bytes == 0
    ensures ByteInvariant(s.(holders := s.holders - {handler}))
  {
    Totals.TotalTake(Outstanding(s.holders), handler);
    assert Outstanding(s.holders - {handler}) == Outstanding(s.holders) - {handler};
  }

  lemma ReserveKeepsInvariant(s: ByteState, handler: nat, bytes: nat)
    requires ByteInvariant(s) && handler !in s.granted && Fits(s.budget, bytes)
    ensures ByteInvariant(s.(budget := Reserved(s.budget, bytes), holders := s.holders[handler := Handling(bytes, NoCompletion)],
                             granted := s.granted[handler := bytes]))
  {
    Totals.TotalUpdate(Outstanding(s.holders), handler, bytes);
    assert Outstanding(s.holders[handler := Handling(bytes, NoCompletion)]) == Outstanding(s.holders)[handler := bytes];
  }

  lemma ByteStepKeepsInvariant(s: ByteState, event: ByteEvent, t: ByteState)
    requires ByteInvariant(s) && ByteNext(s, event, t)
    ensures ByteInvariant(t)
  {
    if event.Reserve? {
      if Fits(s.budget, event.bytes) {
        ReserveKeepsInvariant(s, event.handler, event.bytes);
      }
    } else {
      HolderStepKeepsInvariant(s, event, t);
    }
  }

  lemma HolderStepKeepsInvariant(s: ByteState, event: ByteEvent, t: ByteState)
    requires ByteInvariant(s) && ByteNext(s, event, t) && !event.Reserve?
    ensures ByteInvariant(t)
  {
    hide ByteInvariant, Settle, Outstanding;
    var bytes := s.holders[event.handler].bytes;
    match event
    case HandOut(handler) =>
      HandoverKeepsInvariant(s, handler, Handling(bytes, Pending));
    case Complete(handler) =>
      if s.holders[handler].Awaiting? {
        AwaitingIsNotEmpty(s, handler);
        SettleKeepsInvariant(s, handler);
      } else {
        HandoverKeepsInvariant(s, handler, Handling(bytes, Done));
      }
    case Finish(handler) =>
      if bytes == 0 {
        EmptyFinishKeepsInvariant(s, handler);
      } else if s.holders[handler].completion.Pending? {
        HandoverKeepsInvariant(s, handler, Awaiting(bytes));
      } else {
        SettleKeepsInvariant(s, handler);
      }
  }

  lemma AwaitingIsNotEmpty(s: ByteState, handler: nat)
    requires ByteInvariant(s) && handler in s.holders && s.holders[handler].Awaiting?
    ensures s.holders[handler].bytes > 0
  {
  }

  predicate IsByteRun(states: seq<ByteState>, events: seq<ByteEvent>, maximum: nat) {
    && |states| == |events| + 1
    && states[0] == ByteInitial(maximum)
    && forall i :: 0 <= i < |events| ==> ByteNext(states[i], events[i], states[i + 1])
  }

  lemma {:induction false} ByteRunKeepsInvariant(states: seq<ByteState>, events: seq<ByteEvent>, maximum: nat, i: nat)
    requires IsByteRun(states, events, maximum) && i < |states|
    ensures ByteInvariant(states[i]) && states[i].budget.maximum == maximum
  {
    if i > 0 {
      ByteRunKeepsInvariant(states, events, maximum, i - 1);
      ByteStepKeepsInvariant(states[i - 1], events[i - 1], states[i]);
      MaximumIsFixed(states[i - 1], events[i - 1], states[i]);
    }
  }

  lemma MaximumIsFixed(s: ByteState, event: ByteEvent, t: ByteState)
    requires ByteNext(s, event, t)
    ensures t.budget.maximum == s.budget.maximum
  {
  }

  // With no reservation outstanding all bytes are back, and each non-empty grant was released
  // exactly once, whether its native completion came early, late or not at all.
  lemma QuiescentBudgetIsEmpty(states: seq<ByteState>, events: seq<ByteEvent>, maximum: nat, i: nat)
    requires IsByteRun(states, events, maximum) && i < |states| && states[i].holders == map[]
    ensures states[i].budget.current == 0
    ensures forall h :: h in states[i].granted ==> states[i].releases[h] == if states[i].granted[h] == 0 then 0 else 1
  {
    ByteRunKeepsInvariant(states, events, maximum, i);
    assert Outstanding(states[i].holders) == map[];
  }
}
