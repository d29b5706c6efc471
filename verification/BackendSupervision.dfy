// One managed backend child under a watchdog, planned restarts and a final stop, as a state
// machine whose steps interleave in any order.
module BackendSupervision {
  import opened Results
  import opened SetSizes

  // Who holds the lifecycle lock.
  datatype Agent = Starter | Watchdog | Planner | Stopper(call: nat)

  // How far the holder is: stopping the current child, having killed it, about to create a
  // child, waiting for it to become ready, stopping it after a readiness timeout, finished.
  datatype Phase = Stopping | Killed | Starting | Waiting | TimedOut | ReapedAfterTimeout | Finished(succeeded: bool)

  datatype Lock = Free | Held(agent: Agent, phase: Phase)

  // The watchdog thread: not created; polling; having seen no running child; backing off;
  // about to take the lock; inside it; having released it; returned.
  datatype Monitor = NotStarted | Polling | SawDown | BackingOff | WantsLock | Restarting | Restarted(succeeded: bool) | Returned

  // A stop call after its locked part: about to look for a watchdog thread, or joining it.
  datatype Tail = Leaving | Joining

  datatype State = State(
    live: set<nat>,
    spawned: nat,
    process: Option<nat>,
    ready: bool,
    lock: Lock,
    stopRequested: bool,
    // Stop calls are numbered as they take the lock.
    calls: nat,
    tails: map<nat, Tail>,
    returned: set<nat>,
    monitor: Monitor,
    restartCount: nat,
    restartFailures: nat,
    plannedRestarts: nat,
    exhausted: bool,
    // How often the watchdog has called the process's restart.
    attempts: nat)

  const INITIAL := State({}, 0, None, false, Free, false, 0, map[], {}, NotStarted, 0, 0, 0, false, 0)

  // What the code reads as `running`: a recorded child that has not exited.
  predicate Running(s: State) {
    s.process.Some? && s.process.value in s.live
  }

  datatype Event =
    | BeginStart
    | BeginPlannedRestart
    | RequestStop
    | BeginStop
    | LookForWatchdog(call: nat)
    | JoinEnds(call: nat)
    | JoinExpires(call: nat)
    | KillChild
    | ForgetChild
    | CreateChild
    | CreationFails
    | BecomeReady
    | SeeExit
    | TimeOut
    | Release
    | ChildDies(child: nat)
    | Poll
    | CheckBudget
    | BackOff
    | TakeLock
    | CountAttempt

  // ----- the steps -----

  // The lock holder's steps inside the process's start, stop and restart.
  predicate HolderStep(s: State, event: Event, t: State)
    requires s.lock.Held?
  {
    var agent, phase := s.lock.agent, s.lock.phase;
    match event
    case KillChild =>
      && (phase.Stopping? || phase.TimedOut?)
      && t == s.(
        live := if s.process.Some? then s.live - {s.process.value} else s.live,
        ready := false,
        lock := Held(agent, if phase.Stopping? then Killed else ReapedAfterTimeout))
    case ForgetChild =>
      && (phase.Killed? || phase.ReapedAfterTimeout?)
      && t == s.(
        process := None,
        lock := Held(agent, if phase.ReapedAfterTimeout? then Finished(false)
                            else if agent.Stopper? then Finished(true) else Starting))
    case CreateChild =>
      && phase.Starting? && s.process.None?
      && t == s.(live := s.live + {s.spawned}, process := Some(s.spawned), spawned := s.spawned + 1, lock := Held(agent, Waiting))
    case CreationFails =>
      // The port is taken, the child cannot be created, or one is already recorded.
      phase.Starting? && t == s.(lock := Held(agent, Finished(false)))
    case BecomeReady =>
      phase.Waiting? && t == s.(ready := true, lock := Held(agent, Finished(true)))
    case SeeExit =>
      // The dead child stays recorded.
      phase.Waiting? && !Running(s) && t == s.(lock := Held(agent, Finished(false)))
    case TimeOut =>
      phase.Waiting? && t == s.(lock := Held(agent, TimedOut))
    case Release =>
      && phase.Finished?
      && t == s.(
        lock := Free,
        monitor := if agent.Starter? && phase.succeeded then Polling
                   else if agent.Watchdog? then Restarted(phase.succeeded) else s.monitor,
        plannedRestarts := if agent.Planner? && phase.succeeded then s.plannedRestarts + 1 else s.plannedRestarts,
        tails := if agent.Stopper? then s.tails[agent.call := Leaving] else s.tails)
    case _ => false
  }

  // The watchdog's own steps.
  predicate MonitorStep(s: State, event: Event, t: State, maximumRestarts: nat) {
    match event
    case Poll =>
      && s.monitor.Polling?
      && t == s.(monitor := if s.stopRequested then Returned else if Running(s) then Polling else SawDown)
    case CheckBudget =>
      && s.monitor.SawDown?
      && t == if s.restartCount >= maximumRestarts then s.(exhausted := true, monitor := Returned)
              else s.(monitor := BackingOff)
    case BackOff =>
      && s.monitor.BackingOff?
      && t == s.(monitor := if s.stopRequested then Returned else WantsLock)
    case TakeLock =>
      && s.monitor.WantsLock? && s.lock.Free?
      && t == if s.stopRequested then s.(monitor := Returned)
              else if Running(s) then s.(monitor := Polling)
              else s.(lock := Held(Watchdog, Stopping), monitor := Restarting, attempts := s.attempts + 1)
    case CountAttempt =>
      && s.monitor.Restarted?
      && t == s.(
        restartCount := s.restartCount + 1,
        restartFailures := s.restartFailures + (if s.monitor.succeeded then 0 else 1),
        monitor := Polling)
    case _ => false
  }

  function HasReturned(s: State, call: nat): State {
    s.(tails := s.tails - {call}, returned := s.returned + {call})
  }

  // The rest of a stop call after its locked part; the join may give up waiting.
  predicate TailStep(s: State, event: Event, t: State) {
    match event
    case LookForWatchdog(call) =>
      && call in s.tails && s.tails[call].Leaving?
      && t == if s.monitor.NotStarted? then HasReturned(s, call) else s.(tails := s.tails[call := Joining])
    case JoinEnds(call) =>
      call in s.tails && s.tails[call].Joining? && s.monitor.Returned? && t == HasReturned(s, call)
    case JoinExpires(call) =>
      call in s.tails && s.tails[call].Joining? && t == HasReturned(s, call)
    case _ => false
  }

  // Calls from outside, and the child's own death.
  predicate OutsideStep(s: State, event: Event, t: State) {
    match event
    case BeginStart =>
      s.lock.Free? && s.monitor.NotStarted? && t == s.(lock := Held(Starter, Starting))
    case BeginPlannedRestart =>
      s.lock.Free? && !s.stopRequested && t == s.(lock := Held(Planner, Stopping))
    case RequestStop =>
      t == s.(stopRequested := true)
    case BeginStop =>
      s.lock.Free? && s.stopRequested && t == s.(lock := Held(Stopper(s.calls), Stopping), calls := s.calls + 1)
    case ChildDies(child) =>
      child in s.live && t == s.(live := s.live - {child})
    case _ => false
  }

  predicate Next(s: State, event: Event, t: State, maximumRestarts: nat) {
    || OutsideStep(s, event, t) || TailStep(s, event, t) || MonitorStep(s, event, t, maximumRestarts)
    || (s.lock.Held? && HolderStep(s, event, t))
  }

  // ----- the inductive invariant -----

  // Only a recorded child can be alive.
  predicate OneChild(s: State) {
    && (forall child :: child in s.live ==> s.process == Some(child))
    && (s.process.Some? ==> s.process.value < s.spawned)
    && (s.lock.Held? && s.lock.phase in {Killed, ReapedAfterTimeout} ==> s.live == {})
  }

  predicate Budget(s: State, maximumRestarts: nat) {
    && s.restartFailures <= s.restartCount <= maximumRestarts
    && s.attempts == s.restartCount + (if s.monitor.Restarting? || s.monitor.Restarted? then 1 else 0)
    && (s.monitor in {BackingOff, WantsLock} ==> s.restartCount < maximumRestarts)
    && s.attempts <= maximumRestarts
    && (s.exhausted ==> s.restartCount == maximumRestarts && s.monitor.Returned?)
  }

  predicate LockOwnership(s: State) {
    && (s.monitor.Restarting? <==> s.lock.Held? && s.lock.agent.Watchdog?)
    && (s.lock.Held? && s.lock.agent.Stopper? ==> s.stopRequested && s.lock.phase in {Stopping, Killed, Finished(true)})
    && (s.lock.Held? && s.lock.agent.Stopper? && s.lock.phase.Finished? ==> s.process.None?)
    && (s.lock.Held? && s.lock.agent.Starter? ==> s.monitor.NotStarted? && s.lock.phase !in {Stopping, Killed})
  }

  // Call numbers are used once.
  predicate CallsAreFresh(s: State) {
    && (forall call :: call in s.tails ==> call < s.calls)
    && (forall call :: call in s.returned ==> call < s.calls)
    && (s.lock.Held? && s.lock.agent.Stopper? ==> s.lock.agent.call < s.calls)
    && (s.lock.Held? && s.lock.agent.Stopper? ==> s.lock.agent.call !in s.tails && s.lock.agent.call !in s.returned)
    && (forall call :: call in s.tails ==> call !in s.returned)
  }

  predicate Invariant(s: State, maximumRestarts: nat) {
    OneChild(s) && Budget(s, maximumRestarts) && LockOwnership(s) && CallsAreFresh(s)
  }

  lemma StepKeepsInvariant(s: State, event: Event, t: State, maximumRestarts: nat)
    requires Invariant(s, maximumRestarts) && Next(s, event, t, maximumRestarts)
    ensures Invariant(t, maximumRestarts)
  {
    hide Invariant, OutsideStep, TailStep, MonitorStep, HolderStep;
    if OutsideStep(s, event, t) {
      OutsideKeepsInvariant(s, event, t, maximumRestarts);
    } else if TailStep(s, event, t) {
      TailKeepsInvariant(s, event, t, maximumRestarts);
    } else if MonitorStep(s, event, t, maximumRestarts) {
      MonitorKeepsInvariant(s, event, t, maximumRestarts);
    } else {
      HolderKeepsInvariant(s, event, t, maximumRestarts);
    }
  }

  lemma OutsideKeepsInvariant(s: State, event: Event, t: State, maximumRestarts: nat)
    requires Invariant(s, maximumRestarts) && OutsideStep(s, event, t)
    ensures Invariant(t, maximumRestarts)
  {
  }

  lemma TailKeepsInvariant(s: State, event: Event, t: State, maximumRestarts: nat)
    requires Invariant(s, maximumRestarts) && TailStep(s, event, t)
    ensures Invariant(t, maximumRestarts)
  {
  }

  lemma MonitorKeepsInvariant(s: State, event: Event, t: State, maximumRestarts: nat)
    requires Invariant(s, maximumRestarts) && MonitorStep(s, event, t, maximumRestarts)
    ensures Invariant(t, maximumRestarts)
  {
  }

  lemma HolderKeepsInvariant(s: State, event: Event, t: State, maximumRestarts: nat)
    requires Invariant(s, maximumRestarts) && s.lock.Held? && HolderStep(s, event, t)
    ensures Invariant(t, maximumRestarts)
  {
  }

  // ----- whole runs -----

  predicate IsRunFrom(s: State, states: seq<State>, events: seq<Event>, maximumRestarts: nat) {
    && |states| == |events| + 1
    && states[0] == s
    && forall i :: 0 <= i < |events| ==> Next(states[i], events[i], states[i + 1], maximumRestarts)
  }

  predicate IsRun(states: seq<State>, events: seq<Event>, maximumRestarts: nat) {
    IsRunFrom(INITIAL, states, events, maximumRestarts)
  }

  lemma {:induction false} RunKeepsInvariant(states: seq<State>, events: seq<Event>, maximumRestarts: nat, i: nat)
    requires IsRun(states, events, maximumRestarts) && i < |states|
    ensures Invariant(states[i], maximumRestarts)
    decreases i
  {
    if i > 0 {
      RunKeepsInvariant(states, events, maximumRestarts, i - 1);
      StepKeepsInvariant(states[i - 1], events[i - 1], states[i], maximumRestarts);
    }
  }

  lemma AtMostOne(live: set<nat>, process: Option<nat>)
    requires forall child :: child in live ==> process == Some(child)
    ensures |live| <= 1
  {
    if process.Some? {
      assert live <= {process.value};
      SubsetSize(live, {process.value});
    } else {
      assert live == {};
    }
  }

  // Over every interleaving: never two live children, and the watchdog restarts at most
  // maximumRestarts times and counts no more failures than restarts.
  lemma SupervisionIsSafe(states: seq<State>, events: seq<Event>, maximumRestarts: nat, i: nat)
    requires IsRun(states, events, maximumRestarts) && i < |states|
    ensures |states[i].live| <= 1
    ensures states[i].attempts <= maximumRestarts && states[i].restartFailures <= states[i].restartCount <= states[i].attempts
    ensures states[i].exhausted ==> states[i].restartCount == maximumRestarts && states[i].monitor.Returned?
  {
    RunKeepsInvariant(states, events, maximumRestarts, i);
    AtMostOne(states[i].live, states[i].process);
  }

  // A child is killed before the next is created, so a live child is always the newest one.
  lemma LiveChildIsNewest(states: seq<State>, events: seq<Event>, maximumRestarts: nat, i: nat, child: nat)
    requires IsRun(states, events, maximumRestarts) && i < |states| && child in states[i].live
    ensures child + 1 == states[i].spawned
  {
    RunRecordsNewest(states, events, maximumRestarts, i);
  }

  predicate RecordsNewest(s: State) {
    && (forall child :: child in s.live ==> s.process == Some(child))
    && (s.process.Some? ==> s.process.value + 1 == s.spawned)
    && (s.lock.Held? && s.lock.phase in {Killed, ReapedAfterTimeout} ==> s.live == {})
  }

  lemma {:induction false} RunRecordsNewest(states: seq<State>, events: seq<Event>, maximumRestarts: nat, i: nat)
    requires IsRun(states, events, maximumRestarts) && i < |states|
    ensures RecordsNewest(states[i])
    decreases i
  {
    if i > 0 {
      RunRecordsNewest(states, events, maximumRestarts, i - 1);
      StepRecordsNewest(states[i - 1], events[i - 1], states[i], maximumRestarts);
    }
  }

  lemma StepRecordsNewest(s: State, event: Event, t: State, maximumRestarts: nat)
    requires RecordsNewest(s) && Next(s, event, t, maximumRestarts)
    ensures RecordsNewest(t)
  {
    if OutsideStep(s, event, t) {
      hide MonitorStep, HolderStep, TailStep;
    } else if TailStep(s, event, t) {
      hide MonitorStep, HolderStep, OutsideStep;
    } else if MonitorStep(s, event, t, maximumRestarts) {
      hide HolderStep, OutsideStep, TailStep;
    } else {
      HolderRecordsNewest(s, event, t);
    }
  }

  lemma HolderRecordsNewest(s: State, event: Event, t: State)
    requires RecordsNewest(s) && s.lock.Held? && HolderStep(s, event, t)
    ensures RecordsNewest(t)
  {
  }

  // ----- what a stop guarantees -----

  // The step into t ends the locked part of a stop call; the call itself goes on.
  predicate LockedPartEnds(s: State, event: Event, t: State, call: nat) {
    s.lock == Held(Stopper(call), Finished(true)) && event.Release? && HolderStep(s, event, t)
  }

  // The step from s to t is the return of the call.
  predicate Returns(s: State, t: State, call: nat) {
    call !in s.returned && call in t.returned
  }

  // What holds from the end of a stop's locked part on: the lock is free or with a start or a stop.
  predicate AfterStop(s: State) {
    s.stopRequested && (s.lock.Free? || s.lock.agent.Starter? || s.lock.agent.Stopper?)
  }

  // Nothing is alive, and no step can create a child again.
  predicate Sealed(s: State) {
    && s.stopRequested && s.live == {}
    && if s.lock.Free? || s.lock.agent.Stopper? then
         && !s.monitor.NotStarted?
         && (s.lock.Held? ==> s.lock.phase in {Stopping, Killed, Finished(true)})
       else s.lock == Held(Starter, Finished(true))
  }

  lemma StepKeepsSealed(s: State, event: Event, t: State, maximumRestarts: nat)
    requires Sealed(s) && Next(s, event, t, maximumRestarts)
    ensures Sealed(t)
  {
  }

  lemma {:induction false} RunKeepsSealed(s: State, states: seq<State>, events: seq<Event>, maximumRestarts: nat, i: nat, j: nat)
    requires IsRunFrom(s, states, events, maximumRestarts) && i <= j < |states| && Sealed(states[i])
    ensures Sealed(states[j])
    decreases j
  {
    if i < j {
      RunKeepsSealed(s, states, events, maximumRestarts, i, j - 1);
      StepKeepsSealed(states[j - 1], events[j - 1], states[j], maximumRestarts);
    }
  }

  // Some continuation of s, or s itself, has a live child.
  ghost predicate CanBeAlive(s: State, maximumRestarts: nat) {
    exists states: seq<State>, events: seq<Event>, i: nat ::
      IsRunFrom(s, states, events, maximumRestarts) && i < |states| && states[i].live != {}
  }

  // In some continuation of s the call returns while a child is alive.
  ghost predicate CanReturnAlive(s: State, call: nat, maximumRestarts: nat) {
    exists states: seq<State>, events: seq<Event>, i: nat ::
      && IsRunFrom(s, states, events, maximumRestarts) && i < |events|
      && Returns(states[i], states[i + 1], call) && states[i + 1].live != {}
  }

  // In some continuation of s the call returns, and a child is alive then or later.
  ghost predicate CanBeAliveAfterReturn(s: State, call: nat, maximumRestarts: nat) {
    exists states: seq<State>, events: seq<Event>, i: nat, j: nat ::
      && IsRunFrom(s, states, events, maximumRestarts) && i < j < |states|
      && Returns(states[i], states[i + 1], call) && states[j].live != {}
  }

  // A start that takes the lock between the locked part and the return, step by step.
  function Begun(s: State): State {
    s.(lock := Held(Starter, Starting))
  }

  function Spawned(s: State): State {
    Begun(s).(live := {s.spawned}, process := Some(s.spawned), spawned := s.spawned + 1, lock := Held(Starter, Waiting))
  }

  function Watched(s: State): State {
    Spawned(s).(ready := true, lock := Free, monitor := Polling)
  }

  lemma StartSteps(s: State, maximumRestarts: nat)
    requires s.lock.Free? && s.monitor.NotStarted? && s.process.None? && s.live == {}
    ensures Next(s, BeginStart, Begun(s), maximumRestarts) && Next(Begun(s), CreateChild, Spawned(s), maximumRestarts)
    ensures
      var readied := Spawned(s).(ready := true, lock := Held(Starter, Finished(true)));
      Next(Spawned(s), BecomeReady, readied, maximumRestarts) && Next(readied, Release, Watched(s), maximumRestarts)
  {
    assert s.live + {s.spawned} == {s.spawned};
  }

  lemma ReturnSteps(s: State, call: nat, maximumRestarts: nat)
    requires s.stopRequested && s.monitor.Polling? && call in s.tails && s.tails[call].Leaving?
    ensures
      var quit := s.(monitor := Monitor.Returned);
      var joining := quit.(tails := s.tails[call := Joining]);
      && Next(s, Poll, quit, maximumRestarts) && Next(quit, LookForWatchdog(call), joining, maximumRestarts)
      && Next(joining, JoinEnds(call), HasReturned(joining, call), maximumRestarts)
  {
  }

  // The watchdog that such a start creates sees the stop request and returns at once, the join ends,
  // and the stop returns with the child alive.
  lemma StartDuringStopSurvives(s: State, call: nat, maximumRestarts: nat)
    returns (states: seq<State>, events: seq<Event>)
    requires s.lock.Free? && s.monitor.NotStarted? && s.process.None? && s.stopRequested && s.live == {}
    requires call in s.tails && s.tails[call].Leaving? && call !in s.returned
    ensures events == [BeginStart, CreateChild, BecomeReady, Release, Poll, LookForWatchdog(call), JoinEnds(call)]
    ensures IsRunFrom(s, states, events, maximumRestarts)
    ensures Returns(states[6], states[7], call) && states[7].live == {s.spawned} && states[7].monitor.Returned?
  {
    var readied := Spawned(s).(ready := true, lock := Held(Starter, Finished(true)));
    var quit := Watched(s).(monitor := Monitor.Returned);
    var joining := quit.(tails := s.tails[call := Joining]);
    StartSteps(s, maximumRestarts);
    ReturnSteps(Watched(s), call, maximumRestarts);
    var last := HasReturned(joining, call);
    assert Returns(joining, last, call) && last.live == {s.spawned} && last.monitor.Returned?;
    hide Next, Begun, Spawned, Watched, HasReturned, Returns;
    states := [s, Begun(s), Spawned(s), readied, Watched(s), quit, joining, last];
    events := [BeginStart, CreateChild, BecomeReady, Release, Poll, LookForWatchdog(call), JoinEnds(call)];
  }

  // The locked part of a stop always ends with no child alive. That none is alive when the call
  // returns, or ever after, is guaranteed exactly when the watchdog had been started by the end of
  // the locked part.
  lemma StopIsFinalIff(states: seq<State>, events: seq<Event>, maximumRestarts: nat, i: nat, call: nat)
    requires IsRun(states, events, maximumRestarts) && i < |events|
    requires LockedPartEnds(states[i], events[i], states[i + 1], call)
    ensures
      var end := states[i + 1];
      && end.live == {} && call !in end.returned
      && AfterStop(end) && Invariant(end, maximumRestarts)
      && (CanReturnAlive(end, call, maximumRestarts) <==> end.monitor.NotStarted?)
      && (CanBeAliveAfterReturn(end, call, maximumRestarts) <==> end.monitor.NotStarted?)
  {
    RunKeepsInvariant(states, events, maximumRestarts, i);
    RunKeepsInvariant(states, events, maximumRestarts, i + 1);
    var s := states[i + 1];
    assert forall child :: child in s.live ==> false;
    if s.monitor.NotStarted? {
      var later, steps := StartDuringStopSurvives(s, call, maximumRestarts);
      hide IsRunFrom;
      assert later[7].live != {} by { assert s.spawned in later[7].live; }
      assert Returns(later[6], later[6 + 1], call);
    } else {
      assert Sealed(s);
      forall later: seq<State>, steps: seq<Event>, j: nat | IsRunFrom(s, later, steps, maximumRestarts) && j < |later|
        ensures later[j].live == {}
      {
        RunKeepsSealed(s, later, steps, maximumRestarts, 0, j);
      }
    }
  }

  // The failing case is reachable: a stop of a supervisor that was never started, and a start while
  // the stop call is on its way out.
  lemma StopCanReturnWithLiveChild(maximumRestarts: nat) returns (states: seq<State>, events: seq<Event>)
    ensures IsRun(states, events, maximumRestarts)
    ensures events == [RequestStop, BeginStop, KillChild, ForgetChild, Release] +
      [BeginStart, CreateChild, BecomeReady, Release, Poll, LookForWatchdog(0), JoinEnds(0)]
    ensures LockedPartEnds(states[4], events[4], states[5], 0)
    ensures Returns(states[11], states[12], 0) && states[12].live == {0} && states[12].monitor.Returned?
  {
    var before, steps := StopFirst(maximumRestarts);
    var later, more := StartDuringStopSurvives(before[5], 0, maximumRestarts);
    states, events := before + later[1..], steps + more;
    assert steps == [RequestStop, BeginStop, KillChild, ForgetChild, Release];
    hide Next, LockedPartEnds, Returns;
    JoinRuns(INITIAL, before, steps, later, more, maximumRestarts);
    assert states[4] == before[4] && states[5] == before[5] && states[11] == later[6] && states[12] == later[7];
    assert events[4] == steps[4];
  }

  lemma StopFirst(maximumRestarts: nat) returns (states: seq<State>, events: seq<Event>)
    ensures IsRun(states, events, maximumRestarts)
    ensures events == [RequestStop, BeginStop, KillChild, ForgetChild, Release]
    ensures LockedPartEnds(states[4], events[4], states[5], 0)
    ensures states[5] == INITIAL.(stopRequested := true, calls := 1, tails := map[0 := Leaving])
  {
    var s1 := INITIAL.(stopRequested := true);
    var s2 := s1.(lock := Held(Stopper(0), Stopping), calls := 1);
    var s3 := s2.(lock := Held(Stopper(0), Killed));
    var s4 := s3.(lock := Held(Stopper(0), Finished(true)));
    var s5 := s4.(lock := Free, tails := map[0 := Leaving]);
    assert s4.tails[0 := Leaving] == map[0 := Leaving];
    assert Next(INITIAL, RequestStop, s1, maximumRestarts) && Next(s1, BeginStop, s2, maximumRestarts);
    assert Next(s2, KillChild, s3, maximumRestarts) && Next(s3, ForgetChild, s4, maximumRestarts);
    assert Next(s4, Release, s5, maximumRestarts) && LockedPartEnds(s4, Release, s5, 0);
    hide Next, LockedPartEnds;
    states := [INITIAL, s1, s2, s3, s4, s5];
    events := [RequestStop, BeginStop, KillChild, ForgetChild, Release];
  }

  lemma JoinRuns(s: State, states: seq<State>, events: seq<Event>, later: seq<State>, more: seq<Event>, maximumRestarts: nat)
    requires IsRunFrom(s, states, events, maximumRestarts) && IsRunFrom(states[|states| - 1], later, more, maximumRestarts)
    ensures IsRunFrom(s, states + later[1..], events + more, maximumRestarts)
  {
    hide Next;
    var all, steps := states + later[1..], events + more;
    forall i | 0 <= i < |steps| ensures Next(all[i], steps[i], all[i + 1], maximumRestarts) {
      if i < |events| {
        assert all[i] == states[i] && all[i + 1] == states[i + 1] && steps[i] == events[i];
      } else {
        var k := i - |events|;
        assert all[i] == later[k] && all[i + 1] == later[k + 1] && steps[i] == more[k];
      }
    }
  }

  // ----- after the return -----

  lemma StepKeepsAfterStop(s: State, event: Event, t: State, maximumRestarts: nat)
    requires AfterStop(s) && Next(s, event, t, maximumRestarts)
    ensures AfterStop(t)
  {
  }

  lemma {:induction false} RunKeepsAfterStop(s: State, states: seq<State>, events: seq<Event>, maximumRestarts: nat, i: nat)
    requires IsRunFrom(s, states, events, maximumRestarts) && i < |states| && AfterStop(s) && Invariant(s, maximumRestarts)
    ensures AfterStop(states[i]) && Invariant(states[i], maximumRestarts)
    decreases i
  {
    if i > 0 {
      RunKeepsAfterStop(s, states, events, maximumRestarts, i - 1);
      StepKeepsAfterStop(states[i - 1], events[i - 1], states[i], maximumRestarts);
      StepKeepsInvariant(states[i - 1], events[i - 1], states[i], maximumRestarts);
    }
  }

  lemma AliveNow(s: State, maximumRestarts: nat)
    requires s.live != {}
    ensures CanBeAlive(s, maximumRestarts)
  {
    var states: seq<State>, events: seq<Event> := [s], [];
    assert IsRunFrom(s, states, events, maximumRestarts);
    assert states[0].live != {};
  }

  lemma AliveLater(s: State, event: Event, t: State, maximumRestarts: nat)
    requires Next(s, event, t, maximumRestarts) && CanBeAlive(t, maximumRestarts)
    ensures CanBeAlive(s, maximumRestarts)
  {
    hide Next;
    var states: seq<State>, events: seq<Event>, i: nat :|
      IsRunFrom(t, states, events, maximumRestarts) && i < |states| && states[i].live != {};
    var first: seq<State>, step: seq<Event> := [s, t], [event];
    assert IsRunFrom(s, first, step, maximumRestarts);
    JoinRuns(s, first, step, states, events, maximumRestarts);
    var all := first + states[1..];
    assert all[i + 1] == states[i];
  }

  // The way from an unstarted supervisor to a live child: the holder finishes, a stop clears what a
  // failed start left recorded, and a start begins.
  function Distance(s: State): nat {
    match s.lock
    case Free => if s.process.Some? then 5 else 1
    case Held(agent, phase) =>
      if agent.Stopper? then (match phase case Stopping => 4 case Killed => 3 case _ => 2)
      else (match phase case TimedOut => 9 case ReapedAfterTimeout => 8 case Finished(_) => 6 case _ => 7)
  }

  predicate WillNotStart(s: State) {
    !s.monitor.NotStarted? || s.lock == Held(Starter, Finished(true))
  }

  // The next step of that way.
  function Onward(s: State): (Event, State)
    requires s.lock.Held?
  {
    var agent, phase := s.lock.agent, s.lock.phase;
    match phase
    case Stopping => (KillChild, s.(live := if s.process.Some? then s.live - {s.process.value} else s.live,
                                    ready := false, lock := Held(agent, Killed)))
    case Killed => (ForgetChild, s.(process := None, lock := Held(agent, if agent.Stopper? then Finished(true) else Starting)))
    case Starting => (CreationFails, s.(lock := Held(agent, Finished(false))))
    case Waiting => (SeeExit, s.(lock := Held(agent, Finished(false))))
    case TimedOut => (KillChild, s.(live := if s.process.Some? then s.live - {s.process.value} else s.live,
                                    ready := false, lock := Held(agent, ReapedAfterTimeout)))
    case ReapedAfterTimeout => (ForgetChild, s.(process := None, lock := Held(agent, Finished(false))))
    case Finished(_) => (Release, s.(lock := Free, tails := if agent.Stopper? then s.tails[agent.call := Leaving] else s.tails))
  }

  lemma OnwardIsStep(s: State, maximumRestarts: nat)
    requires Invariant(s, maximumRestarts) && AfterStop(s) && !WillNotStart(s) && s.live == {} && s.lock.Held?
    ensures
      var (event, t) := Onward(s);
      Next(s, event, t, maximumRestarts) && t.live == {} && !WillNotStart(t) && Distance(t) < Distance(s)
  {
  }

  lemma {:induction false} UnstartedCanBeAlive(s: State, maximumRestarts: nat)
    requires Invariant(s, maximumRestarts) && AfterStop(s) && !WillNotStart(s) && s.live == {}
    ensures CanBeAlive(s, maximumRestarts)
    decreases Distance(s)
  {
    if s.lock.Held? {
      OnwardIsStep(s, maximumRestarts);
      var (event, t) := Onward(s);
      StepKeepsInvariant(s, event, t, maximumRestarts);
      StepKeepsAfterStop(s, event, t, maximumRestarts);
      UnstartedCanBeAlive(t, maximumRestarts);
      AliveLater(s, event, t, maximumRestarts);
    } else if s.process.Some? {
      var t := s.(lock := Held(Stopper(s.calls), Stopping), calls := s.calls + 1);
      assert Next(s, BeginStop, t, maximumRestarts);
      StepKeepsInvariant(s, BeginStop, t, maximumRestarts);
      UnstartedCanBeAlive(t, maximumRestarts);
      AliveLater(s, BeginStop, t, maximumRestarts);
    } else {
      StartSteps(s, maximumRestarts);
      assert s.spawned in Spawned(s).live;
      AliveNow(Spawned(s), maximumRestarts);
      AliveLater(Begun(s), CreateChild, Spawned(s), maximumRestarts);
      AliveLater(s, BeginStart, Begun(s), maximumRestarts);
    }
  }

  // At the return of a stop call, and anywhere after its locked part: a child is alive now or in some
  // continuation exactly when one is alive, or no watchdog exists and the lock is not with a start that
  // is about to end with a dead child.
  lemma AliveAfterStopIff(s: State, states: seq<State>, events: seq<Event>, maximumRestarts: nat, i: nat)
    requires AfterStop(s) && Invariant(s, maximumRestarts)
    requires IsRunFrom(s, states, events, maximumRestarts) && i < |states|
    ensures CanBeAlive(states[i], maximumRestarts) <==> states[i].live != {} || !WillNotStart(states[i])
  {
    RunKeepsAfterStop(s, states, events, maximumRestarts, i);
    var r := states[i];
    if r.live != {} {
      AliveNow(r, maximumRestarts);
    } else if !WillNotStart(r) {
      UnstartedCanBeAlive(r, maximumRestarts);
    } else {
      assert Sealed(r);
      forall later: seq<State>, steps: seq<Event>, j: nat | IsRunFrom(r, later, steps, maximumRestarts) && j < |later|
        ensures later[j].live == {}
      {
        RunKeepsSealed(r, later, steps, maximumRestarts, 0, j);
      }
    }
  }
}
