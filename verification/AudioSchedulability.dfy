// When the tasks that an audio scheduler admits meet their deadlines.
module AudioSchedulability {
  import opened Results
  import opened AudioDeadlineScheduling

  // ----- schedules -----

  // Run back to back from `begin`, each for its estimate, every task ends by its deadline.
  predicate Feasible(begin: real, active: seq<Queued>)
    decreases |active|
  {
    active == [] || (begin + active[0].task.estimate <= active[0].task.deadline
      && Feasible(begin + active[0].task.estimate, active[1..]))
  }

  // When task i ends if the tasks run back to back from `begin`, each for its estimate.
  function PlannedFinish(begin: real, active: seq<Queued>, i: nat): real
    requires i < |active|
    decreases |active|
  {
    if i == 0 then begin + active[0].task.estimate
    else PlannedFinish(begin + active[0].task.estimate, active[1..], i - 1)
  }

  lemma {:induction false} FeasibleIff(begin: real, active: seq<Queued>)
    ensures Feasible(begin, active) <==>
      forall i :: 0 <= i < |active| ==> PlannedFinish(begin, active, i) <= active[i].task.deadline
    decreases |active|
  {
    if active != [] {
      var later := begin + active[0].task.estimate;
      FeasibleIff(later, active[1..]);
      assert PlannedFinish(begin, active, 0) == later;
      if forall i :: 0 <= i < |active| ==> PlannedFinish(begin, active, i) <= active[i].task.deadline {
        forall i | 0 <= i < |active| - 1 ensures PlannedFinish(later, active[1..], i) <= active[1..][i].task.deadline {
          assert PlannedFinish(begin, active, i + 1) <= active[i + 1].task.deadline;
        }
      }
    }
  }

  lemma {:induction false} FinishShifts(begin: real, delay: real, active: seq<Queued>, i: nat)
    requires i < |active|
    ensures PlannedFinish(begin + delay, active, i) == PlannedFinish(begin, active, i) + delay
    decreases |active|
  {
    if i > 0 {
      FinishShifts(begin + active[0].task.estimate, delay, active[1..], i - 1);
      assert begin + delay + active[0].task.estimate == begin + active[0].task.estimate + delay;
    }
  }

  lemma {:induction false} FeasibleEarlier(earlier: real, later: real, active: seq<Queued>)
    requires earlier <= later && Feasible(later, active)
    ensures Feasible(earlier, active)
    decreases |active|
  {
    if active != [] {
      FeasibleEarlier(earlier + active[0].task.estimate, later + active[0].task.estimate, active[1..]);
    }
  }

  ghost predicate Positive(active: seq<Queued>) {
    forall i :: 0 <= i < |active| ==> active[i].task.estimate > 0.0
  }

  // The work that runs before q when q is queued.
  function Ahead(active: seq<Queued>, q: Queued): real {
    if active == [] || Before(q, active[0]) then 0.0 else active[0].task.estimate + Ahead(active[1..], q)
  }

  // Every task that runs after q is planned to finish at least q's estimate before its deadline.
  ghost predicate LaterTasksHaveSlack(begin: real, active: seq<Queued>, q: Queued) {
    forall i :: 0 <= i < |active| && Before(q, active[i]) ==>
      active[i].task.deadline - PlannedFinish(begin, active, i) >= q.task.estimate
  }

  lemma FrontSlack(begin: real, active: seq<Queued>, q: Queued)
    requires Ordered(active) && active != [] && Before(q, active[0])
    ensures LaterTasksHaveSlack(begin, active, q) <==> Feasible(begin + q.task.estimate, active)
  {
    FeasibleIff(begin + q.task.estimate, active);
    forall i | 0 <= i < |active|
      ensures Before(q, active[i]) && PlannedFinish(begin + q.task.estimate, active, i) == PlannedFinish(begin, active, i) + q.task.estimate
    {
      assert i > 0 ==> Before(active[0], active[i]);
      FinishShifts(begin, q.task.estimate, active, i);
    }
    hide Feasible, PlannedFinish, Before, Ordered;
  }

  lemma TailSlack(begin: real, active: seq<Queued>, q: Queued)
    requires active != [] && !Before(q, active[0])
    ensures LaterTasksHaveSlack(begin, active, q) <==>
      LaterTasksHaveSlack(begin + active[0].task.estimate, active[1..], q)
  {
    var later := begin + active[0].task.estimate;
    forall i | 0 <= i < |active| - 1 ensures PlannedFinish(later, active[1..], i) == PlannedFinish(begin, active, i + 1) {
    }
    if LaterTasksHaveSlack(begin, active, q) {
      forall i | 0 <= i < |active| - 1 && Before(q, active[1..][i])
        ensures active[1..][i].task.deadline - PlannedFinish(later, active[1..], i) >= q.task.estimate
      {
        assert Before(q, active[i + 1]);
      }
    }
    if LaterTasksHaveSlack(later, active[1..], q) {
      forall i | 0 <= i < |active| && Before(q, active[i])
        ensures active[i].task.deadline - PlannedFinish(begin, active, i) >= q.task.estimate
      {
        assert Before(q, active[1..][i - 1]);
      }
    }
  }

  // Adding q to a feasible schedule that starts at `begin` keeps it feasible exactly when q itself
  // is on time behind the work ahead of it, and each task behind it has the slack.
  lemma {:induction false} InsertFeasibleIff(begin: real, active: seq<Queued>, q: Queued)
    requires Feasible(begin, active) && Ordered(active)
    ensures Feasible(begin, Insert(active, q)) <==>
      begin + Ahead(active, q) + q.task.estimate <= q.task.deadline && LaterTasksHaveSlack(begin, active, q)
    decreases |active|
  {
    if active == [] || Before(q, active[0]) {
      assert ([q] + active)[1..] == active;
      if active == [] {
        assert [q] + active == [q];
      } else {
        FrontSlack(begin, active, q);
      }
    } else {
      var head := active[0].task.estimate;
      InsertFeasibleIff(begin + head, active[1..], q);
      TailSlack(begin, active, q);
      var rest := Insert(active[1..], q);
      assert ([active[0]] + rest)[1..] == rest;
      assert begin + Ahead(active, q) == begin + head + Ahead(active[1..], q);
      hide LaterTasksHaveSlack;
    }
  }

  // Every queued task is at least as urgent as q, in class and in deadline.
  ghost predicate ArrivesLast(active: seq<Queued>, task: Task) {
    forall i :: 0 <= i < |active| ==>
      active[i].task.priority.Level() <= task.priority.Level() && active[i].task.deadline <= task.deadline
  }

  // The admission test counts all queued work ahead of a task that is last in the order.
  lemma {:induction false} LastArrivalSeesWholeBacklog(begin: real, active: seq<Queued>, q: Queued)
    requires ArrivesLast(active, q.task)
    requires forall i :: 0 <= i < |active| ==> active[i].sequence < q.sequence
    ensures Backlog(active, q.task) == Ahead(active, q) && LaterTasksHaveSlack(begin, active, q)
    decreases |active|
  {
    if active != [] {
      LastArrivalSeesWholeBacklog(begin + active[0].task.estimate, active[1..], q);
      assert !Before(q, active[0]);
      TailSlack(begin, active, q);
      hide LaterTasksHaveSlack;
    }
  }

  lemma {:induction false} FeasibleRemoved(begin: real, active: seq<Queued>, id: string)
    requires Feasible(begin, active) && Positive(active)
    ensures Feasible(begin, Removed(active, id))
    decreases |active|
  {
    if active != [] {
      FeasibleRemoved(begin + active[0].task.estimate, active[1..], id);
      var rest := Removed(active[1..], id);
      if active[0].task.id == id {
        FeasibleEarlier(begin, begin + active[0].task.estimate, rest);
      } else {
        assert ([active[0]] + rest)[1..] == rest;
      }
    }
  }

  // ----- runs of one scheduler with one executing thread -----

  datatype Execution = Execution(task: Task, started: real)

  // The queue, the time, and the task being executed, if any.
  datatype Line = Line(state: State, now: real, running: Option<Execution>)

  function Live(c: Line): seq<Queued> {
    Active(c.state.queue, c.state.cancelledIds)
  }

  // The latest time at which the queue can really start.
  function Free(c: Line): real {
    if c.running.Some? then c.running.value.started + c.running.value.task.estimate else c.now
  }

  // Begin is a call that takes a task out of the queue; the lock is not held while the task
  // executes, so anything else may happen before Finish. Wait lets time pass.
  datatype Event = Arrive(task: Task) | Withdraw(id: string) | Begin | Finish | Wait(duration: real)

  // A task that comes up after its deadline is dropped.
  function Begun(c: Line): Line {
    var (task, after) := Popped(c.state);
    c.(state := after,
       running := if task.Some? && c.now <= task.value.deadline then Some(Execution(task.value, c.now)) else None)
  }

  function After(c: Line, event: Event, maximumTasks: nat): Line {
    match event
    case Arrive(task) => c.(state := Submitted(c.state, c.now, task, maximumTasks))
    case Withdraw(id) => c.(state := Cancelled(c.state, id))
    case Begin => Begun(c)
    case Finish => c.(running := None)
    case Wait(duration) => c.(now := c.now + duration)
  }

  // Executions follow each other without a gap while tasks are queued, and keep to their estimates.
  predicate Timed(c: Line, event: Event) {
    match event
    case Arrive(task) => task.Valid()
    case Withdraw(_) => true
    case Begin => c.running.None?
    case Finish => c.running.Some?
    case Wait(duration) => duration >= 0.0 && if c.running.Some? then c.now + duration <= Free(c) else Live(c) == []
  }

  // A task comes up after its deadline, or ends after it.
  predicate IsLate(c: Line, event: Event) {
    || (event.Begin? && Popped(c.state).0.Some? && c.now > Popped(c.state).0.value.deadline)
    || (event.Finish? && c.running.Some? && c.now > c.running.value.task.deadline)
  }

  predicate TimedRun(c: Line, events: seq<Event>, maximumTasks: nat)
    decreases |events|
  {
    events == [] || (Timed(c, events[0]) && TimedRun(After(c, events[0], maximumTasks), events[1..], maximumTasks))
  }

  predicate OnTime(c: Line, events: seq<Event>, maximumTasks: nat)
    decreases |events|
  {
    events == [] || (!IsLate(c, events[0]) && OnTime(After(c, events[0], maximumTasks), events[1..], maximumTasks))
  }

  ghost predicate LineValid(c: Line) {
    && StateValid(c.state)
    && (c.running.Some? ==> c.running.value.started <= c.now <= Free(c))
  }

  // The executing task and everything queued behind it are planned in time.
  ghost predicate Safe(c: Line) {
    (c.running.Some? ==> Free(c) <= c.running.value.task.deadline) && Feasible(Free(c), Live(c))
  }

  // The task fits behind the executing task and the work ahead of it, and what is behind it can wait.
  ghost predicate Accommodates(c: Line, task: Task) {
    var q := Queued(task, c.state.sequence);
    Free(c) + Ahead(Live(c), q) + task.estimate <= task.deadline && LaterTasksHaveSlack(Free(c), Live(c), q)
  }

  lemma ActiveFacts(s: State)
    requires StateValid(s)
    ensures Ordered(Active(s.queue, s.cancelledIds)) && Positive(Active(s.queue, s.cancelledIds))
    ensures forall i :: 0 <= i < |Active(s.queue, s.cancelledIds)| ==> Active(s.queue, s.cancelledIds)[i].sequence < s.sequence
  {
    ActiveOrdered(s.queue, s.cancelledIds);
    var active := Active(s.queue, s.cancelledIds);
    forall i | 0 <= i < |active| ensures active[i].task.estimate > 0.0 && active[i].sequence < s.sequence {
      ActiveMembers(s.queue, s.cancelledIds, active[i]);
    }
  }

  lemma {:induction false} ActiveOrdered(queue: seq<Queued>, cancelledIds: set<string>)
    requires Ordered(queue)
    ensures Ordered(Active(queue, cancelledIds))
  {
    if queue != [] {
      ActiveOrdered(queue[1..], cancelledIds);
      var rest := Active(queue[1..], cancelledIds);
      forall j | 0 <= j < |rest| ensures Before(queue[0], rest[j]) {
        ActiveMembers(queue[1..], cancelledIds, rest[j]);
        var k :| 0 <= k < |queue| - 1 && queue[1..][k] == rest[j];
        assert Before(queue[0], queue[k + 1]);
      }
    }
  }

  // An admission keeps the line safe exactly when the task is accommodated.
  lemma ArrivalKeepsSafeIff(c: Line, task: Task, maximumTasks: nat)
    requires LineValid(c) && Safe(c) && task.Valid()
    ensures LineValid(After(c, Arrive(task), maximumTasks))
    ensures Safe(After(c, Arrive(task), maximumTasks)) <==> (Admits(c.state, c.now, task, maximumTasks) ==> Accommodates(c, task))
  {
    if Admits(c.state, c.now, task, maximumTasks) {
      SubmitRefines(c.state, c.now, task, maximumTasks);
      ActiveFacts(c.state);
      hide StateValid, Feasible, Insert, Active, LaterTasksHaveSlack, Ahead, Admits, Ids, Ordered, Positive;
      InsertFeasibleIff(Free(c), Live(c), Queued(task, c.state.sequence));
    }
  }

  lemma BeginKeepsSafe(c: Line)
    requires LineValid(c) && Safe(c) && c.running.None?
    ensures LineValid(Begun(c)) && Safe(Begun(c)) && !IsLate(c, Begin)
  {
    hide StateValid, Popped, Ordered, Ids;
    ActiveFacts(c.state);
    PopHandsOutFirstActive(c.state);
    if Live(c) == [] {
      assert Live(Begun(c)) == [];
    } else {
      var head := Live(c)[0].task;
      assert head.estimate > 0.0 && c.now + head.estimate <= head.deadline;
      var (task, after) := Popped(c.state);
      assert task == Some(head);
      assert Active(after.queue, after.cancelledIds) == Live(c)[1..];
      assert Begun(c) == Line(after, c.now, Some(Execution(head, c.now)));
      assert Feasible(c.now + head.estimate, Live(c)[1..]);
    }
  }

  lemma WithdrawKeepsSafe(c: Line, id: string)
    requires LineValid(c) && Safe(c)
    ensures LineValid(c.(state := Cancelled(c.state, id))) && Safe(c.(state := Cancelled(c.state, id)))
  {
    hide StateValid, Feasible, Active, Removed, Positive, Ordered, Ids, Cancels;
    ActiveFacts(c.state);
    CancelRefines(c.state, id);
    FeasibleRemoved(Free(c), Live(c), id);
    assert !Cancels(c.state, id) ==> Cancelled(c.state, id) == c.state;
  }

  // Whatever else happens keeps it safe, and is not late.
  lemma EventKeepsSafe(c: Line, event: Event, maximumTasks: nat)
    requires LineValid(c) && Safe(c) && Timed(c, event) && !event.Arrive?
    ensures LineValid(After(c, event, maximumTasks)) && Safe(After(c, event, maximumTasks)) && !IsLate(c, event)
  {
    hide Active, Popped, StateValid, Cancelled, Ordered;
    match event {
      case Withdraw(id) =>
        WithdrawKeepsSafe(c, id);
      case Begin =>
        BeginKeepsSafe(c);
      case Finish =>
        FeasibleEarlier(c.now, Free(c), Live(c));
      case Wait(duration) =>
    }
  }

  // ----- safe lines are those that cannot become late on their own -----

  predicate NoArrivals(events: seq<Event>) {
    forall i :: 0 <= i < |events| ==> !events[i].Arrive?
  }

  lemma {:induction false} SafeStaysOnTime(c: Line, events: seq<Event>, maximumTasks: nat)
    requires LineValid(c) && Safe(c) && TimedRun(c, events, maximumTasks) && NoArrivals(events)
    ensures OnTime(c, events, maximumTasks)
    decreases |events|
  {
    if events != [] {
      EventKeepsSafe(c, events[0], maximumTasks);
      hide LineValid, Safe, After, Timed, IsLate;
      SafeStaysOnTime(After(c, events[0], maximumTasks), events[1..], maximumTasks);
    }
  }

  // A late continuation of c: no arrivals, executions within their estimates.
  ghost predicate RunsLate(c: Line, events: seq<Event>, maximumTasks: nat) {
    TimedRun(c, events, maximumTasks) && NoArrivals(events) && !OnTime(c, events, maximumTasks)
  }

  lemma LateNow(c: Line, event: Event, maximumTasks: nat)
    requires Timed(c, event) && !event.Arrive? && IsLate(c, event)
    ensures RunsLate(c, [event], maximumTasks)
  {
    assert [event][1..] == [];
  }

  lemma LateAfter(c: Line, event: Event, events: seq<Event>, maximumTasks: nat)
    requires Timed(c, event) && !event.Arrive? && RunsLate(After(c, event, maximumTasks), events, maximumTasks)
    ensures RunsLate(c, [event] + events, maximumTasks)
  {
    var all := [event] + events;
    assert all[1..] == events;
    forall i | 0 <= i < |all| ensures !all[i].Arrive? {
      assert i > 0 ==> all[i] == events[i - 1];
    }
    hide Timed, After, IsLate;
  }

  // When every execution takes its whole estimate, an unsafe line runs late.
  lemma {:induction false} UnsafeRunsLate(c: Line, maximumTasks: nat) returns (events: seq<Event>)
    requires LineValid(c) && !Safe(c)
    ensures RunsLate(c, events, maximumTasks)
    decreases |Live(c)|, if c.running.Some? then 1 else 0
  {
    if c.running.Some? {
      var ended := c.(now := Free(c));
      var rest: seq<Event>;
      if Free(c) > c.running.value.task.deadline {
        rest := [Finish];
        LateNow(ended, Finish, maximumTasks);
      } else {
        var idle := ended.(running := None);
        var more := UnsafeRunsLate(idle, maximumTasks);
        LateAfter(ended, Finish, more, maximumTasks);
        rest := [Finish] + more;
      }
      assert c.now + (Free(c) - c.now) == Free(c);
      assert After(c, Wait(Free(c) - c.now), maximumTasks) == ended;
      LateAfter(c, Wait(Free(c) - c.now), rest, maximumTasks);
      events := [Wait(Free(c) - c.now)] + rest;
    } else {
      PopHandsOutFirstActive(c.state);
      ActiveFacts(c.state);
      var head := Live(c)[0].task;
      if c.now > head.deadline {
        events := [Begin];
        LateNow(c, Begin, maximumTasks);
      } else {
        var more := UnsafeRunsLate(Begun(c), maximumTasks);
        LateAfter(c, Begin, more, maximumTasks);
        events := [Begin] + more;
      }
    }
  }

  // Safe is exactly: whatever happens without a further arrival, no task is late.
  lemma SafeIff(c: Line, maximumTasks: nat)
    requires LineValid(c)
    ensures Safe(c) <==>
      forall events: seq<Event> :: TimedRun(c, events, maximumTasks) && NoArrivals(events) ==> OnTime(c, events, maximumTasks)
  {
    if Safe(c) {
      forall events: seq<Event> | TimedRun(c, events, maximumTasks) && NoArrivals(events)
        ensures OnTime(c, events, maximumTasks)
      {
        SafeStaysOnTime(c, events, maximumTasks);
      }
    } else {
      var events := UnsafeRunsLate(c, maximumTasks);
      assert RunsLate(c, events, maximumTasks);
    }
  }

  // ----- whole runs with arrivals -----

  // Every admitted task is accommodated at its arrival.
  ghost predicate AllAccommodated(c: Line, events: seq<Event>, maximumTasks: nat)
    decreases |events|
  {
    events == [] || (
      && (events[0].Arrive? && Admits(c.state, c.now, events[0].task, maximumTasks) ==> Accommodates(c, events[0].task))
      && AllAccommodated(After(c, events[0], maximumTasks), events[1..], maximumTasks))
  }

  ghost predicate AllSafe(c: Line, events: seq<Event>, maximumTasks: nat)
    decreases |events|
  {
    Safe(c) && (events == [] || AllSafe(After(c, events[0], maximumTasks), events[1..], maximumTasks))
  }

  // Along every run from a safe line: the line stays safe throughout exactly when every admitted
  // task is accommodated, and then no task is late.
  lemma {:induction false} AdmittedTasksAreOnTime(c: Line, events: seq<Event>, maximumTasks: nat)
    requires LineValid(c) && Safe(c) && TimedRun(c, events, maximumTasks)
    ensures AllSafe(c, events, maximumTasks) <==> AllAccommodated(c, events, maximumTasks)
    ensures AllAccommodated(c, events, maximumTasks) ==> OnTime(c, events, maximumTasks)
    decreases |events|
  {
    if events != [] {
      var event := events[0];
      if event.Arrive? {
        ArrivalKeepsSafeIff(c, event.task, maximumTasks);
      } else {
        EventKeepsSafe(c, event, maximumTasks);
      }
      var next := After(c, event, maximumTasks);
      hide LineValid, Safe, After, Accommodates, Admits;
      if Safe(next) {
        AdmittedTasksAreOnTime(next, events[1..], maximumTasks);
      }
    }
  }

  // A task that is last in the order is accommodated exactly when it fits behind the backlog that
  // the admission test counts, measured from the end of the executing task.
  lemma LastArrivalAccommodatedIff(c: Line, task: Task)
    requires LineValid(c) && ArrivesLast(Live(c), task)
    ensures Accommodates(c, task) <==> Free(c) + Backlog(Live(c), task) + task.estimate <= task.deadline
  {
    ActiveFacts(c.state);
    LastArrivalSeesWholeBacklog(Free(c), Live(c), Queued(task, c.state.sequence));
  }

  // Tasks arrive only while nothing executes, and last in the order.
  ghost predicate QuietArrivals(c: Line, events: seq<Event>, maximumTasks: nat)
    decreases |events|
  {
    events == [] || (
      && (events[0].Arrive? ==> c.running.None? && ArrivesLast(Live(c), events[0].task))
      && QuietArrivals(After(c, events[0], maximumTasks), events[1..], maximumTasks))
  }

  // Then the admission test alone accommodates every admitted task.
  lemma {:induction false} QuietArrivalsAreOnTime(c: Line, events: seq<Event>, maximumTasks: nat)
    requires LineValid(c) && Safe(c) && TimedRun(c, events, maximumTasks) && QuietArrivals(c, events, maximumTasks)
    ensures AllAccommodated(c, events, maximumTasks) && OnTime(c, events, maximumTasks)
    decreases |events|
  {
    if events != [] {
      var event := events[0];
      if event.Arrive? {
        ArrivalKeepsSafeIff(c, event.task, maximumTasks);
        LastArrivalAccommodatedIff(c, event.task);
      } else {
        EventKeepsSafe(c, event, maximumTasks);
      }
      hide LineValid, Safe, After, Accommodates;
      QuietArrivalsAreOnTime(After(c, event, maximumTasks), events[1..], maximumTasks);
    }
  }

  // The same from an empty scheduler.
  lemma EmptySchedulerIsOnTime(now: real, events: seq<Event>, maximumTasks: nat)
    requires TimedRun(Line(State([], {}, 0), now, None), events, maximumTasks)
    ensures
      var c := Line(State([], {}, 0), now, None);
      && (AllSafe(c, events, maximumTasks) <==> AllAccommodated(c, events, maximumTasks))
      && (AllAccommodated(c, events, maximumTasks) ==> OnTime(c, events, maximumTasks))
      && (QuietArrivals(c, events, maximumTasks) ==> OnTime(c, events, maximumTasks))
  {
    var c := Line(State([], {}, 0), now, None);
    assert LineValid(c) && Safe(c);
    AdmittedTasksAreOnTime(c, events, maximumTasks);
    if QuietArrivals(c, events, maximumTasks) {
      QuietArrivalsAreOnTime(c, events, maximumTasks);
    }
  }

  // ----- why the condition is needed -----

  // A task in execution is not in the heap, so the admission test does not count it: with nothing
  // queued, a task that arrives last is admitted and is late although everything keeps to its estimate.
  lemma RunningTaskIsNotCounted(a: Task, b: Task)
    requires a == Task("a", Background, 10.0, 10.0) && b == Task("b", Background, 11.0, 5.0)
    ensures
      var begun := Begun(After(Line(State([], {}, 0), 0.0, None), Arrive(a), 2));
      var c := After(begun, Wait(1.0), 2);
      && begun.running == Some(Execution(a, 0.0)) && Timed(begun, Wait(1.0)) && LineValid(c) && Safe(c)
      && ArrivesLast(Live(c), b) && Admits(c.state, c.now, b, 2)
      && !Accommodates(c, b) && exists events :: RunsLate(After(c, Arrive(b), 2), events, 2)
  {
    var first := Queued(a, 0);
    var empty := State([], {}, 0);
    assert Insert([], first) == [first] by { assert [first] + [] == [first]; }
    assert Submitted(empty, 0.0, a, 2) == State([first], {}, 1);
    assert [first][1..] == [];
    assert Popped(State([first], {}, 1)) == (Some(a), State([], {}, 1));
    var c := Line(State([], {}, 1), 1.0, Some(Execution(a, 0.0)));
    LastArrivalAccommodatedIff(c, b);
    ArrivalKeepsSafeIff(c, b, 2);
    var events := UnsafeRunsLate(After(c, Arrive(b), 2), 2);
  }

  // An earlier deadline in the same class is admitted although it makes an admitted task late.
  lemma EarlierDeadlineCanBreakSchedule(first: Queued, second: Task)
    requires first == Queued(Task("a", Background, 10.0, 10.0), 0)
    requires second == Task("b", Background, 5.0, 5.0)
    ensures
      var c := Line(State([first], {}, 1), 0.0, None);
      LineValid(c) && Safe(c) && Admits(c.state, 0.0, second, 2) && !Safe(After(c, Arrive(second), 2))
  {
    OneQueued(first, second, 0.0);
    var c := Line(State([first], {}, 1), 0.0, None);
    ArrivalKeepsSafeIff(c, second, 2);
    assert PlannedFinish(0.0, Live(c), 0) == 10.0;
    assert Before(Queued(second, 1), Live(c)[0]);
  }

  // Higher-priority work with a later deadline is not counted, so a task behind it is admitted
  // although it will be late.
  lemma HigherPriorityIsNotCounted(first: Queued, second: Task)
    requires first == Queued(Task("a", Realtime, 10.0, 10.0), 0)
    requires second == Task("b", Background, 5.0, 5.0)
    ensures
      var c := Line(State([first], {}, 1), 0.0, None);
      LineValid(c) && Safe(c) && Admits(c.state, 0.0, second, 2) && !Safe(After(c, Arrive(second), 2))
  {
    OneQueued(first, second, 0.0);
    var c := Line(State([first], {}, 1), 0.0, None);
    ArrivalKeepsSafeIff(c, second, 2);
    assert Ahead(Live(c), Queued(second, 1)) == 10.0;
  }

  lemma OneQueued(first: Queued, second: Task, begin: real)
    requires first.task.id == "a" && second.id == "b"
    ensures Feasible(begin, [first]) <==> begin + first.task.estimate <= first.task.deadline
    ensures second.id !in Ids([first]) && |Ids([first])| == 1
    ensures Active([first], {}) == [first] && [first][1..] == []
    ensures StateValid(State([first], {}, 1)) <==> first.sequence < 1 && first.task.Valid()
  {
    assert first.task.id[0] != second.id[0];
    assert Ids([first]) == {first.task.id};
  }
}
