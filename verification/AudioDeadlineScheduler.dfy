// Admission-controlled scheduling: strict priority classes, earliest deadline first within one.
module AudioDeadlineScheduling {
  import opened RealNumbers
  import opened Results
  import opened SetSizes

  datatype Priority = Realtime | Interactive | Background {
    function Level(): nat {
      match this
      case Realtime => 0
      case Interactive => 1
      case Background => 2
    }
  }

  datatype Task = Task(id: string, priority: Priority, deadline: real, estimate: real) {
    predicate Valid() {
      1 <= |id| <= 128 && estimate > 0.0
    }
  }

  // A heap entry: the task and its submission number.
  datatype Queued = Queued(task: Task, sequence: nat)

  // ----- the queue order -----

  predicate Before(a: Queued, b: Queued) {
    var (p, q) := (a.task.priority.Level(), b.task.priority.Level());
    p < q || (p == q && (a.task.deadline < b.task.deadline
      || (a.task.deadline == b.task.deadline && a.sequence < b.sequence)))
  }

  ghost predicate Ordered(queue: seq<Queued>) {
    forall i, j :: 0 <= i < j < |queue| ==> Before(queue[i], queue[j])
  }

  // heappush on a heap kept as its sorted sequence.
  function Insert(queue: seq<Queued>, q: Queued): seq<Queued> {
    if queue == [] || Before(q, queue[0]) then [q] + queue else [queue[0]] + Insert(queue[1..], q)
  }

  lemma {:induction false} InsertMembers(queue: seq<Queued>, q: Queued, x: Queued)
    ensures x in Insert(queue, q) <==> x in queue || x == q
    ensures |Insert(queue, q)| == |queue| + 1
  {
    if !(queue == [] || Before(q, queue[0])) {
      InsertMembers(queue[1..], q, x);
      assert queue == [queue[0]] + queue[1..];
    }
  }

  lemma {:induction false} InsertOrdered(queue: seq<Queued>, q: Queued)
    requires Ordered(queue) && forall i :: 0 <= i < |queue| ==> queue[i].sequence != q.sequence
    ensures Ordered(Insert(queue, q))
  {
    if queue == [] {
    } else if Before(q, queue[0]) {
      var all := [q] + queue;
      forall i, j | 0 <= i < j < |all| ensures Before(all[i], all[j]) {
        if i > 0 {
          assert Before(queue[i - 1], queue[j - 1]);
        } else if j > 1 {
          assert Before(queue[0], queue[j - 1]);
        }
      }
    } else {
      var rest := Insert(queue[1..], q);
      InsertOrdered(queue[1..], q);
      forall j | 0 <= j < |rest| ensures Before(queue[0], rest[j]) {
        InsertMembers(queue[1..], q, rest[j]);
        if rest[j] != q {
          var k :| 0 <= k < |queue| - 1 && queue[1..][k] == rest[j];
          assert Before(queue[0], queue[k + 1]);
        }
      }
    }
  }

  // ----- the scheduler's queue state and its transitions -----

  datatype State = State(queue: seq<Queued>, cancelledIds: set<string>, sequence: nat)

  function Ids(queue: seq<Queued>): set<string> {
    set q | q in queue :: q.task.id
  }

  ghost predicate DistinctIds(queue: seq<Queued>) {
    forall i, j :: 0 <= i < j < |queue| ==> queue[i].task.id != queue[j].task.id
  }

  ghost predicate StateValid(s: State) {
    && Ordered(s.queue)
    && DistinctIds(s.queue)
    && s.cancelledIds <= Ids(s.queue)
    && forall i :: 0 <= i < |s.queue| ==> s.queue[i].sequence < s.sequence && s.queue[i].task.Valid()
  }

  // The tasks that will still run, in the order in which they will run.
  function Active(queue: seq<Queued>, cancelledIds: set<string>): seq<Queued> {
    if queue == [] then []
    else if queue[0].task.id in cancelledIds then Active(queue[1..], cancelledIds)
    else [queue[0]] + Active(queue[1..], cancelledIds)
  }

  function Backlog(active: seq<Queued>, task: Task): real {
    if active == [] then 0.0
    else (if active[0].task.priority.Level() <= task.priority.Level() && active[0].task.deadline <= task.deadline
          then active[0].task.estimate else 0.0) + Backlog(active[1..], task)
  }

  predicate Admits(s: State, now: real, task: Task, maximumTasks: nat) {
    && task.id !in Ids(s.queue)
    && |Ids(s.queue)| < maximumTasks
    && now + Backlog(Active(s.queue, s.cancelledIds), task) + task.estimate <= task.deadline
  }

  function Submitted(s: State, now: real, task: Task, maximumTasks: nat): State {
    if Admits(s, now, task, maximumTasks) then
      State(Insert(s.queue, Queued(task, s.sequence)), s.cancelledIds, s.sequence + 1)
    else s
  }

  predicate Cancels(s: State, id: string) {
    id in Ids(s.queue) && id !in s.cancelledIds
  }

  function Cancelled(s: State, id: string): State {
    if Cancels(s, id) then s.(cancelledIds := s.cancelledIds + {id}) else s
  }

  function Tail(s: State): State
    requires s.queue != []
  {
    State(s.queue[1..], s.cancelledIds - {s.queue[0].task.id}, s.sequence)
  }

  // Pops cancelled entries until an active one comes up.
  function Popped(s: State): (Option<Task>, State)
    decreases |s.queue|
  {
    if s.queue == [] then (None, s)
    else
      var head := s.queue[0].task;
      if head.id in s.cancelledIds then Popped(Tail(s))
      else (Some(head), State(s.queue[1..], s.cancelledIds, s.sequence))
  }

  // ----- lazy cancellation behaves like immediate removal -----

  lemma {:induction false} ActiveMembers(queue: seq<Queued>, cancelledIds: set<string>, q: Queued)
    ensures q in Active(queue, cancelledIds) <==> q in queue && q.task.id !in cancelledIds
  {
    if queue != [] {
      ActiveMembers(queue[1..], cancelledIds, q);
      assert queue == [queue[0]] + queue[1..];
    }
  }

  lemma {:induction false} ActiveInsert(queue: seq<Queued>, cancelledIds: set<string>, q: Queued)
    requires Ordered(queue) && q.task.id !in cancelledIds
    ensures Active(Insert(queue, q), cancelledIds) == Insert(Active(queue, cancelledIds), q)
  {
    if queue == [] {
      assert [q] + queue == [q];
      assert [q][1..] == [];
    } else if Before(q, queue[0]) {
      assert ([q] + queue)[1..] == queue;
      ActiveFirstIsLater(queue, cancelledIds, q);
    } else {
      var inserted := Insert(queue[1..], q);
      assert Insert(queue, q) == [queue[0]] + inserted;
      assert ([queue[0]] + inserted)[1..] == inserted;
      ActiveInsert(queue[1..], cancelledIds, q);
      if queue[0].task.id !in cancelledIds {
        var rest := Active(queue[1..], cancelledIds);
        assert ([queue[0]] + rest)[1..] == rest;
      }
    }
  }

  lemma ActiveFirstIsLater(queue: seq<Queued>, cancelledIds: set<string>, q: Queued)
    requires Ordered(queue) && queue != [] && Before(q, queue[0])
    ensures var active := Active(queue, cancelledIds); active == [] || Before(q, active[0])
  {
    var active := Active(queue, cancelledIds);
    if active != [] {
      ActiveMembers(queue, cancelledIds, active[0]);
      var i :| 0 <= i < |queue| && queue[i] == active[0];
      assert i > 0 ==> Before(queue[0], queue[i]);
    }
  }

  function Removed(active: seq<Queued>, id: string): seq<Queued> {
    if active == [] then []
    else if active[0].task.id == id then Removed(active[1..], id)
    else [active[0]] + Removed(active[1..], id)
  }

  lemma {:induction false} ActiveCancel(queue: seq<Queued>, cancelledIds: set<string>, id: string)
    ensures Active(queue, cancelledIds + {id}) == Removed(Active(queue, cancelledIds), id)
  {
    if queue != [] {
      ActiveCancel(queue[1..], cancelledIds, id);
      var rest := Active(queue[1..], cancelledIds);
      assert ([queue[0]] + rest)[1..] == rest;
    }
  }

  // A cancelled task is no longer live, so no later pop can hand it out; the others stay.
  lemma {:induction false} CancelledTaskIsGone(active: seq<Queued>, id: string, q: Queued)
    ensures q in Removed(active, id) <==> q in active && q.task.id != id
  {
    if active != [] {
      CancelledTaskIsGone(active[1..], id, q);
      assert active == [active[0]] + active[1..];
    }
  }

  lemma {:induction false} ActiveIgnoresForeignIds(queue: seq<Queued>, a: set<string>, b: set<string>)
    requires forall i :: 0 <= i < |queue| ==> (queue[i].task.id in a <==> queue[i].task.id in b)
    ensures Active(queue, a) == Active(queue, b)
  {
    if queue != [] {
      ActiveIgnoresForeignIds(queue[1..], a, b);
    }
  }

  lemma TailIds(s: State)
    requires StateValid(s) && s.queue != []
    ensures s.queue[0].task.id !in Ids(s.queue[1..])
    ensures Ids(s.queue) == Ids(s.queue[1..]) + {s.queue[0].task.id}
    ensures Ids(s.queue) - {s.queue[0].task.id} == Ids(s.queue[1..])
    ensures |Ids(s.queue[1..])| == |s.queue| - 1
  {
    assert s.queue == [s.queue[0]] + s.queue[1..];
    IdsCount(s.queue[1..]);
  }

  lemma TailValid(s: State)
    requires StateValid(s) && s.queue != []
    ensures StateValid(Tail(s))
    ensures s.queue[0].task.id !in s.cancelledIds ==> s.cancelledIds - {s.queue[0].task.id} == s.cancelledIds
  {
    TailIds(s);
  }

  lemma PopNothing(s: State)
    requires s.queue == []
    ensures Popped(s) == (None, s)
  {
  }

  lemma PopStep(s: State)
    requires StateValid(s) && s.queue != []
    ensures StateValid(Tail(s))
    ensures Ids(s.queue) - {s.queue[0].task.id} == Ids(s.queue[1..]) && |Ids(s.queue[1..])| == |s.queue| - 1
    ensures Popped(s) == if s.queue[0].task.id in s.cancelledIds then Popped(Tail(s))
      else (Some(s.queue[0].task), State(s.queue[1..], s.cancelledIds, s.sequence))
    ensures s.queue[0].task.id !in s.cancelledIds ==> Tail(s) == State(s.queue[1..], s.cancelledIds, s.sequence)
  {
    TailValid(s);
    TailIds(s);
  }

  lemma TailActive(s: State)
    requires StateValid(s) && s.queue != []
    ensures Active(Tail(s).queue, Tail(s).cancelledIds) == Active(s.queue[1..], s.cancelledIds)
  {
    TailIds(s);
    assert forall i :: 0 <= i < |s.queue[1..]| ==> s.queue[1..][i].task.id in Ids(s.queue[1..]);
    ActiveIgnoresForeignIds(s.queue[1..], s.cancelledIds, s.cancelledIds - {s.queue[0].task.id});
  }

  // Popping hands out the first active task, or finds that nothing is left at all.
  lemma {:induction false} PopHandsOutFirstActive(s: State)
    requires StateValid(s)
    ensures
      var active, (task, after) := Active(s.queue, s.cancelledIds), Popped(s);
      && StateValid(after) && after.sequence == s.sequence
      && (task.None? <==> active == [])
      && (task.None? ==> after.queue == [] && after.cancelledIds == {})
      && (task.Some? ==> task.value == active[0].task && Active(after.queue, after.cancelledIds) == active[1..])
      && Ids(after.queue) <= Ids(s.queue)
      && |after.queue| <= |s.queue|
      // Live entries: one fewer when a task is handed out, unchanged otherwise.
      && |after.queue| - |after.cancelledIds| == |s.queue| - |s.cancelledIds| - (if task.Some? then 1 else 0)
    decreases |s.queue|
  {
    if s.queue != [] {
      TailValid(s);
      TailActive(s);
      TailIds(s);
      hide StateValid, Ids;
      if s.queue[0].task.id in s.cancelledIds {
        PopHandsOutFirstActive(Tail(s));
      }
    } else {
      assert s.cancelledIds == {};
    }
  }

  lemma SubmitRefines(s: State, now: real, task: Task, maximumTasks: nat)
    requires StateValid(s) && task.Valid() && Admits(s, now, task, maximumTasks)
    ensures
      var after := Submitted(s, now, task, maximumTasks);
      && StateValid(after)
      && Active(after.queue, after.cancelledIds)
         == Insert(Active(s.queue, s.cancelledIds), Queued(task, s.sequence))
      && Ids(after.queue) == Ids(s.queue) + {task.id}
      && |Ids(after.queue)| == |after.queue| == |s.queue| + 1
  {
    var q := Queued(task, s.sequence);
    InsertOrdered(s.queue, q);
    ActiveInsert(s.queue, s.cancelledIds, q);
    InsertDistinct(s.queue, q);
    var inserted := Insert(s.queue, q);
    forall i | 0 <= i < |inserted| ensures inserted[i].sequence < s.sequence + 1 && inserted[i].task.Valid() {
      InsertMembers(s.queue, q, inserted[i]);
    }
    IdsCount(inserted);
  }

  // ----- the admission test, told task by task -----

  // realtime before interactive before background
  predicate MoreUrgent(p: Priority, q: Priority) {
    (p.Realtime? && !q.Realtime?) || (!p.Background? && q.Background?)
  }

  // The queue runs more urgent classes first, then earlier deadlines, then earlier submissions.
  lemma BeforeMeaning(a: Queued, b: Queued)
    ensures MoreUrgent(a.task.priority, b.task.priority) ==> Before(a, b) && !Before(b, a)
    ensures a.task.priority == b.task.priority && a.task.deadline < b.task.deadline ==> Before(a, b) && !Before(b, a)
    ensures a.task.priority == b.task.priority && a.task.deadline == b.task.deadline ==>
      (Before(a, b) <==> a.sequence < b.sequence)
    ensures a.task.priority == b.task.priority || MoreUrgent(a.task.priority, b.task.priority)
      || MoreUrgent(b.task.priority, a.task.priority)
  {
  }

  lemma {:induction false} BacklogOfOneMore(a: seq<Queued>, q: Queued, b: seq<Queued>, cancelledIds: set<string>, task: Task)
    ensures Backlog(Active(a + [q] + b, cancelledIds), task) == Backlog(Active(a + b, cancelledIds), task) +
      if q.task.id !in cancelledIds && !MoreUrgent(task.priority, q.task.priority) && q.task.deadline <= task.deadline
      then q.task.estimate else 0.0
    decreases |a|
  {
    if a == [] {
      assert [] + [q] + b == [q] + b && [] + b == b && ([q] + b)[1..] == b;
      ActiveHead([q] + b, cancelledIds);
    } else {
      BacklogOfOneMore(a[1..], q, b, cancelledIds, task);
      assert (a + [q] + b)[1..] == a[1..] + [q] + b && (a + b)[1..] == a[1..] + b;
      ActiveHead(a + [q] + b, cancelledIds);
      ActiveHead(a + b, cancelledIds);
    }
  }

  lemma IdsOfOneMore(a: seq<Queued>, q: Queued, b: seq<Queued>)
    ensures Ids(a + [q] + b) == Ids(a + b) + {q.task.id} && |Ids(a + b)| <= |Ids(a + [q] + b)|
  {
    SubsetSize(Ids(a + b), Ids(a + [q] + b));
  }

  // With nothing queued a task is admitted exactly when it would be done by its deadline.
  lemma IdleAdmission(cancelledIds: set<string>, n: nat, now: real, task: Task, maximumTasks: nat)
    requires maximumTasks > 0
    ensures Admits(State([], cancelledIds, n), now, task, maximumTasks) <==> now + task.estimate <= task.deadline
  {
    assert Ids([]) == {};
  }

  // A queued task counts when it is live, not less urgent and not due later. Then it postpones the
  // new task by exactly its estimate.
  lemma CountedTaskPostpones(a: seq<Queued>, q: Queued, b: seq<Queued>, cancelledIds: set<string>, n: nat,
                             now: real, task: Task, maximumTasks: nat)
    requires q.task.id !in cancelledIds && !MoreUrgent(task.priority, q.task.priority) && q.task.deadline <= task.deadline
    requires task.id != q.task.id && |Ids(a + [q] + b)| < maximumTasks
    ensures Admits(State(a + [q] + b, cancelledIds, n), now, task, maximumTasks)
      <==> Admits(State(a + b, cancelledIds, n), now + q.task.estimate, task, maximumTasks)
  {
    BacklogOfOneMore(a, q, b, cancelledIds, task);
    IdsOfOneMore(a, q, b);
    hide Backlog, Active, Ids;
  }

  // Any other queued task makes no difference.
  lemma OtherTasksDoNotCount(a: seq<Queued>, q: Queued, b: seq<Queued>, cancelledIds: set<string>, n: nat,
                             now: real, task: Task, maximumTasks: nat)
    requires q.task.id in cancelledIds || MoreUrgent(task.priority, q.task.priority) || q.task.deadline > task.deadline
    requires task.id != q.task.id && |Ids(a + [q] + b)| < maximumTasks
    ensures Admits(State(a + [q] + b, cancelledIds, n), now, task, maximumTasks)
      <==> Admits(State(a + b, cancelledIds, n), now, task, maximumTasks)
  {
    BacklogOfOneMore(a, q, b, cancelledIds, task);
    IdsOfOneMore(a, q, b);
    hide Backlog, Active, Ids;
  }

  // A task whose identifier is still in the queue, or for which there is no room, is turned away.
  lemma TurnedAway(s: State, now: real, task: Task, maximumTasks: nat)
    requires StateValid(s)
    requires |s.queue| >= maximumTasks || exists i :: 0 <= i < |s.queue| && s.queue[i].task.id == task.id
    ensures !Admits(s, now, task, maximumTasks)
  {
    IdsCount(s.queue);
    hide Backlog, Active;
  }

  // The task that comes up is the most urgent live one, the one due first and submitted first.
  lemma MostUrgentComesUp(s: State, k: nat) returns (p: nat)
    requires StateValid(s) && k < |s.queue| && s.queue[k].task.id !in s.cancelledIds
    ensures p < |s.queue| && Popped(s).0 == Some(s.queue[p].task) && s.queue[p].task.id !in s.cancelledIds
    ensures
      var first, other := s.queue[p], s.queue[k];
      || MoreUrgent(first.task.priority, other.task.priority)
      || (first.task.priority == other.task.priority && first.task.deadline < other.task.deadline)
      || (first.task.priority == other.task.priority && first.task.deadline == other.task.deadline
          && first.sequence <= other.sequence)
  {
    var active := Active(s.queue, s.cancelledIds);
    PopHandsOutFirstActive(s);
    ActiveMembers(s.queue, s.cancelledIds, s.queue[k]);
    ActiveMembers(s.queue, s.cancelledIds, active[0]);
    p :| 0 <= p < |s.queue| && s.queue[p] == active[0];
    FirstIsBefore(s.queue, s.cancelledIds, k);
  }

  lemma {:induction false} FirstIsBefore(queue: seq<Queued>, cancelledIds: set<string>, k: nat)
    requires Ordered(queue) && k < |queue| && queue[k].task.id !in cancelledIds
    ensures Active(queue, cancelledIds) != []
    ensures Active(queue, cancelledIds)[0] == queue[k] || Before(Active(queue, cancelledIds)[0], queue[k])
    decreases |queue|
  {
    if queue[0].task.id in cancelledIds {
      FirstIsBefore(queue[1..], cancelledIds, k - 1);
    }
  }

  lemma {:induction false} InsertDistinct(queue: seq<Queued>, q: Queued)
    requires DistinctIds(queue) && q.task.id !in Ids(queue)
    ensures DistinctIds(Insert(queue, q)) && Ids(Insert(queue, q)) == Ids(queue) + {q.task.id}
    ensures |Insert(queue, q)| == |queue| + 1
  {
    assert forall i :: 0 <= i < |queue| ==> queue[i].task.id in Ids(queue);
    if queue == [] || Before(q, queue[0]) {
    } else {
      assert queue == [queue[0]] + queue[1..];
      InsertDistinct(queue[1..], q);
      var rest := Insert(queue[1..], q);
      assert Ids([queue[0]] + rest) == Ids(rest) + {queue[0].task.id};
      forall j | 0 <= j < |rest| ensures rest[j].task.id != queue[0].task.id {
        assert rest[j].task.id in Ids(rest);
        assert queue[0].task.id !in Ids(queue[1..]);
      }
    }
  }

  lemma CancelRefines(s: State, id: string)
    requires StateValid(s)
    ensures
      var after := Cancelled(s, id);
      && StateValid(after)
      && (Cancels(s, id) ==>
           && Active(after.queue, after.cancelledIds) == Removed(Active(s.queue, s.cancelledIds), id)
           && |after.cancelledIds| == |s.cancelledIds| + 1)
  {
    ActiveCancel(s.queue, s.cancelledIds, id);
  }

  lemma {:induction false} IdsCount(queue: seq<Queued>)
    requires DistinctIds(queue)
    ensures |Ids(queue)| == |queue|
  {
    if queue != [] {
      IdsCount(queue[1..]);
      assert queue == [queue[0]] + queue[1..];
      assert Ids(queue) == Ids(queue[1..]) + {queue[0].task.id};
      assert queue[0].task.id !in Ids(queue[1..]);
    } else {
      assert Ids(queue) == {};
    }
  }

  // ----- the scheduler object -----

  datatype Outcome = Outcome(id: string, status: Status, lateness: real)

  datatype Status = Completed | CompletedLate | DeadlineMissed

  class AudioDeadlineScheduler {
    const maximumTasks: nat
    var heap: seq<Queued>
    var identifiers: set<string>
    var cancelledIds: set<string>
    var sequence: nat
    var submitted: nat
    var completed: nat
    var rejected: nat
    var cancelled: nat
    var deadlineMisses: nat
    var maximumLateness: real
    // Every task handed to a caller for execution; those of them still being executed; and
    // those that were dropped because their deadline had passed when they came up.
    ghost var HandedOut: seq<Task>
    ghost var Running: nat
    ghost var Expired: nat

    ghost function View(): State
      reads this
    {
      State(heap, cancelledIds, sequence)
    }

    // The tasks that will still run, in order.
    ghost function Live(): seq<Queued>
      reads this
    {
      Active(heap, cancelledIds)
    }

    ghost predicate Valid()
      reads this
    {
      && 1 <= maximumTasks <= 65_536
      && StateValid(View())
      && identifiers == Ids(heap) && |identifiers| == |heap| <= maximumTasks
      && submitted == (|identifiers| - |cancelledIds|) + cancelled + |HandedOut|
      && |HandedOut| == completed + Expired + Running
      && Expired <= deadlineMisses <= Expired + completed
      && maximumLateness >= 0.0
    }

    constructor (maximumTasks: nat)
      requires 1 <= maximumTasks <= 65_536
      ensures Valid() && Live() == [] && this.maximumTasks == maximumTasks
    {
      this.maximumTasks := maximumTasks;
      heap, identifiers, cancelledIds, sequence := [], {}, {}, 0;
      submitted, completed, rejected, cancelled, deadlineMisses, maximumLateness := 0, 0, 0, 0, 0, 0.0;
      HandedOut, Running, Expired := [], 0, 0;
    }

    method Submit(task: Task, now: real) returns (accepted: bool)
      requires Valid() && task.Valid()
      modifies this`heap, this`identifiers, this`sequence, this`submitted, this`rejected
      ensures Valid()
      ensures accepted == Admits(old(View()), now, task, maximumTasks)
      ensures task.id in old(identifiers) || |old(identifiers)| >= maximumTasks ==> !accepted
      ensures View() == Submitted(old(View()), now, task, maximumTasks)
      ensures Live() == if accepted then Insert(old(Live()), Queued(task, old(sequence))) else old(Live())
      ensures submitted == old(submitted) + (if accepted then 1 else 0)
      ensures rejected == old(rejected) + (if accepted then 0 else 1)
    {
      hide StateValid, Ids, Insert, Active, Backlog;
      if task.id in identifiers || |identifiers| >= maximumTasks {
        rejected := rejected + 1;
        return false;
      }
      var backlog := QueuedAhead(task);
      if now + backlog + task.estimate > task.deadline {
        rejected := rejected + 1;
        return false;
      }
      SubmitRefines(View(), now, task, maximumTasks);
      heap := Insert(heap, Queued(task, sequence));
      sequence := sequence + 1;
      identifiers := identifiers + {task.id};
      submitted := submitted + 1;
      return true;
    }

    // The admission test's sum over the heap.
    method QueuedAhead(task: Task) returns (backlog: real)
      ensures backlog == Backlog(Live(), task)
    {
      backlog := 0.0;
      for i := 0 to |heap|
        invariant backlog + Backlog(Active(heap[i..], cancelledIds), task) == Backlog(Live(), task)
      {
        var queued := heap[i].task;
        assert heap[i..][1..] == heap[i + 1..];
        ActiveHead(heap[i..], cancelledIds);
        if queued.id !in cancelledIds && queued.priority.Level() <= task.priority.Level() && queued.deadline <= task.deadline {
          backlog := backlog + queued.estimate;
        }
      }
    }

    method Cancel(id: string) returns (done: bool)
      requires Valid()
      modifies this`cancelledIds, this`cancelled
      ensures Valid()
      ensures done == Cancels(old(View()), id) == (id in identifiers && id !in old(cancelledIds))
      ensures cancelledIds == if done then old(cancelledIds) + {id} else old(cancelledIds)
      ensures View() == Cancelled(old(View()), id)
      ensures Live() == if done then Removed(old(Live()), id) else old(Live())
      ensures cancelled == old(cancelled) + (if done then 1 else 0)
    {
      CancelRefines(View(), id);
      if id !in identifiers || id in cancelledIds {
        return false;
      }
      cancelledIds := cancelledIds + {id};
      cancelled := cancelled + 1;
      return true;
    }

    // The locked part of run_next: the first live task leaves the queue.
    method PopActive() returns (task: Option<Task>)
      requires Valid()
      modifies this`heap, this`identifiers, this`cancelledIds, this`HandedOut, this`Running
      ensures Valid()
      ensures (task, View()) == Popped(old(View()))
      ensures task.None? <==> old(Live()) == []
      ensures task.None? ==> heap == [] && identifiers == {} && cancelledIds == {} && HandedOut == old(HandedOut)
      ensures task.Some? ==>
        && task.value == old(Live())[0].task && Live() == old(Live())[1..]
        && HandedOut == old(HandedOut) + [task.value]
    {
      hide StateValid, Ids, Active;
      PopHandsOutFirstActive(View());
      task := PopEntries();
      if task.Some? {
        HandedOut, Running := HandedOut + [task.value], Running + 1;
      }
    }

    // The loop over the heap: cancelled entries leave on the way.
    method PopEntries() returns (task: Option<Task>)
      requires StateValid(View()) && identifiers == Ids(heap)
      modifies this`heap, this`identifiers, this`cancelledIds
      ensures (task, View()) == Popped(old(View()))
      ensures identifiers == Ids(heap) && |identifiers| == |heap|
      ensures heap == [] ==> identifiers == {}
    {
      assert Ids([]) == {};
      hide StateValid, Ids, Active, Popped;
      while heap != []
        invariant StateValid(View()) && identifiers == Ids(heap)
        invariant Popped(View()) == Popped(old(View()))
        decreases |heap|
      {
        PopStep(View());
        var head := heap[0].task;
        heap := heap[1..];
        identifiers := identifiers - {head.id};
        if head.id !in cancelledIds {
          return Some(head);
        }
        cancelledIds := cancelledIds - {head.id};
      }
      PopNothing(View());
      return None;
    }

    // The locked counter updates after a task came up too late, or after it was executed.
    method RecordExpiry(lateness: real)
      requires Valid() && Running > 0
      modifies this`deadlineMisses, this`maximumLateness, this`Running, this`Expired
      ensures Valid() && deadlineMisses == old(deadlineMisses) + 1 && Running == old(Running) - 1
      ensures maximumLateness == Max(old(maximumLateness), lateness)
    {
      deadlineMisses := deadlineMisses + 1;
      maximumLateness := Max(maximumLateness, lateness);
      Running, Expired := Running - 1, Expired + 1;
    }

    method RecordCompletion(lateness: real)
      requires Valid() && Running > 0 && lateness >= 0.0
      modifies this`completed, this`deadlineMisses, this`maximumLateness, this`Running
      ensures Valid() && completed == old(completed) + 1 && Running == old(Running) - 1
      ensures deadlineMisses == old(deadlineMisses) + (if lateness != 0.0 then 1 else 0)
      ensures maximumLateness == Max(old(maximumLateness), lateness)
    {
      completed := completed + 1;
      if lateness != 0.0 {
        deadlineMisses := deadlineMisses + 1;
        maximumLateness := Max(maximumLateness, lateness);
      }
      Running := Running - 1;
    }

    // One undisturbed call: `started` and `finished` are the two clock readings.
    method RunNext(started: real, finished: real) returns (outcome: Option<Outcome>)
      requires Valid()
      modifies this
      ensures Valid() && View() == Popped(old(View())).1
      ensures outcome.None? <==> old(Live()) == []
      ensures outcome.Some? ==>
        var task := old(Live())[0].task;
        && Live() == old(Live())[1..]
        && outcome.value.id == task.id
        && (outcome.value.status.DeadlineMissed? <==> started > task.deadline)
        && (outcome.value.status.Completed? <==> started <= task.deadline && finished <= task.deadline)
        && outcome.value.lateness == (if started > task.deadline then started - task.deadline
             else if finished > task.deadline then finished - task.deadline else 0.0)
        && completed == old(completed) + (if started > task.deadline then 0 else 1)
        && deadlineMisses == old(deadlineMisses) + (if outcome.value.lateness != 0.0 then 1 else 0)
        && maximumLateness == Max(old(maximumLateness), outcome.value.lateness)
      ensures Running == old(Running)
    {
      var task := PopActive();
      if task.None? {
        return None;
      }
      if started > task.value.deadline {
        var lateness := started - task.value.deadline;
        RecordExpiry(lateness);
        return Some(Outcome(task.value.id, DeadlineMissed, lateness));
      }
      var lateness := if finished - task.value.deadline > 0.0 then finished - task.value.deadline else 0.0;
      RecordCompletion(lateness);
      return Some(Outcome(task.value.id, if lateness == 0.0 then Completed else CompletedLate, lateness));
    }

    // Draining hands out exactly the live tasks, each once, in order.
    method Drain() returns (handed: seq<Task>)
      requires Valid()
      modifies this`heap, this`identifiers, this`cancelledIds, this`HandedOut, this`Running
      ensures Valid() && heap == [] && identifiers == {} && cancelledIds == {}
      ensures handed == Tasks(old(Live())) && HandedOut == old(HandedOut) + handed
    {
      handed := [];
      ghost var live := Live();
      hide Valid, Live, Tasks, Popped;
      DrainStarts(live);
      while true
        invariant Valid() && HandedOut == old(HandedOut) + handed
        invariant DrainedTo(live, handed, Live())
        decreases |live| - |handed|
      {
        DrainContinues(live, handed, Live());
        var task := PopActive();
        if task.None? {
          return;
        }
        handed := handed + [task.value];
      }
    }
  }

  function Tasks(queue: seq<Queued>): (tasks: seq<Task>)
    ensures |tasks| == |queue|
  {
    seq(|queue|, i requires 0 <= i < |queue| => queue[i].task)
  }

  // Of the tasks in `live` those in `handed` are out and `rest` is still queued.
  ghost predicate DrainedTo(live: seq<Queued>, handed: seq<Task>, rest: seq<Queued>) {
    |handed| <= |live| && handed == Tasks(live[..|handed|]) && rest == live[|handed|..]
  }

  lemma DrainStarts(live: seq<Queued>)
    ensures DrainedTo(live, [], live)
  {
  }

  lemma DrainContinues(live: seq<Queued>, handed: seq<Task>, rest: seq<Queued>)
    requires DrainedTo(live, handed, rest)
    ensures |handed| <= |live|
    ensures rest == [] ==> handed == Tasks(live)
    ensures rest != [] ==> |handed| < |live| && DrainedTo(live, handed + [rest[0].task], rest[1..])
  {
    if rest == [] {
      assert live[..|handed|] == live;
    } else {
      assert live[..|handed| + 1] == live[..|handed|] + [rest[0]];
    }
  }

  lemma ActiveHead(queue: seq<Queued>, cancelledIds: set<string>)
    requires queue != []
    ensures Active(queue, cancelledIds)
      == (if queue[0].task.id in cancelledIds then [] else [queue[0]]) + Active(queue[1..], cancelledIds)
    ensures queue[0].task.id !in cancelledIds ==> Active(queue, cancelledIds)[1..] == Active(queue[1..], cancelledIds)
  {
  }
}
