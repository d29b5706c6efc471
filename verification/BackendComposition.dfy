// Starting a set of managed engines as one unit, publishing their registry, and shutting down.
//
// Factories and close calls are the environment: every transition takes their answers as arguments
// and records on a shared host which instances were made and which close calls were issued.
module BackendComposition {
  import opened Results
  import opened SetSizes
  import Routing = BackendRouting

  const EXECUTION_BACKENDS: set<Routing.Backend> :=
    {Routing.VllmMetal, Routing.NativeMlx, Routing.NativeMetal, Routing.CoremlDraft, Routing.Cpu}

  // How a factory call ends. An interruption is an exception outside the Exception hierarchy.
  datatype Making = Raises | Interrupts | Makes(closable: bool)

  // What one engine meets when it is started; ready is what its instance then reports.
  datatype Reply = Reply(making: Making, ready: bool)

  datatype Closing = Clean | Unclean | Raised | Interrupted

  datatype StartResult = Holding | StartFailed | NotReady | CloseError | StartInterrupted | RegistryInvalid

  datatype StopResult = Stopped | NotClean | StopInterrupted

  datatype CloseResult = Closed | ShutdownFailures(backends: seq<Routing.Backend>) | CloseInterrupted

  // held: the instance of each engine; made: for every instance ever made, in order, whether its
  // close is callable; closed: the instances whose close was called, in call order.
  datatype World = World(held: seq<Option<nat>>, made: seq<bool>, closed: seq<nat>)

  // ----- what each step does to the world -----

  function CloseCall(made: seq<bool>, id: nat): seq<nat> {
    if id < |made| && made[id] then [id] else []
  }

  function Released(w: World, k: nat): (v: World)
    requires k < |w.held|
    ensures |v.held| == |w.held|
  {
    if w.held[k].None? then w
    else w.(held := w.held[k := None], closed := w.closed + CloseCall(w.made, w.held[k].value))
  }

  predicate StopIsInterrupted(w: World, k: nat, closing: Closing)
    requires k < |w.held|
  {
    w.held[k].Some? && CloseCall(w.made, w.held[k].value) != [] && closing.Interrupted?
  }

  predicate StopFails(w: World, k: nat, closing: Closing)
    requires k < |w.held|
  {
    w.held[k].Some? && (CloseCall(w.made, w.held[k].value) == [] || closing.Unclean? || closing.Raised?)
  }

  // Stopping engines k-1, ..., 0; an interrupted close ends the walk.
  function RolledBack(w: World, k: nat, closings: seq<Closing>): (v: World)
    requires k <= |w.held| == |closings|
    ensures |v.held| == |w.held|
    decreases k
  {
    if k == 0 then w
    else if StopIsInterrupted(w, k - 1, closings[k - 1]) then Released(w, k - 1)
    else RolledBack(Released(w, k - 1), k - 1, closings)
  }

  predicate StartHolds(w: World, k: nat, reply: Reply)
    requires k < |w.held|
  {
    reply.ready && (w.held[k].Some? || reply.making.Makes?)
  }

  function StartedOne(w: World, k: nat, reply: Reply): (v: World)
    requires k < |w.held|
    ensures |v.held| == |w.held|
  {
    if w.held[k].Some? || !reply.making.Makes? then w
    else
      var made := w.made + [reply.making.closable];
      if reply.ready then w.(made := made, held := w.held[k := Some(|w.made|)])
      else w.(made := made, closed := w.closed + CloseCall(made, |w.made|))
  }

  // Starting engines k, k+1, ... until one fails: the world then, and how many hold.
  function StartedFrom(w: World, k: nat, replies: seq<Reply>): (r: (World, nat))
    requires k <= |w.held| == |replies|
    ensures |r.0.held| == |w.held| && k <= r.1 <= |w.held|
    decreases |w.held| - k
  {
    if k == |w.held| then (w, k)
    else if StartHolds(w, k, replies[k]) then StartedFrom(StartedOne(w, k, replies[k]), k + 1, replies)
    else (StartedOne(w, k, replies[k]), k)
  }

  // ----- the registry's own admission -----

  function BackendSet(backends: seq<Routing.Backend>): set<Routing.Backend> {
    set i | 0 <= i < |backends| :: backends[i]
  }

  predicate RegistryAccepts(backends: seq<Routing.Backend>) {
    backends != [] && |backends| <= |EXECUTION_BACKENDS| && |BackendSet(backends)| == |backends|
  }

  ghost predicate Distinct(backends: seq<Routing.Backend>) {
    forall i, j :: 0 <= i < j < |backends| ==> backends[i] != backends[j]
  }

  lemma DistinctStep(backends: seq<Routing.Backend>)
    requires backends != []
    ensures var n := |backends| - 1;
            && BackendSet(backends) == BackendSet(backends[..n]) + {backends[n]}
            && (Distinct(backends) <==> Distinct(backends[..n]) && backends[n] !in BackendSet(backends[..n]))
  {
    var n := |backends| - 1;
    forall x | x in BackendSet(backends[..n]) ensures x in BackendSet(backends) {
      var i :| 0 <= i < n && backends[..n][i] == x;
      assert backends[i] == x;
    }
    forall i | 0 <= i < n ensures backends[i] in BackendSet(backends[..n]) {
      assert backends[..n][i] == backends[i];
    }
  }

  lemma {:induction false} BackendSetSize(backends: seq<Routing.Backend>)
    ensures |BackendSet(backends)| <= |backends|
    ensures |BackendSet(backends)| == |backends| <==> Distinct(backends)
  {
    if backends == [] {
      assert BackendSet(backends) == {};
    } else {
      var n := |backends| - 1;
      DistinctStep(backends);
      BackendSetSize(backends[..n]);
      hide BackendSet, Distinct;
    }
  }

  // The registry takes exactly the non-empty sets without a repeated backend; the bound on their
  // number never decides.
  lemma RegistryAcceptsIff(backends: seq<Routing.Backend>)
    ensures RegistryAccepts(backends) <==> backends != [] && Distinct(backends)
  {
    BackendSetSize(backends);
    SubsetSize(BackendSet(backends), EXECUTION_BACKENDS);
  }

  // ----- whole transitions -----

  datatype Composition = Composition(published: bool, world: World)

  datatype Event =
    | Start(replies: seq<Reply>, closings: seq<Closing>)
    | Close(closings: seq<Closing>)

  predicate Fits(event: Event, n: nat) {
    |event.closings| == n && (event.Start? ==> |event.replies| == n)
  }

  function After(backends: seq<Routing.Backend>, c: Composition, event: Event): (d: Composition)
    requires |c.world.held| == |backends| && Fits(event, |backends|)
    ensures |d.world.held| == |backends|
  {
    match event
    case Start(replies, closings) =>
      if c.published then c
      else
        var (w, k) := StartedFrom(c.world, 0, replies);
        if k == |backends| && RegistryAccepts(backends) then Composition(true, w)
        else Composition(false, RolledBack(w, k, closings))
    case Close(closings) =>
      if !c.published then c else Composition(false, RolledBack(c.world, |backends|, closings))
  }

  // ----- what every run keeps -----

  ghost predicate DistinctIds(held: seq<Option<nat>>) {
    forall i, j :: 0 <= i < j < |held| && held[i].Some? ==> held[i] != held[j]
  }

  // Every instance with a callable close is either held by exactly one engine and not yet closed,
  // or closed exactly once.
  ghost predicate Balanced(w: World) {
    && (forall i :: 0 <= i < |w.held| && w.held[i].Some? ==> w.held[i].value < |w.made|)
    && DistinctIds(w.held)
    && (forall id: nat :: multiset(w.closed)[id] == Due(w, id))
  }

  ghost function Due(w: World, id: nat): nat {
    if id < |w.made| && w.made[id] && Some(id) !in w.held then 1 else 0
  }

  ghost predicate AllHeld(w: World) {
    forall i :: 0 <= i < |w.held| ==> w.held[i].Some?
  }

  ghost predicate NoneHeld(w: World) {
    forall i :: 0 <= i < |w.held| ==> w.held[i].None?
  }

  lemma ReleaseKeepsBalance(w: World, k: nat)
    requires k < |w.held| && Balanced(w)
    ensures Balanced(Released(w, k))
  {
    var v := Released(w, k);
    if w.held[k].Some? {
      var id := w.held[k].value;
      assert forall x: nat :: x != id ==> (Some(x) in v.held <==> Some(x) in w.held) by {
        forall x: nat | x != id && Some(x) in w.held ensures Some(x) in v.held {
          var i :| 0 <= i < |w.held| && w.held[i] == Some(x);
          assert v.held[i] == Some(x);
        }
      }
      assert Some(id) in w.held && Some(id) !in v.held;
      assert multiset(v.closed) == multiset(w.closed) + multiset(CloseCall(w.made, id));
      assert Due(w, id) == 0;
    }
  }

  lemma StartKeepsBalance(w: World, k: nat, reply: Reply)
    requires k < |w.held| && Balanced(w)
    ensures Balanced(StartedOne(w, k, reply))
  {
    var v := StartedOne(w, k, reply);
    if w.held[k].None? && reply.making.Makes? {
      var id := |w.made|;
      assert Some(id) !in w.held;
      assert forall x: nat :: x != id ==> (Some(x) in v.held <==> Some(x) in w.held) by {
        forall x: nat | x != id && Some(x) in w.held ensures Some(x) in v.held {
          var i :| 0 <= i < |w.held| && w.held[i] == Some(x);
          assert v.held[i] == Some(x);
        }
      }
      assert reply.ready ==> v.held[k] == Some(id);
      assert Due(w, id) == 0;
      assert multiset(v.closed) == multiset(w.closed) + multiset(if reply.ready then [] else CloseCall(v.made, id));
    }
  }

  lemma {:induction false} RollbackKeepsBalance(w: World, k: nat, closings: seq<Closing>)
    requires k <= |w.held| == |closings| && Balanced(w)
    ensures Balanced(RolledBack(w, k, closings))
    decreases k
  {
    if k > 0 {
      ReleaseKeepsBalance(w, k - 1);
      if !StopIsInterrupted(w, k - 1, closings[k - 1]) {
        RollbackKeepsBalance(Released(w, k - 1), k - 1, closings);
      }
    }
  }

  lemma {:induction false} StartingKeepsBalance(w: World, k: nat, replies: seq<Reply>)
    requires k <= |w.held| == |replies| && Balanced(w)
    requires forall i :: 0 <= i < k ==> w.held[i].Some?
    ensures var (v, m) := StartedFrom(w, k, replies);
            && Balanced(v)
            && (forall i :: 0 <= i < m ==> v.held[i].Some?)
            && (forall i :: m <= i < |v.held| ==> v.held[i] == w.held[i])
    decreases |w.held| - k
  {
    if k < |w.held| {
      StartKeepsBalance(w, k, replies[k]);
      if StartHolds(w, k, replies[k]) {
        StartingKeepsBalance(StartedOne(w, k, replies[k]), k + 1, replies);
      }
    }
  }

  // Whatever fails or is interrupted, one transition keeps the account of instances, and a published
  // registry means that every engine holds one.
  lemma StepKeepsAccount(backends: seq<Routing.Backend>, c: Composition, event: Event)
    requires |c.world.held| == |backends| && Fits(event, |backends|)
    requires Balanced(c.world) && (c.published ==> AllHeld(c.world))
    ensures var d := After(backends, c, event); Balanced(d.world) && (d.published ==> AllHeld(d.world))
  {
    hide Balanced;
    match event {
      case Start(replies, closings) =>
        StartingKeepsBalance(c.world, 0, replies);
        var (w, k) := StartedFrom(c.world, 0, replies);
        RollbackKeepsBalance(w, k, closings);
      case Close(closings) =>
        RollbackKeepsBalance(c.world, |backends|, closings);
    }
  }

  function Run(backends: seq<Routing.Backend>, events: seq<Event>): (c: Composition)
    requires forall e :: e in events ==> Fits(e, |backends|)
    ensures |c.world.held| == |backends|
    decreases |events|
  {
    if events == [] then Composition(false, World(seq(|backends|, i => None), [], []))
    else After(backends, Run(backends, events[..|events| - 1]), events[|events| - 1])
  }

  lemma {:induction false} RunKeepsAccount(backends: seq<Routing.Backend>, events: seq<Event>)
    requires forall e :: e in events ==> Fits(e, |backends|)
    ensures var c := Run(backends, events); Balanced(c.world) && (c.published ==> AllHeld(c.world))
    decreases |events|
  {
    if events != [] {
      RunKeepsAccount(backends, events[..|events| - 1]);
      StepKeepsAccount(backends, Run(backends, events[..|events| - 1]), events[|events| - 1]);
    }
  }

  // ----- all or nothing -----

  // A rollback empties engines 0..k-1 exactly when no close above the first engine is interrupted;
  // an interruption at engine j leaves engines 0..j-1 as they were.
  ghost predicate RunsThrough(w: World, k: nat, closings: seq<Closing>)
    requires k <= |w.held| == |closings|
  {
    forall j :: 1 <= j < k ==> !StopIsInterrupted(w, j, closings[j])
  }

  ghost predicate Emptied(w: World, k: nat)
    requires k <= |w.held|
  {
    forall i :: 0 <= i < k ==> w.held[i].None?
  }

  lemma RunsThroughStep(w: World, k: nat, closings: seq<Closing>)
    requires 0 < k <= |w.held| == |closings|
    ensures RunsThrough(w, k, closings) <==>
      (k == 1 || !StopIsInterrupted(w, k - 1, closings[k - 1])) && RunsThrough(Released(w, k - 1), k - 1, closings)
  {
    var v := Released(w, k - 1);
    assert forall j :: 0 <= j < k - 1 ==> StopIsInterrupted(v, j, closings[j]) == StopIsInterrupted(w, j, closings[j]);
  }

  lemma {:induction false} RollbackEmptiesIff(w: World, k: nat, closings: seq<Closing>)
    requires k <= |w.held| == |closings|
    requires forall i :: 0 <= i < k ==> w.held[i].Some?
    ensures Emptied(RolledBack(w, k, closings), k) <==> RunsThrough(w, k, closings)
    ensures forall i :: k <= i < |w.held| ==> RolledBack(w, k, closings).held[i] == w.held[i]
    decreases k
  {
    if k > 0 {
      var v := Released(w, k - 1);
      RunsThroughStep(w, k, closings);
      if StopIsInterrupted(w, k - 1, closings[k - 1]) {
        assert k > 1 ==> v.held[0].Some?;
      } else {
        RollbackEmptiesIff(v, k - 1, closings);
        hide RunsThrough, StopIsInterrupted;
        assert RolledBack(w, k, closings).held[k - 1].None?;
      }
    }
  }

  predicate Uninterrupted(event: Event) {
    forall i :: 0 <= i < |event.closings| ==> !event.closings[i].Interrupted?
  }

  ghost predicate AllOrNothing(c: Composition) {
    if c.published then AllHeld(c.world) else NoneHeld(c.world)
  }

  // No interruption stops the walk of the transition's close calls above the first engine.
  ghost predicate Completes(backends: seq<Routing.Backend>, c: Composition, event: Event)
    requires |c.world.held| == |backends| && Fits(event, |backends|)
  {
    match event
    case Start(replies, closings) =>
      c.published || After(backends, c, event).published ||
        var (w, k) := StartedFrom(c.world, 0, replies); RunsThrough(w, k, closings)
    case Close(closings) =>
      !c.published || RunsThrough(c.world, |backends|, closings)
  }

  // Between two transitions a registry is published when every engine holds an instance, and
  // otherwise no engine holds any: a transition keeps this exactly when it completes.
  lemma StepIsAllOrNothingIff(backends: seq<Routing.Backend>, c: Composition, event: Event)
    requires |c.world.held| == |backends| && Fits(event, |backends|)
    requires Balanced(c.world) && AllOrNothing(c)
    ensures AllOrNothing(After(backends, c, event)) <==> Completes(backends, c, event)
  {
    hide Balanced;
    match event {
      case Start(replies, closings) =>
        StartingKeepsBalance(c.world, 0, replies);
        var (w, k) := StartedFrom(c.world, 0, replies);
        RollbackEmptiesIff(w, k, closings);
      case Close(closings) =>
        if c.published {
          RollbackEmptiesIff(c.world, |backends|, closings);
        }
    }
  }

  lemma UninterruptedCompletes(backends: seq<Routing.Backend>, c: Composition, event: Event)
    requires |c.world.held| == |backends| && Fits(event, |backends|) && Uninterrupted(event)
    ensures Completes(backends, c, event)
  {
  }

  ghost predicate AlwaysAllOrNothing(backends: seq<Routing.Backend>, events: seq<Event>)
    requires forall e :: e in events ==> Fits(e, |backends|)
    decreases |events|
  {
    AllOrNothing(Run(backends, events)) && (events == [] || AlwaysAllOrNothing(backends, events[..|events| - 1]))
  }

  ghost predicate AllComplete(backends: seq<Routing.Backend>, events: seq<Event>)
    requires forall e :: e in events ==> Fits(e, |backends|)
    decreases |events|
  {
    events == [] || (
      var front := events[..|events| - 1];
      AllComplete(backends, front) && Completes(backends, Run(backends, front), events[|events| - 1]))
  }

  // Over every run: all or nothing after each transition exactly when every transition completes.
  lemma {:induction false} RunIsAllOrNothingIff(backends: seq<Routing.Backend>, events: seq<Event>)
    requires forall e :: e in events ==> Fits(e, |backends|)
    ensures AlwaysAllOrNothing(backends, events) <==> AllComplete(backends, events)
    decreases |events|
  {
    if events != [] {
      var front, last := events[..|events| - 1], events[|events| - 1];
      RunIsAllOrNothingIff(backends, front);
      RunKeepsAccount(backends, front);
      if AlwaysAllOrNothing(backends, front) {
        AlwaysNow(backends, front);
        StepIsAllOrNothingIff(backends, Run(backends, front), last);
      }
      hide AllOrNothing, Completes, Balanced, AllHeld;
    }
  }

  lemma AlwaysNow(backends: seq<Routing.Backend>, events: seq<Event>)
    requires forall e :: e in events ==> Fits(e, |backends|)
    requires AlwaysAllOrNothing(backends, events)
    ensures AllOrNothing(Run(backends, events))
  {
  }

  // Whenever nothing is held, every instance with a callable close has been closed exactly once.
  lemma NothingHeldMeansClosedOnce(w: World, id: nat)
    requires Balanced(w) && NoneHeld(w) && id < |w.made|
    ensures multiset(w.closed)[id] == if w.made[id] then 1 else 0
  {
    assert multiset(w.closed)[id] == Due(w, id);
  }

  // Over every run whose close calls are not interrupted: all or nothing, and while nothing is
  // published every instance with a callable close has been closed exactly once.
  lemma {:induction false} RunIsAllOrNothing(backends: seq<Routing.Backend>, events: seq<Event>)
    requires forall e :: e in events ==> Fits(e, |backends|) && Uninterrupted(e)
    ensures var c := Run(backends, events);
            && AllOrNothing(c)
            && (!c.published ==> forall id: nat :: id < |c.world.made| ==>
                  multiset(c.world.closed)[id] == if c.world.made[id] then 1 else 0)
    decreases |events|
  {
    if events != [] {
      var front, last := events[..|events| - 1], events[|events| - 1];
      RunIsAllOrNothing(backends, front);
      RunKeepsAccount(backends, front);
      UninterruptedCompletes(backends, Run(backends, front), last);
      StepIsAllOrNothingIff(backends, Run(backends, front), last);
    }
    RunKeepsAccount(backends, events);
    var w := Run(backends, events).world;
    if NoneHeld(w) {
      forall id: nat | id < |w.made| ensures multiset(w.closed)[id] == if w.made[id] then 1 else 0 {
        NothingHeldMeansClosedOnce(w, id);
      }
    }
  }

  // ----- order -----

  // The close calls for what a list of engines holds, last engine first.
  function Releases(held: seq<Option<nat>>, made: seq<bool>): seq<nat> {
    if held == [] then []
    else
      var n := |held| - 1;
      (if held[n].Some? then CloseCall(made, held[n].value) else []) + Releases(held[..n], made)
  }

  lemma {:induction false} RollbackOrder(w: World, k: nat, closings: seq<Closing>)
    requires k <= |w.held| == |closings| && RunsThrough(w, k, closings)
    ensures RolledBack(w, k, closings).closed == w.closed + Releases(w.held[..k], w.made)
    ensures RolledBack(w, k, closings).made == w.made
    decreases k
  {
    if k == 0 {
    } else {
      var v := Released(w, k - 1);
      RunsThroughStep(w, k, closings);
      RollbackOrder(v, k - 1, closings);
      ReleasesStep(w, k);
      hide RunsThrough, StopIsInterrupted, Releases, Released;
      assert k == 1 ==> v == RolledBack(v, 0, closings);
    }
  }

  lemma ReleasesStep(w: World, k: nat)
    requires 0 < k <= |w.held|
    ensures var v := Released(w, k - 1);
            v.made == w.made && v.closed + Releases(v.held[..k - 1], v.made) == w.closed + Releases(w.held[..k], w.made)
  {
    var v := Released(w, k - 1);
    assert w.held[..k][..k - 1] == v.held[..k - 1];
  }

  // Closable instances from, ..., to-1, newest first.
  function NewestFirst(made: seq<bool>, from: nat, until: nat): seq<nat>
    decreases until
  {
    if until <= from then [] else CloseCall(made, until - 1) + NewestFirst(made, from, until - 1)
  }

  // Engines 0..k-1 were started from nothing, one instance each.
  ghost predicate Consecutive(w: World, k: nat, from: nat) {
    k <= |w.held| && forall i :: 0 <= i < k ==> w.held[i] == Some(from + i)
  }

  lemma {:induction false} ReleasesNewestFirst(held: seq<Option<nat>>, made: seq<bool>, from: nat)
    requires forall i :: 0 <= i < |held| ==> held[i] == Some(from + i)
    ensures Releases(held, made) == NewestFirst(made, from, from + |held|)
    decreases |held|
  {
    if held != [] {
      ReleasesNewestFirst(held[..|held| - 1], made, from);
    }
  }

  lemma {:induction false} StartingIsConsecutive(w: World, k: nat, replies: seq<Reply>, from: nat)
    requires k <= |w.held| == |replies| && Consecutive(w, k, from)
    requires |w.made| == from + k && forall i :: k <= i < |w.held| ==> w.held[i].None?
    ensures var (v, m) := StartedFrom(w, k, replies);
            && Consecutive(v, m, from) && w.made <= v.made
            && from + m <= |v.made| <= from + m + 1
            && (m == |w.held| ==> |v.made| == from + m)
            && v.closed == w.closed + NewestFirst(v.made, from + m, |v.made|)
    decreases |w.held| - k
  {
    if k < |w.held| {
      var v := StartedOne(w, k, replies[k]);
      if StartHolds(w, k, replies[k]) {
        assert Consecutive(v, k + 1, from) && v.closed == w.closed;
        hide Consecutive, StartedOne, NewestFirst;
        StartingIsConsecutive(v, k + 1, replies, from);
      } else {
        assert NewestFirst(v.made, from + k, from + k) == [];
      }
    }
  }

  lemma {:induction false} NewestFirstJoin(made: seq<bool>, from: nat, middle: nat, until: nat)
    requires from <= middle <= until
    ensures NewestFirst(made, middle, until) + NewestFirst(made, from, middle) == NewestFirst(made, from, until)
    decreases until
  {
    if middle < until {
      NewestFirstJoin(made, from, middle, until - 1);
    } else if from < until {
      assert NewestFirst(made, middle, until) == [];
    }
  }

  // A start that fails from nothing closes every closable instance it made, newest first, also when
  // it is the registry that rejects the set.
  lemma FailedStartClosesNewestFirst(backends: seq<Routing.Backend>, c: Composition, event: Event)
    requires |c.world.held| == |backends| && Fits(event, |backends|) && event.Start? && Uninterrupted(event)
    requires !c.published && NoneHeld(c.world)
    ensures var d := After(backends, c, event);
            !d.published ==>
              && c.world.made <= d.world.made
              && d.world.closed == c.world.closed + NewestFirst(d.world.made, |c.world.made|, |d.world.made|)
  {
    hide StartedFrom, RolledBack, Releases, NewestFirst, RegistryAccepts;
    var from := |c.world.made|;
    StartingIsConsecutive(c.world, 0, event.replies, from);
    var (w, k) := StartedFrom(c.world, 0, event.replies);
    RollbackOrder(w, k, event.closings);
    ReleasesNewestFirst(w.held[..k], w.made, from);
    NewestFirstJoin(w.made, from, from + k, |w.made|);
  }

  // A close of a published composition lets every engine go, last engine first.
  lemma CloseReleasesAll(backends: seq<Routing.Backend>, c: Composition, closings: seq<Closing>)
    requires |c.world.held| == |backends| == |closings| && Uninterrupted(Close(closings))
    requires c.published && AllHeld(c.world)
    ensures var d := After(backends, c, Close(closings));
            !d.published && NoneHeld(d.world)
            && d.world.closed == c.world.closed + Releases(c.world.held, c.world.made)
  {
    assert forall i :: 0 <= i < |closings| ==> !Close(closings).closings[i].Interrupted?;
    assert RunsThrough(c.world, |backends|, closings);
    RollbackEmptiesIff(c.world, |backends|, closings);
    RollbackOrder(c.world, |backends|, closings);
    assert c.world.held[..|backends|] == c.world.held;
  }

  // An interruption during shutdown is not caught per engine: the registry is gone, an earlier
  // engine still holds its instance, and a second close does nothing about it.
  lemma InterruptedCloseLeavesInstance()
    ensures var backends := [Routing.Cpu, Routing.NativeMlx];
            var ready := Reply(Makes(true), true);
            var start := Start([ready, ready], [Clean, Clean]);
            var stop := Close([Clean, Interrupted]);
            var c := After(backends, After(backends, Run(backends, []), start), stop);
            !c.published && c.world.held == [Some(0), None] && After(backends, c, Close([Clean, Clean])) == c
  {
    hide BackendSet, RegistryAccepts;
    var backends := [Routing.Cpu, Routing.NativeMlx];
    var ready := Reply(Makes(true), true);
    RegistryAcceptsIff(backends);
    var w0 := World([None, None], [], []);
    assert Run(backends, []).world == w0 && !Run(backends, []).published;
    var w1 := World([Some(0), None], [true], []);
    var w2 := World([Some(0), Some(1)], [true, true], []);
    assert StartedOne(w0, 0, ready) == w1;
    assert StartedOne(w1, 1, ready) == w2;
    assert StartedFrom(w2, 2, [ready, ready]) == (w2, 2);
    assert Released(w2, 1).held == [Some(0), None];
  }

  // ----- the objects -----

  // What the factories handed out and which close calls reached it.
  class EngineHost {
    var made: seq<bool>
    var closed: seq<nat>

    constructor ()
      ensures made == [] && closed == []
    {
      made, closed := [], [];
    }
  }

  // How a start ends for an engine that does or does not hold an instance yet.
  predicate Answers(holds: bool, reply: Reply, closing: Closing, r: StartResult) {
    match r
    case Holding => reply.ready && (holds || reply.making.Makes?)
    case NotReady =>
      && !reply.ready
      && (holds || reply.making == Makes(false) || (reply.making == Makes(true) && (closing.Clean? || closing.Unclean?)))
    case StartFailed => !holds && reply.making.Raises?
    case StartInterrupted =>
      !holds && (reply.making.Interrupts? || (reply.making == Makes(true) && !reply.ready && closing.Interrupted?))
    case CloseError => !holds && reply.making == Makes(true) && !reply.ready && closing.Raised?
    case RegistryInvalid => false
  }

  lemma OneAnswer(holds: bool, reply: Reply, closing: Closing, r: StartResult, s: StartResult)
    requires Answers(holds, reply, closing, r) && Answers(holds, reply, closing, s)
    ensures r == s
  {
  }

  class ManagedEngine {
    const backend: Routing.Backend
    const host: EngineHost
    var instance: Option<nat>

    constructor (backend: Routing.Backend, host: EngineHost)
      ensures this.backend == backend && this.host == host && instance == None
    {
      this.backend, this.host, instance := backend, host, None;
    }

    ghost function Seen(): World
      reads this, host
    {
      World([instance], host.made, host.closed)
    }

    method CallClose(id: nat) returns (callable: bool)
      requires id < |host.made|
      modifies host`closed
      ensures callable == host.made[id]
      ensures host.closed == old(host.closed) + CloseCall(host.made, id)
    {
      callable := host.made[id];
      if callable {
        host.closed := host.closed + [id];
      }
    }

    // Seen from the engine alone, a start is StartedOne; the result tells the five ways it can end.
    method Start(reply: Reply, closing: Closing) returns (r: StartResult)
      modifies this`instance, host
      ensures Seen() == StartedOne(old(Seen()), 0, reply)
      ensures r.Holding? <==> StartHolds(old(Seen()), 0, reply)
      ensures Answers(old(instance).Some?, reply, closing, r)
      ensures old(instance).Some? || !reply.making.Makes? ==>
        instance == old(instance) && host.made == old(host.made) && host.closed == old(host.closed)
      ensures old(instance).None? && reply.making.Makes? ==>
        && instance == (if reply.ready then Some(|old(host.made)|) else None)
        && host.made == old(host.made) + [reply.making.closable]
        && host.closed == old(host.closed) + if !reply.ready && reply.making.closable then [|old(host.made)|] else []
    {
      if instance.Some? {
        r := if reply.ready then Holding else NotReady;
        return;
      }
      match reply.making {
        case Raises => return StartFailed;
        case Interrupts => return StartInterrupted;
        case Makes(closable) =>
          var id := |host.made|;
          host.made := host.made + [closable];
          if !reply.ready {
            var callable := CallClose(id);
            r := if callable && closing.Raised? then CloseError
              else if callable && closing.Interrupted? then StartInterrupted
              else NotReady;
            return;
          }
          instance := Some(id);
          return Holding;
      }
    }

    // The engine lets go of its instance before it calls close, so a failing close is not repeated.
    method Stop(closing: Closing) returns (r: StopResult)
      requires instance.Some? ==> instance.value < |host.made|
      modifies this`instance, host`closed
      ensures Seen() == Released(old(Seen()), 0)
      ensures instance == None
      ensures host.closed == old(host.closed)
        + if old(instance).Some? && host.made[old(instance).value] then [old(instance).value] else []
      ensures r.Stopped? <==> old(instance).None? || (host.made[old(instance).value] && closing.Clean?)
      ensures r.NotClean? <==>
        old(instance).Some? && (!host.made[old(instance).value] || closing.Unclean? || closing.Raised?)
      ensures r.StopInterrupted? <==> StopIsInterrupted(old(Seen()), 0, closing)
      ensures r.NotClean? <==> StopFails(old(Seen()), 0, closing)
    {
      var held := instance;
      instance := None;
      if held.None? { return Stopped; }
      var callable := CallClose(held.value);
      if !callable { return NotClean; }
      match closing {
        case Clean => return Stopped;
        case Unclean => return NotClean;
        case Raised => return NotClean;
        case Interrupted => return StopInterrupted;
      }
    }
  }

  // The backends whose stop failed in a walk over engines k-1, ..., 0, in that order.
  function StopFailures(backends: seq<Routing.Backend>, w: World, k: nat, closings: seq<Closing>): seq<Routing.Backend>
    requires k <= |w.held| == |closings| == |backends|
    decreases k
  {
    if k == 0 || StopIsInterrupted(w, k - 1, closings[k - 1]) then []
    else
      var first := if StopFails(w, k - 1, closings[k - 1]) then [backends[k - 1]] else [];
      first + StopFailures(backends, Released(w, k - 1), k - 1, closings)
  }

  predicate WalkIsInterrupted(w: World, k: nat, closings: seq<Closing>)
    requires k <= |w.held| == |closings|
    decreases k
  {
    k > 0 && (StopIsInterrupted(w, k - 1, closings[k - 1]) || WalkIsInterrupted(Released(w, k - 1), k - 1, closings))
  }

  ghost predicate Known(w: World) {
    forall i :: 0 <= i < |w.held| && w.held[i].Some? ==> w.held[i].value < |w.made|
  }

  // The close of engine i is missing, is not clean or raises.
  ghost predicate LetsDown(w: World, i: nat, closing: Closing)
    requires Known(w) && i < |w.held|
  {
    w.held[i].Some? && (!w.made[w.held[i].value] || closing.Unclean? || closing.Raised?)
  }

  ghost predicate BreaksOff(w: World, i: nat, closing: Closing)
    requires Known(w) && i < |w.held|
  {
    w.held[i].Some? && w.made[w.held[i].value] && closing.Interrupted?
  }

  lemma StopMeaning(w: World, i: nat, closing: Closing)
    requires Known(w) && i < |w.held|
    ensures StopFails(w, i, closing) <==> LetsDown(w, i, closing)
    ensures StopIsInterrupted(w, i, closing) <==> BreaksOff(w, i, closing)
    ensures Known(Released(w, i))
  {
  }

  lemma ReleaseKeepsLower(w: World, k: nat, i: nat, closing: Closing)
    requires i < k < |w.held| && Known(w) && Known(Released(w, k))
    ensures LetsDown(Released(w, k), i, closing) <==> LetsDown(w, i, closing)
    ensures BreaksOff(Released(w, k), i, closing) <==> BreaksOff(w, i, closing)
  {
  }

  ghost predicate Descending(listed: seq<nat>) {
    forall a, b :: 0 <= a < b < |listed| ==> listed[a] > listed[b]
  }

  // The backends of the engines listed, in the same order.
  ghost predicate Names(failures: seq<Routing.Backend>, backends: seq<Routing.Backend>, listed: seq<nat>, k: nat) {
    && |failures| == |listed|
    && forall a :: 0 <= a < |listed| ==> listed[a] < k && listed[a] < |backends| && failures[a] == backends[listed[a]]
  }

  // A walk that stops engines k-1, ..., s, and no further because the close of engine s-1 is
  // interrupted or there is none, lists exactly those that let it down, last engine first.
  lemma {:induction false} FailuresAre(backends: seq<Routing.Backend>, w: World, k: nat, s: nat, closings: seq<Closing>)
    returns (listed: seq<nat>)
    requires s <= k <= |w.held| == |closings| == |backends| && Known(w)
    requires forall i :: s <= i < k ==> !BreaksOff(w, i, closings[i])
    requires s > 0 ==> BreaksOff(w, s - 1, closings[s - 1])
    ensures forall i: nat :: i in listed <==> s <= i < k && LetsDown(w, i, closings[i])
    ensures Descending(listed) && Names(StopFailures(backends, w, k, closings), backends, listed, k)
    ensures WalkIsInterrupted(w, k, closings) <==> s > 0
    decreases k
  {
    hide LetsDown, BreaksOff, StopFails, StopIsInterrupted, Released, Known, StopFailures, WalkIsInterrupted, RolledBack;
    hide Descending, Names;
    if k > 0 {
      StopMeaning(w, k - 1, closings[k - 1]);
      WalkUnfolds(backends, closings, w, k - 1);
    }
    if k == s {
      listed := [];
      NoWalk(backends, w, closings);
    } else {
      var v := Released(w, k - 1);
      forall i: nat | i < k - 1
        ensures LetsDown(v, i, closings[i]) <==> LetsDown(w, i, closings[i])
        ensures BreaksOff(v, i, closings[i]) <==> BreaksOff(w, i, closings[i])
      {
        ReleaseKeepsLower(w, k - 1, i, closings[i]);
      }
      var rest := FailuresAre(backends, v, k - 1, s, closings);
      listed := ListedStep(backends, StopFailures(backends, v, k - 1, closings), rest, k - 1, LetsDown(w, k - 1, closings[k - 1]));
    }
  }

  // The list for engines up to i from that for the engines below it.
  lemma ListedStep(backends: seq<Routing.Backend>, below: seq<Routing.Backend>, rest: seq<nat>, i: nat, fails: bool)
    returns (listed: seq<nat>)
    requires i < |backends| && Descending(rest) && Names(below, backends, rest, i)
    ensures Descending(listed) && Names(if fails then [backends[i]] + below else below, backends, listed, i + 1)
    ensures forall j: nat :: j in listed <==> (fails && j == i) || j in rest
  {
    if !fails {
      return rest;
    }
    listed := [i] + rest;
    var all := [backends[i]] + below;
    forall a | 0 <= a < |listed| ensures listed[a] <= i && all[a] == backends[listed[a]] {
      if a > 0 {
        assert listed[a] == rest[a - 1] && all[a] == below[a - 1];
      }
    }
    forall a, b | 0 <= a < b < |listed| ensures listed[a] > listed[b] {
      assert listed[b] == rest[b - 1] && (a > 0 ==> listed[a] == rest[a - 1]);
    }
  }

  lemma NoWalk(backends: seq<Routing.Backend>, w: World, closings: seq<Closing>)
    requires |w.held| == |closings| == |backends|
    ensures StopFailures(backends, w, 0, closings) == [] && !WalkIsInterrupted(w, 0, closings)
    ensures Descending([]) && forall k: nat :: Names([], backends, [], k)
  {
  }

  // A walk that began at w0 with k engines to stop has reached w with i of them left.
  ghost predicate WalkLeads(backends: seq<Routing.Backend>, closings: seq<Closing>, w0: World, k: nat, w: World, i: nat,
      failures: seq<Routing.Backend>)
    requires k <= |w0.held| == |closings| == |backends| && i <= |w.held| == |w0.held|
  {
    && RolledBack(w, i, closings) == RolledBack(w0, k, closings)
    && WalkIsInterrupted(w, i, closings) == WalkIsInterrupted(w0, k, closings)
    && failures + StopFailures(backends, w, i, closings) == StopFailures(backends, w0, k, closings)
  }

  lemma WalkStarts(backends: seq<Routing.Backend>, closings: seq<Closing>, w: World, k: nat)
    requires k <= |w.held| == |closings| == |backends|
    ensures WalkLeads(backends, closings, w, k, w, k, [])
  {
    assert [] + StopFailures(backends, w, k, closings) == StopFailures(backends, w, k, closings);
  }

  lemma WalkEnds(backends: seq<Routing.Backend>, closings: seq<Closing>, w0: World, k: nat, w: World, failures: seq<Routing.Backend>)
    requires k <= |w0.held| == |closings| == |backends| && |w.held| == |w0.held|
    requires WalkLeads(backends, closings, w0, k, w, 0, failures)
    ensures RolledBack(w0, k, closings) == w && !WalkIsInterrupted(w0, k, closings)
    ensures StopFailures(backends, w0, k, closings) == failures
  {
  }

  lemma WalkUnfolds(backends: seq<Routing.Backend>, closings: seq<Closing>, w: World, i: nat)
    requires i < |w.held| == |closings| == |backends|
    ensures var v := Released(w, i); var rest := StopFailures(backends, v, i, closings);
            if StopIsInterrupted(w, i, closings[i]) then
              && RolledBack(w, i + 1, closings) == v && WalkIsInterrupted(w, i + 1, closings)
              && StopFailures(backends, w, i + 1, closings) == []
            else
              && RolledBack(w, i + 1, closings) == RolledBack(v, i, closings)
              && WalkIsInterrupted(w, i + 1, closings) == WalkIsInterrupted(v, i, closings)
              && StopFailures(backends, w, i + 1, closings) ==
                 if StopFails(w, i, closings[i]) then [backends[i]] + rest else rest
  {
    hide Released, StopIsInterrupted, StopFails;
    var rest := StopFailures(backends, Released(w, i), i, closings);
    assert [] + rest == rest;
  }

  lemma WalkStep(backends: seq<Routing.Backend>, closings: seq<Closing>, w0: World, k: nat, w: World, i: nat,
      failures: seq<Routing.Backend>)
    requires k <= |w0.held| == |closings| == |backends| && i < |w.held| == |w0.held|
    requires WalkLeads(backends, closings, w0, k, w, i + 1, failures)
    ensures StopIsInterrupted(w, i, closings[i]) ==>
      && RolledBack(w0, k, closings) == Released(w, i)
      && WalkIsInterrupted(w0, k, closings)
      && StopFailures(backends, w0, k, closings) == failures
    ensures !StopIsInterrupted(w, i, closings[i]) ==>
      var all := if StopFails(w, i, closings[i]) then failures + [backends[i]] else failures;
      WalkLeads(backends, closings, w0, k, Released(w, i), i, all)
  {
    WalkUnfolds(backends, closings, w, i);
    hide Released, StopIsInterrupted, StopFails, RolledBack, WalkIsInterrupted, StopFailures;
    JoinFailures(failures, backends[i], StopFailures(backends, Released(w, i), i, closings));
  }

  lemma JoinFailures(before: seq<Routing.Backend>, b: Routing.Backend, after: seq<Routing.Backend>)
    ensures before + [] == before && before + ([b] + after) == before + [b] + after
  {
  }

  lemma StartUnfolds(w: World, k: nat, replies: seq<Reply>)
    requires k < |w.held| == |replies|
    ensures StartedFrom(w, k, replies) ==
      if StartHolds(w, k, replies[k]) then StartedFrom(StartedOne(w, k, replies[k]), k + 1, replies)
      else (StartedOne(w, k, replies[k]), k)
  {
  }

  lemma StartEnds(w: World, replies: seq<Reply>)
    requires |w.held| == |replies|
    ensures StartedFrom(w, |w.held|, replies) == (w, |w.held|)
  {
  }

  class ProductionComposition {
    const engines: seq<ManagedEngine>
    const host: EngineHost
    var registry: bool

    ghost predicate Wired() {
      && (forall i :: 0 <= i < |engines| ==> engines[i].host == host)
      && (forall i, j :: 0 <= i < j < |engines| ==> engines[i] != engines[j])
    }

    function Backends(): (b: seq<Routing.Backend>)
      ensures |b| == |engines| && forall i :: 0 <= i < |b| ==> b[i] == engines[i].backend
    {
      seq(|engines|, i requires 0 <= i < |engines| => engines[i].backend)
    }

    ghost function Seen(): (w: World)
      reads engines, host
      ensures |w.held| == |engines| && w.made == host.made && w.closed == host.closed
      ensures forall i :: 0 <= i < |engines| ==> w.held[i] == engines[i].instance
    {
      World(seq(|engines|, i requires 0 <= i < |engines| reads engines => engines[i].instance), host.made, host.closed)
    }

    ghost function Whole(): Composition
      reads this, engines, host
    {
      Composition(registry, Seen())
    }

    ghost predicate Valid()
      reads this, engines, host
    {
      Wired() && Balanced(Seen()) && (registry ==> AllHeld(Seen()))
    }

    constructor (backends: seq<Routing.Backend>, host: EngineHost)
      requires host.made == [] && host.closed == []
      ensures Wired() && this.host == host && fresh(engines) && Backends() == backends
      ensures Whole() == Run(backends, []) && Valid()
    {
      var list: seq<ManagedEngine> := [];
      while |list| < |backends|
        invariant |list| <= |backends| && fresh(list)
        invariant forall i :: 0 <= i < |list| ==> list[i].host == host && list[i].backend == backends[i] && list[i].instance == None
        invariant forall i, j :: 0 <= i < j < |list| ==> list[i] != list[j]
      {
        var engine := new ManagedEngine(backends[|list|], host);
        list := list + [engine];
      }
      this.engines, this.host, registry := list, host, false;
    }

    method StopOne(i: nat, closing: Closing) returns (r: StopResult)
      requires Wired() && i < |engines| && Balanced(Seen())
      modifies engines[i], host`closed
      ensures Seen() == Released(old(Seen()), i) && Balanced(Seen())
      ensures r.StopInterrupted? <==> StopIsInterrupted(old(Seen()), i, closing)
      ensures r.NotClean? <==> StopFails(old(Seen()), i, closing)
    {
      ghost var w := Seen();
      ReleaseKeepsBalance(w, i);
      ghost var e := engines[i].Seen();
      r := engines[i].Stop(closing);
      assert engines[i].Seen().held[0] == Released(e, 0).held[0];
      assert Seen().held == Released(w, i).held;
    }

    method StartOne(i: nat, reply: Reply, closing: Closing) returns (r: StartResult)
      requires Wired() && i < |engines| && Balanced(Seen())
      modifies engines[i], host
      ensures Seen() == StartedOne(old(Seen()), i, reply) && Balanced(Seen())
      ensures r.Holding? <==> StartHolds(old(Seen()), i, reply)
      ensures Answers(old(engines[i].instance).Some?, reply, closing, r)
    {
      ghost var w := Seen();
      StartKeepsBalance(w, i, reply);
      ghost var e := engines[i].Seen();
      r := engines[i].Start(reply, closing);
      assert engines[i].Seen().held[0] == StartedOne(e, 0, reply).held[0];
      assert Seen().held == StartedOne(w, i, reply).held;
    }

    // Stopping engines k-1, ..., 0: both the rollback of a start and the registry's shutdown.
    method StopDown(k: nat, closings: seq<Closing>) returns (failures: seq<Routing.Backend>, interrupted: bool)
      requires Wired() && Balanced(Seen()) && k <= |engines| == |closings|
      modifies engines, host`closed
      ensures Balanced(Seen()) && Seen() == RolledBack(old(Seen()), k, closings)
      ensures interrupted <==> WalkIsInterrupted(old(Seen()), k, closings)
      ensures failures == StopFailures(Backends(), old(Seen()), k, closings)
    {
      hide Balanced, Released, StopIsInterrupted, StopFails, Wired, RolledBack, WalkIsInterrupted, StopFailures, WalkLeads;
      failures := [];
      ghost var w0 := Seen();
      WalkStarts(Backends(), closings, w0, k);
      var i: nat := k;
      while i > 0
        invariant i <= k && Wired() && Balanced(Seen())
        invariant WalkLeads(Backends(), closings, w0, k, Seen(), i, failures)
      {
        i := i - 1;
        WalkStep(Backends(), closings, w0, k, Seen(), i, failures);
        var r := StopOne(i, closings[i]);
        if r.StopInterrupted? {
          return failures, true;
        }
        if r.NotClean? {
          failures := failures + [engines[i].backend];
        }
      }
      interrupted := false;
      WalkEnds(Backends(), closings, w0, k, Seen(), failures);
    }

    // The start loop: engines 0, 1, ... up to the first that fails.
    method StartEngines(replies: seq<Reply>, closings: seq<Closing>) returns (r: StartResult, started: nat)
      requires Wired() && Balanced(Seen()) && |replies| == |closings| == |engines|
      modifies engines, host
      ensures Balanced(Seen()) && started <= |engines| && (Seen(), started) == StartedFrom(old(Seen()), 0, replies)
      ensures r.Holding? <==> started == |engines|
      ensures !r.Holding? ==> Answers(old(engines[started].instance).Some?, replies[started], closings[started], r)
    {
      hide Balanced, StartedOne, StartHolds, StartedFrom, Answers;
      ghost var w0 := Seen();
      started, r := 0, Holding;
      while started < |engines|
        invariant started <= |engines| && Wired() && Balanced(Seen()) && r.Holding?
        invariant StartedFrom(Seen(), started, replies) == StartedFrom(w0, 0, replies)
        invariant forall i :: started <= i < |engines| ==> engines[i].instance == old(engines[i].instance)
      {
        StartUnfolds(Seen(), started, replies);
        r := StartOne(started, replies[started], closings[started]);
        if !r.Holding? { return; }
        started := started + 1;
      }
      StartEnds(Seen(), replies);
    }

    // The set is published once every engine holds and the registry takes the backends; otherwise
    // the engines already started are stopped again, last one first.
    method Start(replies: seq<Reply>, closings: seq<Closing>) returns (r: StartResult)
      requires Valid() && |replies| == |closings| == |engines|
      modifies this`registry, engines, host
      ensures Valid() && Whole() == After(Backends(), old(Whole()), Event.Start(replies, closings))
      ensures r.Holding? <==> registry
      // The result is that of the first engine that does not hold, unless the rollback is interrupted.
      ensures r.StartFailed? || r.NotReady? || r.CloseError? ==>
        var k := StartedFrom(old(Seen()), 0, replies).1;
        k < |engines| && Answers(old(Seen()).held[k].Some?, replies[k], closings[k], r)
      ensures r.RegistryInvalid? ==> StartedFrom(old(Seen()), 0, replies).1 == |engines| && !RegistryAccepts(Backends())
    {
      if registry { return Holding; }
      hide Balanced, StartedFrom, Wired, RolledBack, WalkIsInterrupted, StopFailures, RegistryAccepts;
      StartingKeepsBalance(Seen(), 0, replies);
      var started: nat;
      r, started := StartEngines(replies, closings);
      if r.Holding? {
        if RegistryAccepts(Backends()) {
          registry := true;
          return Holding;
        }
        r := RegistryInvalid;
      }
      var failures, interrupted := StopDown(started, closings);
      if interrupted { r := StartInterrupted; }
    }

    // The registry is withdrawn before its engines are stopped.
    method Close(closings: seq<Closing>) returns (r: CloseResult)
      requires Valid() && |closings| == |engines|
      modifies this`registry, engines, host`closed
      ensures Valid() && Whole() == After(Backends(), old(Whole()), Event.Close(closings))
      ensures r.CloseInterrupted? <==> old(registry) && WalkIsInterrupted(old(Seen()), |engines|, closings)
      ensures r.Closed? <==> !old(registry) || (!r.CloseInterrupted? && StopFailures(Backends(), old(Seen()), |engines|, closings) == [])
      ensures r.ShutdownFailures? ==> r.backends == StopFailures(Backends(), old(Seen()), |engines|, closings)
    {
      if !registry { return Closed; }
      registry := false;
      var failures, interrupted := StopDown(|engines|, closings);
      if interrupted { return CloseInterrupted; }
      r := if failures == [] then Closed else ShutdownFailures(failures);
    }
  }
}
