// Routing one request along an explicit chain of backends, with bounded telemetry.
module BackendRouting {
  import opened Results
  import Totals

  const MAXIMUM_TELEMETRY_KEYS := 256

  datatype Backend = VllmMetal | NativeMlx | NativeMetal | CoremlDraft | Cpu

  datatype Reason =
    | BackendUnregistered
    | BackendNotReady
    | OperatorUnsupported
    | PhaseUnsupported
    | PrecisionUnsupported
    | ArchitectureUnsupported
    | InjectedTimeout
    | InjectedRetryable
    | InjectedFatal
    | EngineCode(code: string)

  datatype Status = Rejected(reason: Reason) | Failed(reason: Reason) | Succeeded

  datatype Attempt = Attempt(backend: Backend, status: Status)

  datatype Descriptor = Descriptor(operators: set<string>, phases: set<string>, precisions: set<string>, architectures: set<string>)

  datatype Engine = Engine(descriptor: Descriptor, ready: bool)

  datatype Request = Request(operator: string, phase: string, precision: string, architecture: string, candidates: seq<Backend>)

  datatype FaultAction = Retryable | Fatal | Timeout

  // What happens when an eligible engine is asked: the context may be cancelled before or after
  // the call, and the call may return, be hit by an injected fault, fail with a code, or raise
  // something the registry does not handle.
  datatype Reply<V> =
    | CancelledBefore
    | Value(value: V)
    | CancelledAfter
    | Fault(action: FaultAction)
    | Failure(code: string, retryable: bool)
    | OtherError

  datatype Outcome<V> =
    | Success(value: V, backend: Backend, attempts: seq<Attempt>)
    | Terminal(reason: Reason)
    | Exhausted
    | Cancelled
    | Propagated

  // ----- one candidate -----

  function IneligibleReason(engine: Option<Engine>, request: Request): Option<Reason> {
    if engine.None? then Some(BackendUnregistered)
    else
      var d := engine.value.descriptor;
      if !engine.value.ready then Some(BackendNotReady)
      else if request.operator !in d.operators then Some(OperatorUnsupported)
      else if request.phase !in d.phases then Some(PhaseUnsupported)
      else if request.precision !in d.precisions then Some(PrecisionUnsupported)
      else if request.architecture !in d.architectures then Some(ArchitectureUnsupported)
      else None
  }

  function Find(engines: map<Backend, Engine>, backend: Backend): Option<Engine> {
    if backend in engines then Some(engines[backend]) else None
  }

  function FaultReason(action: FaultAction): Reason {
    match action
    case Timeout => InjectedTimeout
    case Retryable => InjectedRetryable
    case Fatal => InjectedFatal
  }

  // What asking one candidate leaves behind: an attempt to go on from, or the end.
  datatype Step<V> = Next(status: Status) | Stop(recorded: Option<Status>, outcome: Outcome<V>)

  function Ask<V>(engines: map<Backend, Engine>, request: Request, backend: Backend, reply: Reply<V>, sofar: seq<Attempt>): Step<V> {
    match IneligibleReason(Find(engines, backend), request)
    case Some(reason) => Next(Rejected(reason))
    case None =>
      match reply
      case CancelledBefore => Stop(None, Cancelled)
      case CancelledAfter => Stop(None, Cancelled)
      case OtherError => Stop(None, Propagated)
      case Fault(action) =>
        if action.Fatal? then Stop(Some(Failed(InjectedFatal)), Terminal(InjectedFatal)) else Next(Failed(FaultReason(action)))
      case Failure(code, retryable) =>
        if retryable then Next(Failed(EngineCode(code))) else Stop(Some(Failed(EngineCode(code))), Terminal(EngineCode(code)))
      case Value(value) =>
        Stop(Some(Succeeded), Success(value, backend, sofar + [Attempt(backend, Succeeded)]))
  }

  // The candidate may be passed over: ineligible, or its failure can be retried elsewhere.
  predicate PassedOver<V>(engines: map<Backend, Engine>, request: Request, backend: Backend, reply: Reply<V>) {
    || IneligibleReason(Find(engines, backend), request).Some?
    || (reply.Fault? && !reply.action.Fatal?)
    || (reply.Failure? && reply.retryable)
  }

  // The recorded status of a candidate that is passed over.
  function PassStatus<V>(engines: map<Backend, Engine>, request: Request, backend: Backend, reply: Reply<V>): Status
    requires PassedOver(engines, request, backend, reply)
  {
    match IneligibleReason(Find(engines, backend), request)
    case Some(reason) => Rejected(reason)
    case None => if reply.Fault? then Failed(FaultReason(reply.action)) else Failed(EngineCode(reply.code))
  }

  // ----- the chain -----

  // The outcome of the call and the attempts it recorded, from candidate i on.
  function Route<V>(engines: map<Backend, Engine>, request: Request, replies: Backend -> Reply<V>, i: nat, sofar: seq<Attempt>)
    : (Outcome<V>, seq<Attempt>)
    requires i <= |request.candidates|
    decreases |request.candidates| - i
  {
    if i == |request.candidates| then (Exhausted, sofar)
    else
      var backend := request.candidates[i];
      match Ask(engines, request, backend, replies(backend), sofar)
      case Next(status) => Route(engines, request, replies, i + 1, sofar + [Attempt(backend, status)])
      case Stop(None, end) => (end, sofar)
      case Stop(Some(status), end) => (end, sofar + [Attempt(backend, status)])
  }

  // The first candidate from i on that is not passed over.
  function FirstTaken<V>(engines: map<Backend, Engine>, request: Request, replies: Backend -> Reply<V>, i: nat): (n: nat)
    requires i <= |request.candidates|
    ensures i <= n <= |request.candidates|
    decreases |request.candidates| - i
  {
    if i == |request.candidates| || !PassedOver(engines, request, request.candidates[i], replies(request.candidates[i])) then i
    else FirstTaken(engines, request, replies, i + 1)
  }

  // The first n candidates were all passed over, and these are the attempts that say why.
  ghost predicate Passes<V>(attempts: seq<Attempt>, engines: map<Backend, Engine>, request: Request, replies: Backend -> Reply<V>, n: nat) {
    && n <= |attempts| && n <= |request.candidates|
    && forall k :: 0 <= k < n ==>
         && PassedOver(engines, request, request.candidates[k], replies(request.candidates[k]))
         && attempts[k] == Attempt(request.candidates[k],
              PassStatus(engines, request, request.candidates[k], replies(request.candidates[k])))
  }

  // How the call ends at a candidate that is not passed over, and what is recorded for it.
  ghost predicate EndsWith<V>(reply: Reply<V>, backend: Backend, outcome: Outcome<V>, recorded: seq<Attempt>, n: nat) {
    match reply
    case Value(value) =>
      |recorded| == n + 1 && recorded[n] == Attempt(backend, Succeeded) && outcome == Success(value, backend, recorded)
    case Fault(_) =>
      |recorded| == n + 1 && recorded[n] == Attempt(backend, Failed(InjectedFatal)) && outcome == Terminal(InjectedFatal)
    case Failure(code, _) =>
      |recorded| == n + 1 && recorded[n] == Attempt(backend, Failed(EngineCode(code))) && outcome == Terminal(EngineCode(code))
    case OtherError => |recorded| == n && outcome == Propagated
    case _ => |recorded| == n && outcome == Cancelled
  }

  // The call follows the candidates in order up to the first that is not passed over: attempt k
  // is about candidate k, and only the last can have succeeded. Without such a candidate the
  // chain is exhausted.
  lemma {:induction false} RouteFollowsCandidates<V>(engines: map<Backend, Engine>, request: Request, replies: Backend -> Reply<V>, i: nat, sofar: seq<Attempt>)
    requires |sofar| == i && Passes(sofar, engines, request, replies, i)
    ensures
      var n, (outcome, recorded) := FirstTaken(engines, request, replies, i), Route(engines, request, replies, i, sofar);
      && Passes(recorded, engines, request, replies, n)
      && (outcome.Exhausted? <==> n == |request.candidates|)
      && (outcome.Exhausted? ==> |recorded| == n)
      && (n < |request.candidates| ==>
           && IneligibleReason(Find(engines, request.candidates[n]), request).None?
           && EndsWith(replies(request.candidates[n]), request.candidates[n], outcome, recorded, n))
    decreases |request.candidates| - i
  {
    if i < |request.candidates| {
      var backend := request.candidates[i];
      AskMeaning(engines, request, backend, replies(backend), sofar);
      if PassedOver(engines, request, backend, replies(backend)) {
        RouteFollowsCandidates(engines, request, replies, i + 1,
          sofar + [Attempt(backend, PassStatus(engines, request, backend, replies(backend)))]);
      }
    }
  }

  lemma AskMeaning<V>(engines: map<Backend, Engine>, request: Request, backend: Backend, reply: Reply<V>, sofar: seq<Attempt>)
    ensures PassedOver(engines, request, backend, reply) ==>
      Ask(engines, request, backend, reply, sofar) == Next(PassStatus(engines, request, backend, reply))
    ensures !PassedOver(engines, request, backend, reply) ==>
      && Ask(engines, request, backend, reply, sofar).Stop?
      && !Ask(engines, request, backend, reply, sofar).outcome.Exhausted?
  {
  }

  // ----- the same, told from the engines and the request -----

  // The backend is registered, ready, and lists all that the request needs.
  predicate Suits(engines: map<Backend, Engine>, request: Request, backend: Backend) {
    && backend in engines && engines[backend].ready
    && request.operator in engines[backend].descriptor.operators
    && request.phase in engines[backend].descriptor.phases
    && request.precision in engines[backend].descriptor.precisions
    && request.architecture in engines[backend].descriptor.architectures
  }

  predicate Skips<V>(engines: map<Backend, Engine>, request: Request, backend: Backend, reply: Reply<V>) {
    !Suits(engines, request, backend) || (reply.Fault? && reply.action in {Timeout, Retryable}) || (reply.Failure? && reply.retryable)
  }

  // The first thing that is missing, in the order in which it is looked for.
  predicate Misses(engines: map<Backend, Engine>, request: Request, backend: Backend, reason: Reason) {
    if backend !in engines then reason == BackendUnregistered
    else
      var d := engines[backend].descriptor;
      && (reason == BackendNotReady <==> !engines[backend].ready)
      && (reason == OperatorUnsupported <==> engines[backend].ready && request.operator !in d.operators)
      && (reason == PhaseUnsupported <==>
           engines[backend].ready && request.operator in d.operators && request.phase !in d.phases)
      && (reason == PrecisionUnsupported <==>
           && engines[backend].ready && request.operator in d.operators && request.phase in d.phases
           && request.precision !in d.precisions)
      && (reason == ArchitectureUnsupported <==>
           && engines[backend].ready && request.operator in d.operators && request.phase in d.phases
           && request.precision in d.precisions && request.architecture !in d.architectures)
  }

  ghost predicate SkippedAs<V>(engines: map<Backend, Engine>, request: Request, backend: Backend, reply: Reply<V>, status: Status) {
    if !Suits(engines, request, backend) then status.Rejected? && Misses(engines, request, backend, status.reason)
    else match reply
      case Fault(Timeout) => status == Failed(InjectedTimeout)
      case Fault(Retryable) => status == Failed(InjectedRetryable)
      case Failure(code, _) => status == Failed(EngineCode(code))
      case _ => false
  }

  lemma SkipsMeaning<V>(engines: map<Backend, Engine>, request: Request, backend: Backend, reply: Reply<V>)
    ensures Suits(engines, request, backend) <==> IneligibleReason(Find(engines, backend), request).None?
    ensures Skips(engines, request, backend, reply) <==> PassedOver(engines, request, backend, reply)
    ensures Skips(engines, request, backend, reply) ==>
      SkippedAs(engines, request, backend, reply, PassStatus(engines, request, backend, reply))
  {
  }

  lemma {:induction false} FirstTakenIs<V>(engines: map<Backend, Engine>, request: Request, replies: Backend -> Reply<V>, i: nat, n: nat)
    requires i <= n <= |request.candidates|
    requires forall k :: i <= k < n ==> Skips(engines, request, request.candidates[k], replies(request.candidates[k]))
    requires n < |request.candidates| ==> !Skips(engines, request, request.candidates[n], replies(request.candidates[n]))
    ensures FirstTaken(engines, request, replies, i) == n
    decreases n - i
  {
    if i < |request.candidates| {
      SkipsMeaning(engines, request, request.candidates[i], replies(request.candidates[i]));
    }
    if i < n {
      FirstTakenIs(engines, request, replies, i + 1, n);
    }
  }

  // With n skipped candidates before the first that is not, attempts 0 to n - 1 say why those were
  // skipped, and candidate n, which suits the request, decides how the call ends.
  lemma CallIsDecidedByFirstTaken<V>(engines: map<Backend, Engine>, request: Request, replies: Backend -> Reply<V>, n: nat)
    requires n <= |request.candidates|
    requires forall k :: 0 <= k < n ==> Skips(engines, request, request.candidates[k], replies(request.candidates[k]))
    requires n < |request.candidates| ==> !Skips(engines, request, request.candidates[n], replies(request.candidates[n]))
    ensures
      var (outcome, recorded) := Route(engines, request, replies, 0, []);
      && n <= |recorded|
      && (forall k :: 0 <= k < n ==>
           && recorded[k].backend == request.candidates[k]
           && SkippedAs(engines, request, request.candidates[k], replies(request.candidates[k]), recorded[k].status))
      && (n == |request.candidates| ==> outcome == Exhausted && |recorded| == n)
      && (n < |request.candidates| ==>
           && Suits(engines, request, request.candidates[n])
           && EndsWith(replies(request.candidates[n]), request.candidates[n], outcome, recorded, n))
  {
    FirstTakenIs(engines, request, replies, 0, n);
    RouteFollowsCandidates(engines, request, replies, 0, []);
    var recorded := Route(engines, request, replies, 0, []).1;
    hide Route, FirstTaken, Suits, Skips, SkippedAs, PassedOver, PassStatus, IneligibleReason;
    forall k | 0 <= k < n
      ensures recorded[k].backend == request.candidates[k]
      ensures SkippedAs(engines, request, request.candidates[k], replies(request.candidates[k]), recorded[k].status)
    {
      SkipsMeaning(engines, request, request.candidates[k], replies(request.candidates[k]));
    }
    if n < |request.candidates| {
      SkipsMeaning(engines, request, request.candidates[n], replies(request.candidates[n]));
    }
  }

  // A chosen backend suits the request and gave the value; a candidate that suits is never rejected.
  lemma {:induction false} ChosenBackendSuits<V>(engines: map<Backend, Engine>, request: Request, replies: Backend -> Reply<V>,
                                                 i: nat, sofar: seq<Attempt>)
    requires i <= |request.candidates|
    requires forall k :: 0 <= k < |sofar| ==> sofar[k].status.Rejected? ==> !Suits(engines, request, sofar[k].backend)
    ensures
      var (outcome, recorded) := Route(engines, request, replies, i, sofar);
      && (outcome.Success? ==>
           && Suits(engines, request, outcome.backend) && outcome.backend in request.candidates
           && replies(outcome.backend) == Value(outcome.value) && outcome.attempts == recorded)
      && forall k :: 0 <= k < |recorded| ==> recorded[k].status.Rejected? ==> !Suits(engines, request, recorded[k].backend)
    decreases |request.candidates| - i
  {
    RouteUnfolds(engines, request, replies, i, sofar);
    if i < |request.candidates| {
      var backend := request.candidates[i];
      var step := Ask(engines, request, backend, replies(backend), sofar);
      if step.Next? {
        ChosenBackendSuits(engines, request, replies, i + 1, sofar + [Attempt(backend, step.status)]);
      }
    }
  }

  // ----- telemetry -----

  // The table is keyed by names, so an engine that fails with an injected fault's code shares its entry.
  datatype Key = Key(backend: Backend, status: string, reason: string)

  function Code(reason: Reason): string {
    match reason
    case BackendUnregistered => "backend_unregistered"
    case BackendNotReady => "backend_not_ready"
    case OperatorUnsupported => "operator_unsupported"
    case PhaseUnsupported => "phase_unsupported"
    case PrecisionUnsupported => "precision_unsupported"
    case ArchitectureUnsupported => "architecture_unsupported"
    case InjectedTimeout => "injected_backend_timeout"
    case InjectedRetryable => "injected_backend_retryable"
    case InjectedFatal => "injected_backend_fatal"
    case EngineCode(code) => code
  }

  function KeyOf(backend: Backend, status: Status): Key {
    match status
    case Rejected(reason) => Key(backend, "rejected", Code(reason))
    case Failed(reason) => Key(backend, "failed", Code(reason))
    case Succeeded => Key(backend, "succeeded", "none")
  }

  // An attempt is filed under its backend, how it ended and why; codes of engines share the names.
  lemma AttemptNames(backend: Backend, code: string)
    ensures KeyOf(backend, Succeeded) == Key(backend, "succeeded", "none")
    ensures KeyOf(backend, Failed(EngineCode(code))) == Key(backend, "failed", code)
    ensures KeyOf(backend, Failed(InjectedTimeout)) == Key(backend, "failed", "injected_backend_timeout")
    ensures KeyOf(backend, Failed(InjectedRetryable)) == Key(backend, "failed", "injected_backend_retryable")
    ensures KeyOf(backend, Failed(InjectedFatal)) == Key(backend, "failed", "injected_backend_fatal")
    ensures KeyOf(backend, Rejected(BackendUnregistered)) == Key(backend, "rejected", "backend_unregistered")
    ensures KeyOf(backend, Rejected(BackendNotReady)) == Key(backend, "rejected", "backend_not_ready")
    ensures KeyOf(backend, Rejected(OperatorUnsupported)) == Key(backend, "rejected", "operator_unsupported")
    ensures KeyOf(backend, Rejected(PhaseUnsupported)) == Key(backend, "rejected", "phase_unsupported")
    ensures KeyOf(backend, Rejected(PrecisionUnsupported)) == Key(backend, "rejected", "precision_unsupported")
    ensures KeyOf(backend, Rejected(ArchitectureUnsupported)) == Key(backend, "rejected", "architecture_unsupported")
  {
  }

  // How many of the recorded attempts have no entry.
  function CountOutside(recorded: seq<Key>, keys: set<Key>): nat {
    if recorded == [] then 0
    else CountOutside(recorded[..|recorded| - 1], keys) + (if recorded[|recorded| - 1] in keys then 0 else 1)
  }

  lemma {:induction false} CountOutsideNewKey(recorded: seq<Key>, keys: set<Key>, key: Key)
    requires key !in recorded
    ensures CountOutside(recorded, keys + {key}) == CountOutside(recorded, keys)
  {
    if recorded != [] {
      CountOutsideNewKey(recorded[..|recorded| - 1], keys, key);
    }
  }

  lemma {:induction false} CountOutsideNone(recorded: seq<Key>, keys: set<Key>)
    requires forall key :: key in recorded ==> key in keys
    ensures CountOutside(recorded, keys) == 0
  {
    if recorded != [] {
      CountOutsideNone(recorded[..|recorded| - 1], keys);
    }
  }

  lemma CountOutsideSnoc(recorded: seq<Key>, keys: set<Key>, key: Key)
    ensures CountOutside(recorded + [key], keys) == CountOutside(recorded, keys) + (if key in keys then 0 else 1)
  {
    assert (recorded + [key])[..|recorded|] == recorded;
  }

  // The table is bounded, counts each of its keys exactly, and together with the overflow
  // accounts for every recorded attempt; nothing overflows while the table has room.
  ghost predicate TelemetryExact(telemetry: map<Key, nat>, overflow: nat, recorded: seq<Key>) {
    && |telemetry| <= 256
    && (forall key :: key in telemetry ==> telemetry[key] == multiset(recorded)[key] > 0)
    && (|telemetry| < 256 ==> forall key :: key in recorded ==> key in telemetry)
    && overflow == CountOutside(recorded, telemetry.Keys)
    && Totals.Total(telemetry) + overflow == |recorded|
  }

  lemma CountKnown(telemetry: map<Key, nat>, overflow: nat, recorded: seq<Key>, key: Key)
    requires TelemetryExact(telemetry, overflow, recorded)
    ensures key in telemetry ==> TelemetryExact(telemetry[key := telemetry[key] + 1], overflow, recorded + [key])
    ensures key !in telemetry && |telemetry| < MAXIMUM_TELEMETRY_KEYS ==>
      TelemetryExact(telemetry[key := 1], overflow, recorded + [key])
    ensures key !in telemetry && |telemetry| >= MAXIMUM_TELEMETRY_KEYS ==>
      TelemetryExact(telemetry, overflow + 1, recorded + [key])
  {
    if key in telemetry {
      CountAgain(telemetry, overflow, recorded, key);
    } else if |telemetry| < MAXIMUM_TELEMETRY_KEYS {
      CountFirst(telemetry, overflow, recorded, key);
    } else {
      CountOutsideSnoc(recorded, telemetry.Keys, key);
    }
  }

  lemma CountAgain(telemetry: map<Key, nat>, overflow: nat, recorded: seq<Key>, key: Key)
    requires TelemetryExact(telemetry, overflow, recorded) && key in telemetry
    ensures TelemetryExact(telemetry[key := telemetry[key] + 1], overflow, recorded + [key])
  {
    CountOutsideSnoc(recorded, telemetry.Keys, key);
    Totals.TotalUpdate(telemetry, key, telemetry[key] + 1);
    assert telemetry[key := telemetry[key] + 1].Keys == telemetry.Keys;
  }

  lemma CountFirst(telemetry: map<Key, nat>, overflow: nat, recorded: seq<Key>, key: Key)
    requires TelemetryExact(telemetry, overflow, recorded)
    requires key !in telemetry && |telemetry| < MAXIMUM_TELEMETRY_KEYS
    ensures TelemetryExact(telemetry[key := 1], overflow, recorded + [key])
  {
    hide Totals.Total, CountOutside;
    var keys := telemetry.Keys;
    CountOutsideSnoc(recorded, keys + {key}, key);
    CountOutsideNewKey(recorded, keys, key);
    Totals.TotalUpdate(telemetry, key, 1);
    var grown := telemetry[key := 1];
    assert grown.Keys == keys + {key};
    assert key !in multiset(recorded);
    assert forall k :: k in grown ==> grown[k] == multiset(recorded + [key])[k] > 0;
  }

  class BackendEngineRegistry {
    const engines: map<Backend, Engine>
    var telemetry: map<Key, nat>
    var overflow: nat
    // Every attempt ever recorded, over all calls.
    ghost var Recorded: seq<Key>

    ghost predicate Valid()
      reads this
    {
      TelemetryExact(telemetry, overflow, Recorded)
    }

    constructor (engines: map<Backend, Engine>)
      requires engines != map[]
      ensures Valid() && Recorded == [] && this.engines == engines
    {
      this.engines := engines;
      telemetry, overflow, Recorded := map[], 0, [];
    }

    method RecordAttempt(backend: Backend, status: Status)
      requires Valid()
      modifies this
      ensures Valid() && Recorded == old(Recorded) + [KeyOf(backend, status)]
      ensures old(telemetry.Keys) <= telemetry.Keys
    {
      var key := KeyOf(backend, status);
      CountKnown(telemetry, overflow, Recorded, key);
      hide TelemetryExact, KeyOf;
      if key in telemetry {
        telemetry := telemetry[key := telemetry[key] + 1];
      } else if |telemetry| < MAXIMUM_TELEMETRY_KEYS {
        telemetry := telemetry[key := 1];
      } else {
        overflow := overflow + 1;
      }
      Recorded := Recorded + [key];
    }

    // Appends an attempt to the call's list and records it.
    method Note(attempts: seq<Attempt>, backend: Backend, status: Status) returns (extended: seq<Attempt>)
      requires Valid()
      modifies this
      ensures Valid() && extended == attempts + [Attempt(backend, status)]
      ensures forall before: seq<Key> :: old(Recorded) == before + Keys(attempts) ==> Recorded == before + Keys(extended)
    {
      KeysSnoc(attempts, Attempt(backend, status));
      extended := attempts + [Attempt(backend, status)];
      RecordAttempt(backend, status);
      forall before: seq<Key> | old(Recorded) == before + Keys(attempts) ensures Recorded == before + Keys(extended) {
        assert before + (Keys(attempts) + [KeyOf(backend, status)]) == before + Keys(attempts) + [KeyOf(backend, status)];
      }
    }

    // `replies` says what each eligible candidate does when asked.
    method Execute<V>(request: Request, replies: Backend -> Reply<V>) returns (outcome: Outcome<V>)
      requires Valid()
      modifies this
      ensures Valid()
      ensures outcome == Route(engines, request, replies, 0, []).0
      ensures Recorded == old(Recorded) + Keys(Route(engines, request, replies, 0, []).1)
    {
      assert Keys([]) == [];
      hide TelemetryExact, Ask, Route, Keys;
      var attempts: seq<Attempt> := [];
      var i := 0;
      while i < |request.candidates|
        invariant 0 <= i <= |request.candidates|
        invariant Valid() && Recorded == old(Recorded) + Keys(attempts)
        invariant Route(engines, request, replies, i, attempts) == Route(engines, request, replies, 0, [])
      {
        RouteUnfolds(engines, request, replies, i, attempts);
        var backend := request.candidates[i];
        var step := Ask(engines, request, backend, replies(backend), attempts);
        var status := if step.Next? then Some(step.status) else step.recorded;
        if status.Some? {
          attempts := Note(attempts, backend, status.value);
        }
        if step.Stop? {
          return step.outcome;
        }
        i := i + 1;
      }
      RouteUnfolds(engines, request, replies, i, attempts);
      return Exhausted;
    }
  }

  lemma RouteUnfolds<V>(engines: map<Backend, Engine>, request: Request, replies: Backend -> Reply<V>, i: nat, sofar: seq<Attempt>)
    requires i <= |request.candidates|
    ensures i == |request.candidates| ==> Route(engines, request, replies, i, sofar) == (Exhausted, sofar)
    ensures i < |request.candidates| ==>
      var backend := request.candidates[i];
      var step := Ask(engines, request, backend, replies(backend), sofar);
      Route(engines, request, replies, i, sofar) ==
        if step.Next? then Route(engines, request, replies, i + 1, sofar + [Attempt(backend, step.status)])
        else (step.outcome, if step.recorded.Some? then sofar + [Attempt(backend, step.recorded.value)] else sofar)
  {
  }

  function Keys(attempts: seq<Attempt>): (keys: seq<Key>)
    ensures |keys| == |attempts|
  {
    seq(|attempts|, i requires 0 <= i < |attempts| => KeyOf(attempts[i].backend, attempts[i].status))
  }

  lemma KeysSnoc(attempts: seq<Attempt>, last: Attempt)
    ensures Keys(attempts + [last]) == Keys(attempts) + [KeyOf(last.backend, last.status)]
  {
  }
}
