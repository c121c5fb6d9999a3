/** The runtime manager itself (control-plane/src/runtime_manager.cpp): one method
    per critical section, updating its table, the backend and the metrics in place.
    Answers of the outside world (backend, probes, clock, HTTP call) are parameters. */
module RuntimeManager {
  import opened Options
  import opened Metrics
  import opened Lifecycle
  import Invocation

  const READINESS_ATTEMPTS := 50

  /** The backend as the manager uses it: a record of what it was asked to do. */
  class Backend {
    var started: set<ContainerId>
    var removals: seq<ContainerId>

    constructor ()
      ensures started == {} && removals == []
    {
      started, removals := {}, [];
    }

    method RunContainer(result: Option<ContainerId>)
      modifies `started
      ensures started == if result.Some? then old(started) + {result.value} else old(started)
    {
      if result.Some? { started := started + {result.value}; }
    }

    method RemoveContainer(id: ContainerId)
      modifies `removals
      ensures removals == old(removals) + [id]
    {
      removals := removals + [id];
    }
  }

  datatype RuntimeStatus = RuntimeStatus(state: RuntimeState, containerId: ContainerId, hostPort: int, idleMs: int)

  datatype ListEntry = ListEntry(name: FunctionName, status: RuntimeStatus)

  function StatusAt(r: Runtime, now: int): RuntimeStatus {
    RuntimeStatus(r.state, r.containerId, r.hostPort, ElapsedMs(r.lastUsedAt, now))
  }

  /** What a cold start comes to, given what the backend and the probes answered. */
  ghost function Outcome(run: Option<ContainerId>, port: int, health: seq<bool>): StartOutcome {
    StartOf(run, port, true in health)
  }

  /** What the outside world answers to one `try_invoke`, and when. */
  datatype Answers = Answers(
    run: Option<ContainerId>, port: int, health: seq<bool>,
    enteredAt: int, response: Response, measuredAt: int, completedAt: int)

  ghost function ScriptOf(a: Answers): Invocation.Script {
    Invocation.Script(Outcome(a.run, a.port, a.health), a.enteredAt, a.response, a.measuredAt, a.completedAt)
  }

  class Manager {
    var runtimes: map<FunctionName, Runtime>
    const metrics: Registry<Status, Reason>
    const backend: Backend

    ghost function Core(): Core
      reads this, metrics, backend
    {
      Lifecycle.Core(runtimes, backend.started, backend.removals,
                     metrics.runtimesCreated, metrics.runtimesTerminated, metrics.log)
    }

    /** The metrics agree with their log; containers are conserved and accounted for. */
    ghost predicate Valid()
      reads this, metrics, backend
    {
      metrics.Valid() && Sound(Core())
    }

    /** The manager is given a new registry and a new backend. */
    constructor (metrics: Registry<Status, Reason>, backend: Backend)
      requires metrics.Valid() && metrics.runtimesCreated == 0 && metrics.runtimesTerminated == map[] && metrics.log == []
      requires backend.started == {} && backend.removals == []
      ensures Valid() && this.metrics == metrics && this.backend == backend && Core() == EMPTY
    {
      this.metrics, this.backend := metrics, backend;
      runtimes := map[];
      new;
      assert |runtimes| == 0;
    }

    /** `start_runtime`: run, find the port, poll for readiness; give the container back on failure. */
    method StartRuntime(spec: FunctionSpec, run: Option<ContainerId>, port: int, health: seq<bool>)
      returns (started: Option<Runtime>)
      requires |health| == READINESS_ATTEMPTS
      modifies backend
      ensures started.Some? <==> run.Some? && port > 0 && exists i :: 0 <= i < READINESS_ATTEMPTS && health[i]
      ensures started.Some? ==>
                && started.value.containerId == run.value && started.value.hostPort == port
                && started.value.idleTimeoutMs == spec.idleTimeoutMs
      ensures backend.started == if run.Some? then old(backend.started) + {run.value} else old(backend.started)
      ensures backend.removals
           == if run.Some? && started.None? then old(backend.removals) + [run.value] else old(backend.removals)
    {
      backend.RunContainer(run);
      if run.None? { return None; }
      if port <= 0 {
        backend.RemoveContainer(run.value);
        return None;
      }
      var attempt := 0;
      while attempt < READINESS_ATTEMPTS
        invariant 0 <= attempt <= READINESS_ATTEMPTS
        invariant backend.removals == old(backend.removals)
        invariant backend.started == old(backend.started) + {run.value}
        invariant forall i :: 0 <= i < attempt ==> !health[i]
      {
        if health[attempt] {
          return Some(Runtime(run.value, port, Starting, 0, spec.idleTimeoutMs));
        }
        attempt := attempt + 1;
      }
      backend.RemoveContainer(run.value);
      return None;
    }

    /** Reuse the tracked runtime or start one, and mark it busy. */
    method Claim(spec: FunctionSpec, run: Option<ContainerId>, port: int, health: seq<bool>, now: int)
      returns (entry: Entry)
      requires metrics.Valid() && |health| == READINESS_ATTEMPTS
      modifies this, metrics, backend
      ensures metrics.Valid()
      ensures (Core(), entry) == Enter(old(Core()), spec, Outcome(run, port, health), now)
    {
      var needStart := spec.name !in runtimes;
      assert true in health <==> exists i :: 0 <= i < READINESS_ATTEMPTS && health[i];
      if needStart {
        var started := StartRuntime(spec, run, port, health);
        if started.None? { return NotStarted; }
        runtimes := runtimes[spec.name := started.value];
        metrics.RecordRuntimeCreated();
      }
      var r := runtimes[spec.name].(state := Busy, lastUsedAt := now);
      runtimes := runtimes[spec.name := r];
      assert runtimes == old(runtimes)[spec.name := r];
      entry := Attached(r.containerId, r.hostPort, needStart);
    }

    /** First critical section of `try_invoke`. */
    method EnterAttempt(spec: FunctionSpec, run: Option<ContainerId>, port: int, health: seq<bool>, now: int)
      returns (entry: Entry)
      requires Valid() && |health| == READINESS_ATTEMPTS
      requires spec.name !in runtimes ==> FreshFor(Core(), Outcome(run, port, health))
      modifies this, metrics, backend
      ensures Valid()
      ensures (Core(), entry) == Enter(old(Core()), spec, Outcome(run, port, health), now)
    {
      EnterKeepsSound(Core(), spec, Outcome(run, port, health), now);
      entry := Claim(spec, run, port, health, now);
    }

    /** Forget a runtime after handing its container to the backend. */
    method Retire(name: FunctionName, reason: Reason)
      requires metrics.Valid() && name in runtimes
      modifies this, metrics, backend
      ensures metrics.Valid() && Core() == Drop(old(Core()), name, reason)
    {
      backend.RemoveContainer(runtimes[name].containerId);
      runtimes := runtimes - {name};
      metrics.RecordRuntimeTerminated(reason);
    }

    /** Second critical section of `try_invoke`, for the call that captured `id`. */
    method CompleteAttempt(spec: FunctionSpec, id: ContainerId, response: Response, now: int)
      returns (status: Status, connectionFailed: bool)
      requires Valid()
      modifies this, metrics, backend
      ensures Valid() && Core() == Complete(old(Core()), spec.name, id, response, now)
      ensures status == Success <==> response.Answer? && 200 <= response.code < 300
      ensures status == Error <==> response.Answer? && !(200 <= response.code < 300)
      ensures status == TimedOut <==> response.NoAnswer?
      ensures status == InfraError <==> response.Unreachable?
      ensures connectionFailed <==> response.Unreachable?
    {
      CompleteKeepsSound(Core(), spec.name, id, response, now);
      connectionFailed := false;
      var stillTracked := spec.name in runtimes && runtimes[spec.name].containerId == id;
      match response
      case NoAnswer =>
        status := TimedOut;
        if stillTracked { Retire(spec.name, Timeout); }
      case Unreachable(_) =>
        connectionFailed := true;
        status := InfraError;
        if stillTracked { Retire(spec.name, Dead); }
      case Answer(code) =>
        status := if 200 <= code < 300 then Success else Error;
        if stillTracked {
          runtimes := runtimes[spec.name := runtimes[spec.name].(state := Idle, lastUsedAt := now)];
        }
    }

    method RecordResult(o: Observation<Status>)
      requires Valid()
      modifies metrics
      ensures Valid() && Core() == RecordInvocation(old(Core()), o)
    {
      RecordKeepsSound(Core(), o);
      metrics.RecordInvocation(o.status, o.coldStart, o.durationMs);
    }

    /** `try_invoke`, with no other thread at work between its lock regions. */
    method TryInvoke(spec: FunctionSpec, startedAt: int, a: Answers)
      returns (result: Observation<Status>, connectionFailed: bool)
      requires Valid() && |a.health| == READINESS_ATTEMPTS
      requires spec.name !in runtimes ==> FreshFor(Core(), ScriptOf(a).outcome)
      modifies this, metrics, backend
      ensures Valid()
      ensures (Core(), result, connectionFailed) == Invocation.Tried(old(Core()), spec, startedAt, ScriptOf(a))
    {
      StatusMeaning(a.response);
      var entry := EnterAttempt(spec, a.run, a.port, a.health, a.enteredAt);
      var durationMs := ElapsedMs(startedAt, a.measuredAt) as real;
      if entry.NotStarted? { return Observation(InfraError, false, durationMs), false; }
      var status;
      status, connectionFailed := CompleteAttempt(spec, entry.id, a.response, a.completedAt);
      result := Observation(status, entry.coldStart, durationMs);
    }

    /** `invoke`: a warm attempt that was unreachable is repeated once. */
    method Invoke(spec: FunctionSpec, startedAt: int, first: Answers, second: Answers) returns (result: Observation<Status>)
      requires Valid() && |first.health| == READINESS_ATTEMPTS && |second.health| == READINESS_ATTEMPTS
      requires Invocation.Fresh(Core(), spec, ScriptOf(first), ScriptOf(second))
      modifies this, metrics, backend
      ensures Valid() && metrics.log == old(metrics.log) + [result]
      ensures (Core(), result) == Invocation.Invoked(old(Core()), spec, startedAt, ScriptOf(first), ScriptOf(second))
      ensures var runs := Invocation.RunsContainer(old(Core()), spec, ScriptOf(first));
              var last := Invocation.Deciding(old(Core()), spec, ScriptOf(first), ScriptOf(second));
              var dead := Invocation.FoundDead(old(Core()), spec, ScriptOf(first));
              Invocation.Settled(old(Core()), spec, startedAt, dead, runs, last, Core(), result)
      ensures spec.name !in old(runtimes) ==>
                (result.coldStart <==> first.run.Some? && first.port > 0 && exists i :: 0 <= i < READINESS_ATTEMPTS && first.health[i])
      ensures spec.name in old(runtimes) && first.response.Unreachable? ==>
                (result.coldStart <==> second.run.Some? && second.port > 0 && exists i :: 0 <= i < READINESS_ATTEMPTS && second.health[i])
      ensures spec.name in old(runtimes) && !first.response.Unreachable? ==> !result.coldStart
    {
      Invocation.WarmOrCold(Core(), spec, startedAt, ScriptOf(first));
      HealthyIff(first);
      HealthyIff(second);
      Invocation.InvokeEffect(Core(), spec, startedAt, ScriptOf(first), ScriptOf(second));
      var connectionFailed;
      result, connectionFailed := TryInvoke(spec, startedAt, first);
      if connectionFailed && !result.coldStart {
        result, connectionFailed := TryInvoke(spec, startedAt, second);
      }
      RecordResult(result);
    }

    method TerminateFunction(name: FunctionName)
      requires Valid()
      modifies this, metrics, backend
      ensures Valid() && Core() == Terminate(old(Core()), name)
    {
      TerminateKeepsSound(Core(), name);
      if name in runtimes { Retire(name, Deleted); }
    }

    /** The reaper's loop: erase expired entries while walking the table. */
    method Sweep(order: seq<FunctionName>, now: int)
      requires metrics.Valid() && Enumerates(order, runtimes)
      modifies this, metrics, backend
      ensures metrics.Valid() && Core() == Reap(old(Core()), order, now)
    {
      ghost var before := Core();
      assert order[0..] == order;
      var i := 0;
      while i < |order|
        invariant 0 <= i <= |order| && metrics.Valid()
        invariant Reap(Core(), order[i..], now) == Reap(before, order, now)
        invariant forall j :: i <= j < |order| ==> order[j] in runtimes
      {
        ReapStep(Core(), order, i, now);
        var r := runtimes[order[i]];
        if r.state.Idle? && ElapsedMs(r.lastUsedAt, now) >= r.idleTimeoutMs {
          Retire(order[i], IdleTimeout);
        }
        i := i + 1;
      }
      assert order[i..] == [];
    }

    /** One wake-up of the reaper.  `order` is the table's own iteration order; any
        order will do. */
    method ReapIdleRuntimes(order: seq<FunctionName>, now: int)
      requires Valid() && Enumerates(order, runtimes)
      modifies this, metrics, backend
      ensures Valid() && Core() == Reap(old(Core()), order, now)
      ensures runtimes == Survivors(old(runtimes), now)
    {
      ReapLeavesSurvivors(Core(), order, now);
      ReapKeepsSound(Core(), order, now);
      Sweep(order, now);
    }

    /** The entry of one function as a client sees it. */
    ghost predicate Shows(status: RuntimeStatus, name: FunctionName, now: int)
      requires name in runtimes
      reads this
    {
      var r := runtimes[name];
      && status.state == r.state && status.containerId == r.containerId && status.hostPort == r.hostPort
      && status.idleMs == ElapsedMs(r.lastUsedAt, now)
    }

    method Status(name: FunctionName, now: int) returns (status: Option<RuntimeStatus>)
      ensures status.Some? <==> name in runtimes
      ensures status.Some? ==> Shows(status.value, name, now)
    {
      if name !in runtimes { return None; }
      var r := runtimes[name];
      status := Some(RuntimeStatus(r.state, r.containerId, r.hostPort, ElapsedMs(r.lastUsedAt, now)));
    }

    /** Every runtime exactly once, so the length of the list is the active-runtimes gauge. */
    method ListRuntimes(order: seq<FunctionName>, now: int) returns (entries: seq<ListEntry>)
      requires Enumerates(order, runtimes)
      ensures |entries| == |runtimes|
      ensures forall n :: n in runtimes <==> exists i :: 0 <= i < |entries| && entries[i].name == n
      ensures forall i :: 0 <= i < |entries| ==>
                entries[i].name in runtimes && Shows(entries[i].status, entries[i].name, now)
      ensures forall i, j :: 0 <= i < j < |entries| ==> entries[i].name != entries[j].name
    {
      entries := [];
      for i := 0 to |order|
        invariant |entries| == i
        invariant forall j :: 0 <= j < i ==> entries[j] == ListEntry(order[j], StatusAt(runtimes[order[j]], now))
      {
        entries := entries + [ListEntry(order[i], StatusAt(runtimes[order[i]], now))];
      }
      EnumerationLength(order, runtimes);
      forall n | n in runtimes
        ensures exists i :: 0 <= i < |entries| && entries[i].name == n
      {
        var i :| 0 <= i < |order| && order[i] == n;
        assert entries[i].name == n;
      }
    }
  }

  lemma HealthyIff(a: Answers)
    requires |a.health| == READINESS_ATTEMPTS
    ensures ScriptOf(a).outcome.Healthy? <==>
            a.run.Some? && a.port > 0 && exists i :: 0 <= i < READINESS_ATTEMPTS && a.health[i]
  {
    assert true in a.health <==> exists i :: 0 <= i < READINESS_ATTEMPTS && a.health[i];
  }

  lemma ReapStep(c: Core, order: seq<FunctionName>, i: nat, now: int)
    requires i < |order| && order[i] in c.runtimes
    ensures Reap(c, order[i..], now)
         == Reap(if Expired(c.runtimes[order[i]], now) then Drop(c, order[i], IdleTimeout) else c, order[i + 1..], now)
  {
    assert order[i..][0] == order[i] && order[i..][1..] == order[i + 1..];
  }

  lemma ReapLeavesSurvivors(c: Core, order: seq<FunctionName>, now: int)
    requires Enumerates(order, c.runtimes)
    ensures Reap(c, order, now).runtimes == Survivors(c.runtimes, now)
  {
    ReapIsFilter(c, order, now);
  }

  lemma {:induction false} EnumerationLength(order: seq<FunctionName>, runtimes: map<FunctionName, Runtime>)
    requires Enumerates(order, runtimes)
    ensures |order| == |runtimes|
    decreases |order|
  {
    if order == [] {
      assert runtimes.Keys == {};
    } else {
      var n := order[|order| - 1];
      var rest, smaller := order[..|order| - 1], runtimes - {n};
      assert forall m :: m in order <==> m in rest || m == n;
      assert n !in rest;
      assert smaller.Keys == runtimes.Keys - {n};
      assert |smaller| == |smaller.Keys| && |runtimes| == |runtimes.Keys|;
      EnumerationLength(rest, smaller);
    }
  }
}
