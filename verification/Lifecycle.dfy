/** The runtime manager's table and the effect of each of its critical
    sections on it (control-plane/src/runtime_manager.cpp).  Every function here
    is the specification of one lock region; the class in RuntimeManager.dfy is
    proved against them and Protocol.dfy interleaves them. */
module Lifecycle {
  import opened Options
  import opened Metrics

  type FunctionName = string
  type ContainerId = string

  datatype RuntimeState = Starting | Ready | Busy | Idle | Failed | Terminated

  /** Why a runtime was stopped: the `reason` label of the termination counter. */
  datatype Reason = IdleTimeout | Deleted | Timeout | Dead

  /** The `status` label of an invocation. */
  datatype Status = Success | Error | TimedOut | InfraError

  datatype FunctionSpec = FunctionSpec(name: FunctionName, image: string, timeoutMs: int, idleTimeoutMs: int)

  /** Time points are readings of the steady clock in nanoseconds. */
  datatype Runtime = Runtime(
    containerId: ContainerId, hostPort: int, state: RuntimeState, lastUsedAt: int, idleTimeoutMs: int)

  /** How a cold start went, as `start_runtime` sees it. */
  datatype StartOutcome =
    | RunFailed
    | NoPort(id: ContainerId)
    | NeverHealthy(id: ContainerId)
    | Healthy(id: ContainerId, port: int)

  /** What a cold start comes to: the id `run_container` returned, the port found for
      it, and whether a probe succeeded within the startup window. */
  function StartOf(run: Option<ContainerId>, port: int, ready: bool): StartOutcome {
    if run.None? then RunFailed
    else if port <= 0 then NoPort(run.value)
    else if ready then Healthy(run.value, port)
    else NeverHealthy(run.value)
  }

  /** The three classes of HTTP outcome that `try_invoke` distinguishes.  It does
      not look at `sent`, which says whether the request went out before the call
      failed, as when the reply is empty. */
  datatype Response = NoAnswer | Unreachable(sent: bool) | Answer(code: int)

  /** What the first critical section of an attempt hands to the call that follows. */
  datatype Entry = Attached(id: ContainerId, port: int, coldStart: bool) | NotStarted

  /** Everything the manager's lock protects, with a record of its dealings
      with the backend: `started` holds the ids `run_container` returned with ok,
      `removals` the ids handed to `remove_container`, in order. */
  datatype Core = Core(
    runtimes: map<FunctionName, Runtime>,
    started: set<ContainerId>,
    removals: seq<ContainerId>,
    created: nat,
    terminated: map<Reason, nat>,
    log: seq<Observation<Status>>)

  const EMPTY := Core(map[], {}, [], 0, map[], [])

  const NANOS_PER_MS := 1_000_000

  /** `duration_cast<milliseconds>`: truncation toward zero. */
  function ElapsedMs(start: int, now: int): int {
    if now >= start then (now - start) / NANOS_PER_MS else -((start - now) / NANOS_PER_MS)
  }

  function One(b: bool): nat { if b then 1 else 0 }

  function TotalTerminated(terminated: map<Reason, nat>): nat {
    Count(terminated, IdleTimeout) + Count(terminated, Deleted) + Count(terminated, Timeout) + Count(terminated, Dead)
  }

  function Tracked(runtimes: map<FunctionName, Runtime>): set<ContainerId> {
    set n | n in runtimes :: runtimes[n].containerId
  }

  predicate NoRepeats<T(==)>(s: seq<T>) {
    forall i, j :: 0 <= i < j < |s| ==> s[i] != s[j]
  }

  // ---------------------------------------------------------------- the lock regions

  /** Hand the container of `name` to the backend, forget it and count it. */
  function Drop(c: Core, name: FunctionName, reason: Reason): Core
    requires name in c.runtimes
  {
    c.(runtimes := c.runtimes - {name},
       removals := c.removals + [c.runtimes[name].containerId],
       terminated := c.terminated[reason := Count(c.terminated, reason) + 1])
  }

  /** Mark a tracked runtime and stamp it with the current time. */
  function Touch(c: Core, name: FunctionName, state: RuntimeState, now: int): Core
    requires name in c.runtimes
  {
    c.(runtimes := c.runtimes[name := c.runtimes[name].(state := state, lastUsedAt := now)])
  }

  /** A container that was started but is given back before it is tracked. */
  function Discard(c: Core, id: ContainerId): Core {
    c.(started := c.started + {id}, removals := c.removals + [id])
  }

  function Launch(c: Core, spec: FunctionSpec, id: ContainerId, port: int, now: int): Core {
    c.(started := c.started + {id},
       runtimes := c.runtimes[spec.name := Runtime(id, port, Busy, now, spec.idleTimeoutMs)],
       created := c.created + 1)
  }

  /** The ids a backend hands out are new. */
  predicate FreshFor(c: Core, outcome: StartOutcome) {
    !outcome.RunFailed? ==> outcome.id !in c.started
  }

  /** First critical section of `try_invoke`: reuse or cold-start, mark busy. */
  function Enter(c: Core, spec: FunctionSpec, outcome: StartOutcome, now: int): (Core, Entry) {
    if spec.name in c.runtimes then
      (Touch(c, spec.name, Busy, now), Attached(c.runtimes[spec.name].containerId, c.runtimes[spec.name].hostPort, false))
    else
      match outcome
      case RunFailed => (c, NotStarted)
      case NoPort(id) => (Discard(c, id), NotStarted)
      case NeverHealthy(id) => (Discard(c, id), NotStarted)
      case Healthy(id, port) => (Launch(c, spec, id, port, now), Attached(id, port, true))
  }

  predicate StillTracked(runtimes: map<FunctionName, Runtime>, name: FunctionName, id: ContainerId) {
    name in runtimes && runtimes[name].containerId == id
  }

  /** Second critical section of `try_invoke`, for the call that captured `id`. */
  function Complete(c: Core, name: FunctionName, id: ContainerId, response: Response, now: int): Core {
    if !StillTracked(c.runtimes, name, id) then c
    else
      match response
      case NoAnswer => Drop(c, name, Timeout)
      case Unreachable(_) => Drop(c, name, Dead)
      case Answer(_) => Touch(c, name, Idle, now)
  }

  function StatusOf(response: Response): Status {
    match response
    case NoAnswer => TimedOut
    case Unreachable(_) => InfraError
    case Answer(code) => if 200 <= code < 300 then Success else Error
  }

  /** Which outcome is reported for which response. */
  lemma StatusMeaning(response: Response)
    ensures StatusOf(response) == Success <==> response.Answer? && 200 <= response.code < 300
    ensures StatusOf(response) == Error <==> response.Answer? && !(200 <= response.code < 300)
    ensures StatusOf(response) == TimedOut <==> response.NoAnswer?
    ensures StatusOf(response) == InfraError <==> response.Unreachable?
  {
  }

  function Terminate(c: Core, name: FunctionName): Core {
    if name in c.runtimes then Drop(c, name, Deleted) else c
  }

  predicate Expired(r: Runtime, now: int) {
    r.state.Idle? && ElapsedMs(r.lastUsedAt, now) >= r.idleTimeoutMs
  }

  /** One reaper pass visiting the entries in the given order. */
  function Reap(c: Core, order: seq<FunctionName>, now: int): Core
    decreases |order|
  {
    if order == [] then c
    else if order[0] in c.runtimes && Expired(c.runtimes[order[0]], now) then
      Reap(Drop(c, order[0], IdleTimeout), order[1..], now)
    else
      Reap(c, order[1..], now)
  }

  /** An iteration order of the table: each of its keys exactly once. */
  ghost predicate Enumerates(order: seq<FunctionName>, runtimes: map<FunctionName, Runtime>) {
    NoRepeats(order) && forall n :: n in order <==> n in runtimes
  }

  function RecordInvocation(c: Core, o: Observation<Status>): Core {
    c.(log := c.log + [o])
  }

  // ---------------------------------------------------------------- what the table always satisfies

  ghost predicate Distinct(runtimes: map<FunctionName, Runtime>) {
    forall n, m :: n in runtimes && m in runtimes && n != m ==> runtimes[n].containerId != runtimes[m].containerId
  }

  /** Every started container is either tracked or was handed over for removal, once. */
  ghost predicate Conserved(c: Core) {
    && Distinct(c.runtimes)
    && NoRepeats(c.removals)
    && (forall n :: n in c.runtimes ==> c.runtimes[n].containerId in c.started)
    && (forall n :: n in c.runtimes ==> c.runtimes[n].containerId !in c.removals)
    && (forall id :: id in c.removals ==> id in c.started)
    && (forall id :: id in c.started && id !in c.removals ==> exists n :: StillTracked(c.runtimes, n, id))
  }

  ghost predicate Balanced(c: Core) {
    c.created == |c.runtimes| + TotalTerminated(c.terminated)
  }

  ghost predicate BusyOrIdle(c: Core) {
    forall n :: n in c.runtimes ==> c.runtimes[n].state.Busy? || c.runtimes[n].state.Idle?
  }

  ghost predicate Sound(c: Core) {
    Conserved(c) && Balanced(c) && BusyOrIdle(c)
  }

  /** Two sets that differ in at most one element. */
  lemma SizeMoves<T>(before: set<T>, after: set<T>, x: T)
    requires forall y :: y != x ==> (y in before <==> y in after)
    ensures |after| + (if x in before then 1 else 0) == |before| + (if x in after then 1 else 0)
  {
    assert before - {x} == after - {x};
    if x in before { assert before == before - {x} + {x}; } else { assert before == before - {x}; }
    if x in after { assert after == after - {x} + {x}; } else { assert after == after - {x}; }
  }

  lemma SnocNoRepeats<T>(s: seq<T>, x: T)
    requires NoRepeats(s) && x !in s
    ensures NoRepeats(s + [x]) && forall y :: y in s + [x] <==> y in s || y == x
  {
  }

  lemma DropKeepsConserved(c: Core, name: FunctionName, reason: Reason)
    requires Conserved(c) && name in c.runtimes
    ensures Conserved(Drop(c, name, reason))
  {
    var d := Drop(c, name, reason);
    SnocNoRepeats(c.removals, c.runtimes[name].containerId);
    assert forall n :: n in d.runtimes ==> n in c.runtimes && n != name && d.runtimes[n] == c.runtimes[n];
    forall id | id in d.started && id !in d.removals
      ensures exists n :: StillTracked(d.runtimes, n, id)
    {
      var n :| StillTracked(c.runtimes, n, id);
      assert StillTracked(d.runtimes, n, id);
    }
  }

  lemma DropKeepsBalanced(c: Core, name: FunctionName, reason: Reason)
    requires Balanced(c) && name in c.runtimes
    ensures Balanced(Drop(c, name, reason))
  {
    var d := Drop(c, name, reason);
    assert d.runtimes.Keys == c.runtimes.Keys - {name};
    assert |d.runtimes| == |d.runtimes.Keys| && |c.runtimes| == |c.runtimes.Keys|;
  }

  lemma DropKeepsSound(c: Core, name: FunctionName, reason: Reason)
    requires Sound(c) && name in c.runtimes
    ensures Sound(Drop(c, name, reason))
  {
    DropKeepsConserved(c, name, reason);
    DropKeepsBalanced(c, name, reason);
  }

  lemma TouchKeepsConserved(c: Core, name: FunctionName, state: RuntimeState, now: int)
    requires Conserved(c) && name in c.runtimes
    ensures Conserved(Touch(c, name, state, now))
  {
    var d := Touch(c, name, state, now);
    assert forall n :: n in d.runtimes <==> n in c.runtimes;
    assert forall n :: n in c.runtimes ==> d.runtimes[n].containerId == c.runtimes[n].containerId;
    forall id | id in d.started && id !in d.removals
      ensures exists n :: StillTracked(d.runtimes, n, id)
    {
      var n :| StillTracked(c.runtimes, n, id);
      assert StillTracked(d.runtimes, n, id);
    }
  }

  lemma TouchKeepsBalanced(c: Core, name: FunctionName, state: RuntimeState, now: int)
    requires Balanced(c) && name in c.runtimes
    ensures Balanced(Touch(c, name, state, now))
  {
    var d := Touch(c, name, state, now);
    assert d.runtimes.Keys == c.runtimes.Keys;
    assert |d.runtimes| == |d.runtimes.Keys| && |c.runtimes| == |c.runtimes.Keys|;
  }

  lemma TouchKeepsSound(c: Core, name: FunctionName, state: RuntimeState, now: int)
    requires Sound(c) && name in c.runtimes && (state.Busy? || state.Idle?)
    ensures Sound(Touch(c, name, state, now))
  {
    TouchKeepsConserved(c, name, state, now);
    TouchKeepsBalanced(c, name, state, now);
  }

  lemma LaunchKeepsConserved(c: Core, spec: FunctionSpec, id: ContainerId, port: int, now: int)
    requires Conserved(c) && spec.name !in c.runtimes && id !in c.started
    ensures Conserved(Launch(c, spec, id, port, now))
  {
    var d := Launch(c, spec, id, port, now);
    assert forall n :: n in c.runtimes ==> d.runtimes[n] == c.runtimes[n] && c.runtimes[n].containerId != id;
    assert StillTracked(d.runtimes, spec.name, id);
    forall x | x in d.started && x !in d.removals
      ensures exists n :: StillTracked(d.runtimes, n, x)
    {
      if x != id {
        var n :| StillTracked(c.runtimes, n, x);
        assert StillTracked(d.runtimes, n, x);
      }
    }
  }

  lemma LaunchKeepsBalanced(c: Core, spec: FunctionSpec, id: ContainerId, port: int, now: int)
    requires Balanced(c) && spec.name !in c.runtimes
    ensures Balanced(Launch(c, spec, id, port, now))
  {
    var d := Launch(c, spec, id, port, now);
    assert d.runtimes.Keys == c.runtimes.Keys + {spec.name};
    assert |d.runtimes| == |d.runtimes.Keys| && |c.runtimes| == |c.runtimes.Keys|;
  }

  lemma LaunchKeepsSound(c: Core, spec: FunctionSpec, id: ContainerId, port: int, now: int)
    requires Sound(c) && spec.name !in c.runtimes && id !in c.started
    ensures Sound(Launch(c, spec, id, port, now))
  {
    LaunchKeepsConserved(c, spec, id, port, now);
    LaunchKeepsBalanced(c, spec, id, port, now);
  }

  lemma DiscardKeepsSound(c: Core, id: ContainerId)
    requires Sound(c) && id !in c.started
    ensures Sound(Discard(c, id))
  {
    var d := Discard(c, id);
    SnocNoRepeats(c.removals, id);
    forall x | x in d.started && x !in d.removals
      ensures exists n :: StillTracked(d.runtimes, n, x)
    {
      var n :| StillTracked(c.runtimes, n, x);
      assert StillTracked(d.runtimes, n, x);
    }
  }

  lemma EnterKeepsSound(c: Core, spec: FunctionSpec, outcome: StartOutcome, now: int)
    requires Sound(c)
    requires spec.name !in c.runtimes ==> FreshFor(c, outcome)
    ensures Sound(Enter(c, spec, outcome, now).0)
  {
    if spec.name in c.runtimes {
      TouchKeepsSound(c, spec.name, Busy, now);
    } else if outcome.Healthy? {
      LaunchKeepsSound(c, spec, outcome.id, outcome.port, now);
    } else if !outcome.RunFailed? {
      DiscardKeepsSound(c, outcome.id);
    }
  }

  lemma CompleteKeepsSound(c: Core, name: FunctionName, id: ContainerId, response: Response, now: int)
    requires Sound(c)
    ensures Sound(Complete(c, name, id, response, now))
  {
    if StillTracked(c.runtimes, name, id) {
      match response
      case NoAnswer => DropKeepsSound(c, name, Timeout);
      case Unreachable(_) => DropKeepsSound(c, name, Dead);
      case Answer(_) => TouchKeepsSound(c, name, Idle, now);
    }
  }

  lemma TerminateKeepsSound(c: Core, name: FunctionName)
    requires Sound(c)
    ensures Sound(Terminate(c, name))
  {
    if name in c.runtimes { DropKeepsSound(c, name, Deleted); }
  }

  lemma RecordKeepsSound(c: Core, o: Observation<Status>)
    requires Sound(c)
    ensures Sound(RecordInvocation(c, o))
  {
    var d := RecordInvocation(c, o);
    assert forall n, id :: StillTracked(c.runtimes, n, id) ==> StillTracked(d.runtimes, n, id);
  }

  lemma {:induction false} ReapKeepsSound(c: Core, order: seq<FunctionName>, now: int)
    requires Sound(c)
    ensures Sound(Reap(c, order, now))
    decreases |order|
  {
    if order != [] {
      if order[0] in c.runtimes && Expired(c.runtimes[order[0]], now) {
        DropKeepsSound(c, order[0], IdleTimeout);
        ReapKeepsSound(Drop(c, order[0], IdleTimeout), order[1..], now);
      } else {
        ReapKeepsSound(c, order[1..], now);
      }
    }
  }

  // ---------------------------------------------------------------- the reaper pass is a filter

  function Survivors(runtimes: map<FunctionName, Runtime>, now: int): map<FunctionName, Runtime> {
    map n | n in runtimes && !Expired(runtimes[n], now) :: runtimes[n]
  }

  /** Container ids of the expired entries, in the order they are visited. */
  function ExpiredIds(runtimes: map<FunctionName, Runtime>, order: seq<FunctionName>, now: int): seq<ContainerId> {
    if order == [] then []
    else if order[0] in runtimes && Expired(runtimes[order[0]], now) then
      [runtimes[order[0]].containerId] + ExpiredIds(runtimes, order[1..], now)
    else
      ExpiredIds(runtimes, order[1..], now)
  }

  lemma {:induction false} ExpiredIdsLocal(
    runtimes: map<FunctionName, Runtime>, order: seq<FunctionName>, now: int, name: FunctionName)
    requires name !in order
    ensures ExpiredIds(runtimes - {name}, order, now) == ExpiredIds(runtimes, order, now)
  {
    if order != [] {
      assert order[0] in order && forall n :: n in order[1..] ==> n in order;
      ExpiredIdsLocal(runtimes, order[1..], now, name);
    }
  }

  lemma {:induction false} ExpiredIdsMembers(
    runtimes: map<FunctionName, Runtime>, order: seq<FunctionName>, now: int)
    ensures forall id :: id in ExpiredIds(runtimes, order, now) <==>
                         exists n :: n in order && n in runtimes && Expired(runtimes[n], now) && runtimes[n].containerId == id
  {
    if order != [] {
      ExpiredIdsMembers(runtimes, order[1..], now);
      assert forall n :: n in order <==> n == order[0] || n in order[1..];
    }
  }

  lemma {:induction false} ReapTable(c: Core, order: seq<FunctionName>, now: int)
    requires NoRepeats(order)
    ensures Reap(c, order, now).runtimes
         == map n | n in c.runtimes && !(n in order && Expired(c.runtimes[n], now)) :: c.runtimes[n]
    decreases |order|
  {
    if order != [] {
      var rest := order[1..];
      assert forall n :: n in order <==> n == order[0] || n in rest;
      assert order[0] !in rest;
      if order[0] in c.runtimes && Expired(c.runtimes[order[0]], now) {
        ReapTable(Drop(c, order[0], IdleTimeout), rest, now);
      } else {
        ReapTable(c, rest, now);
      }
    }
  }

  /** The general form, for a pass over any repetition-free list of names. */
  lemma {:induction false} ReapEffect(c: Core, order: seq<FunctionName>, now: int)
    requires NoRepeats(order)
    ensures var d := Reap(c, order, now);
            && d.runtimes == (map n | n in c.runtimes && !(n in order && Expired(c.runtimes[n], now)) :: c.runtimes[n])
            && d.removals == c.removals + ExpiredIds(c.runtimes, order, now)
            && d.started == c.started && d.created == c.created && d.log == c.log
            && Count(d.terminated, IdleTimeout) == Count(c.terminated, IdleTimeout) + |ExpiredIds(c.runtimes, order, now)|
            && (forall r :: r != IdleTimeout ==> Count(d.terminated, r) == Count(c.terminated, r))
    decreases |order|
  {
    ReapTable(c, order, now);
    if order != [] {
      var rest := order[1..];
      if order[0] in c.runtimes && Expired(c.runtimes[order[0]], now) {
        ReapEffect(Drop(c, order[0], IdleTimeout), rest, now);
        ExpiredIdsLocal(c.runtimes, rest, now, order[0]);
      } else {
        ReapEffect(c, rest, now);
      }
    }
  }

  /** A reaper pass, whatever the iteration order of the table, keeps exactly
      the entries that are not expired, unchanged, and hands over exactly the
      expired containers, each counted once. */
  lemma ReapIsFilter(c: Core, order: seq<FunctionName>, now: int)
    requires Enumerates(order, c.runtimes)
    ensures var d := Reap(c, order, now);
            && d.runtimes == Survivors(c.runtimes, now)
            && (exists handed ::
                  && d.removals == c.removals + handed
                  && (forall id :: id in handed <==>
                                   exists n :: n in c.runtimes && Expired(c.runtimes[n], now) && c.runtimes[n].containerId == id)
                  && Count(d.terminated, IdleTimeout) == Count(c.terminated, IdleTimeout) + |handed|
                  && |handed| == |c.runtimes| - |d.runtimes|)
            && (forall r :: r != IdleTimeout ==> Count(d.terminated, r) == Count(c.terminated, r))
            && d.started == c.started && d.created == c.created && d.log == c.log
  {
    ReapEffect(c, order, now);
    ExpiredIdsMembers(c.runtimes, order, now);
    ReapCounts(c, order, now);
    var handed := ExpiredIds(c.runtimes, order, now);
    assert Reap(c, order, now).removals == c.removals + handed;
  }

  lemma {:induction false} ReapCounts(c: Core, order: seq<FunctionName>, now: int)
    ensures |c.removals| + |c.runtimes| == |Reap(c, order, now).removals| + |Reap(c, order, now).runtimes|
    decreases |order|
  {
    if order != [] {
      if order[0] in c.runtimes && Expired(c.runtimes[order[0]], now) {
        var d := Drop(c, order[0], IdleTimeout);
        assert d.runtimes.Keys == c.runtimes.Keys - {order[0]};
        assert |d.runtimes| == |d.runtimes.Keys| && |c.runtimes| == |c.runtimes.Keys|;
        ReapCounts(d, order[1..], now);
      } else {
        ReapCounts(c, order[1..], now);
      }
    }
  }
}
