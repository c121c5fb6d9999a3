/** The manager under concurrency.  Any number of `invoke` calls, the reaper
    thread and delete requests interleave; the atomic steps are the lock regions
    and the unlocked clock readings of control-plane/src/runtime_manager.cpp. */
module Protocol {
  import opened Options
  import opened Metrics
  import opened Lifecycle

  type CallId = nat

  /** What one `try_invoke` did: whether it called `run_container`, the container
      it sent the request to, if it got that far, and when it released the lock. */
  datatype Attempt = Attempt(ran: bool, target: Option<ContainerId>, at: int)

  datatype Phase =
    | Entering                                            // waiting for the lock at the top of try_invoke
    | Calling(id: ContainerId, port: int, cold: bool, enteredAt: int)  // unlocked HTTP call
    | Answered(id: ContainerId, cold: bool, enteredAt: int, response: Response, durationMs: int)
    | StartFailed                                         // lock released, duration not yet measured
    | Finished(result: Observation<Status>)                       // result in hand, not yet recorded
    | Recorded(result: Observation<Status>)

  /** `responses` are the outcomes of the attempts that reached a container, so far. */
  datatype Call = Call(
    spec: FunctionSpec, startedAt: int, attempts: seq<Attempt>, responses: seq<Response>, phase: Phase)

  datatype State = State(core: Core, calls: map<CallId, Call>, clock: int)

  datatype Event =
    | Begin(k: CallId, spec: FunctionSpec)
    | Enter(k: CallId, outcome: StartOutcome)   // outcome matters only when a cold start is needed
    | Respond(k: CallId, response: Response)
    | Complete(k: CallId)
    | Measure(k: CallId)
    | Record(k: CallId)
    | ReapPass(order: seq<FunctionName>)
    | Delete(name: FunctionName)

  /** An event and the clock reading at which it happens. */
  datatype Step = Step(event: Event, now: int)

  predicate InFlight(p: Phase) { p.Calling? || p.Answered? }

  /** The step can be taken, whatever the backend answers. */
  ghost predicate Ready(s: State, step: Step) {
    && s.clock <= step.now
    && match step.event
       case Begin(k, _) => k !in s.calls
       case Enter(k, _) => k in s.calls && s.calls[k].phase.Entering?
       case Respond(k, _) => k in s.calls && s.calls[k].phase.Calling?
       case Complete(k) => k in s.calls && s.calls[k].phase.Answered?
       case Measure(k) => k in s.calls && s.calls[k].phase.StartFailed?
       case Record(k) => k in s.calls && s.calls[k].phase.Finished?
       case ReapPass(order) => Enumerates(order, s.core.runtimes)
       case Delete(_) => true
  }

  /** The step has the manager call `run_container`. */
  predicate ColdEntry(s: State, step: Step) {
    step.event.Enter? && step.event.k in s.calls && s.calls[step.event.k].spec.name !in s.core.runtimes
  }

  /** The step can be taken, and the backend keeps to its contract. */
  ghost predicate Enabled(s: State, step: Step) {
    Ready(s, step) && (ColdEntry(s, step) ==> FreshFor(s.core, step.event.outcome))
  }

  function AfterEnter(call: Call, entry: Entry, now: int): Call {
    match entry
    case NotStarted => call.(attempts := call.attempts + [Attempt(true, None, now)], phase := StartFailed)
    case Attached(id, port, cold) =>
      call.(attempts := call.attempts + [Attempt(cold, Some(id), now)], phase := Calling(id, port, cold, now))
  }

  /** `invoke`'s decision: a warm first attempt that was unreachable is retried once. */
  function AfterComplete(call: Call): Call
    requires call.phase.Answered?
  {
    var p := call.phase;
    var heard := call.(responses := call.responses + [p.response]);
    if p.response.Unreachable? && !p.cold && |call.attempts| == 1 then heard.(phase := Entering)
    else heard.(phase := Finished(Observation(StatusOf(p.response), p.cold, p.durationMs as real)))
  }

  /** The call that takes the step, if one does. */
  function Actor(e: Event): Option<CallId> {
    match e
    case ReapPass(_) => None
    case Delete(_) => None
    case _ => Some(e.k)
  }

  /** What the step does to everything the lock protects. */
  ghost function NextCore(s: State, step: Step): Core
    requires Ready(s, step)
  {
    match step.event
    case Enter(k, outcome) => Lifecycle.Enter(s.core, s.calls[k].spec, outcome, step.now).0
    case Complete(k) =>
      var call := s.calls[k];
      Lifecycle.Complete(s.core, call.spec.name, call.phase.id, call.phase.response, step.now)
    case Record(k) => RecordInvocation(s.core, s.calls[k].phase.result)
    case ReapPass(order) => Reap(s.core, order, step.now)
    case Delete(name) => Terminate(s.core, name)
    case _ => s.core
  }

  /** What the step does to the call that takes it. */
  ghost function NextCall(s: State, step: Step): Call
    requires Ready(s, step) && Actor(step.event).Some?
  {
    var now := step.now;
    match step.event
    case Begin(_, spec) => Call(spec, now, [], [], Entering)
    case Enter(k, outcome) => AfterEnter(s.calls[k], Lifecycle.Enter(s.core, s.calls[k].spec, outcome, now).1, now)
    case Respond(k, response) =>
      var call := s.calls[k];
      var p := call.phase;
      call.(phase := Answered(p.id, p.cold, p.enteredAt, response, ElapsedMs(call.startedAt, now)))
    case Complete(k) => AfterComplete(s.calls[k])
    case Measure(k) =>
      var call := s.calls[k];
      call.(phase := Finished(Observation(InfraError, false, ElapsedMs(call.startedAt, now) as real)))
    case Record(k) => s.calls[k].(phase := Recorded(s.calls[k].phase.result))
  }

  ghost function Next(s: State, step: Step): State
    requires Ready(s, step)
  {
    State(NextCore(s, step),
          if Actor(step.event).Some? then s.calls[step.event.k := NextCall(s, step)] else s.calls,
          step.now)
  }

  ghost function Init(clock: int): State { State(EMPTY, map[], clock) }

  ghost predicate IsRun(s: State, steps: seq<Step>)
    decreases |steps|
  {
    steps != [] ==> Enabled(s, steps[0]) && IsRun(Next(s, steps[0]), steps[1..])
  }

  ghost function After(s: State, steps: seq<Step>): State
    requires IsRun(s, steps)
    decreases |steps|
  {
    if steps == [] then s else After(Next(s, steps[0]), steps[1..])
  }

  // ---------------------------------------------------------------- invariants

  ghost predicate OnContainer(s: State, k: CallId, id: ContainerId) {
    k in s.calls && InFlight(s.calls[k].phase) && s.calls[k].phase.id == id
  }

  ghost predicate StampedBy(core: Core, now: int) {
    forall n :: n in core.runtimes ==> core.runtimes[n].lastUsedAt <= now
  }

  /** A container is tracked only under the name of the function it serves, its
      stamp is no older than the entry of any call in flight on it, and the call
      goes to the port of that container. */
  ghost predicate CallTimely(core: Core, call: Call) {
    InFlight(call.phase) ==>
      && call.phase.id in core.started
      && forall n :: n in core.runtimes && core.runtimes[n].containerId == call.phase.id ==>
                       && n == call.spec.name
                       && call.phase.enteredAt <= core.runtimes[n].lastUsedAt
                       && (call.phase.Calling? ==> call.phase.port == core.runtimes[n].hostPort)
  }

  ghost predicate Timely(s: State) {
    StampedBy(s.core, s.clock) && forall k :: k in s.calls ==> CallTimely(s.core, s.calls[k])
  }

  ghost predicate BusyIsServing(s: State) {
    forall n :: n in s.core.runtimes && s.core.runtimes[n].state.Busy? ==>
                  exists k :: OnContainer(s, k, s.core.runtimes[n].containerId)
  }

  /** The first attempt of a retried call reused a container that could not be
      reached and has left the table for good. */
  ghost predicate WasRetried(core: Core, call: Call) {
    && |call.attempts| >= 1 && !call.attempts[0].ran && call.attempts[0].target.Some?
    && call.attempts[0].target.value in core.removals
    && |call.responses| >= 1 && call.responses[0].Unreachable?
  }

  predicate StartedItsContainer(a: Attempt) { a.ran && a.target.Some? }

  /** What a result says about the last attempt: the status of its response, or a
      start that failed.  A container that timed out or was unreachable has left
      the table, and a warm one that was unreachable was not the end of it. */
  ghost predicate ResultOk(core: Core, call: Call, result: Observation<Status>)
    requires call.attempts != []
  {
    var last := call.attempts[|call.attempts| - 1];
    && (result.coldStart <==> StartedItsContainer(last))
    && (last.target.None? ==> result.status.InfraError? && |call.responses| == |call.attempts| - 1)
    && (last.target.Some? ==>
          && |call.responses| == |call.attempts|
          && result.status == StatusOf(call.responses[|call.responses| - 1])
          && (!call.responses[|call.responses| - 1].Answer? ==> last.target.value in core.removals))
    && (|call.attempts| == 1 && !last.ran && last.target.Some? ==> !call.responses[0].Unreachable?)
  }

  ghost predicate CallOk(core: Core, call: Call) {
    if call.phase.Entering? then
      || (call.attempts == [] && call.responses == [])
      || (|call.attempts| == 1 && |call.responses| == 1 && WasRetried(core, call))
    else
      && 1 <= |call.attempts| <= 2
      && (|call.attempts| == 2 ==> WasRetried(core, call) && call.attempts[1].target != call.attempts[0].target)
      && var last := call.attempts[|call.attempts| - 1];
         && (InFlight(call.phase) ==>
               && last == Attempt(call.phase.cold, Some(call.phase.id), call.phase.enteredAt)
               && |call.responses| == |call.attempts| - 1)
         && (call.phase.StartFailed? ==> last.ran && last.target.None? && |call.responses| == |call.attempts| - 1)
         && (call.phase.Finished? || call.phase.Recorded? ==> ResultOk(core, call, call.phase.result))
  }

  ghost predicate CallsOk(s: State) {
    forall k :: k in s.calls ==> CallOk(s.core, s.calls[k])
  }

  /** The call holds a cold start that the metrics have not seen yet. */
  predicate HoldsCold(p: Phase) {
    match p
    case Calling(_, _, cold, _) => cold
    case Answered(_, cold, _, _, _) => cold
    case Finished(result) => result.coldStart
    case _ => false
  }

  function ColdPending(calls: map<CallId, Call>): set<CallId> {
    set k | k in calls && HoldsCold(calls[k].phase)
  }

  ghost predicate ColdStartsAccounted(s: State) {
    s.core.created == Seen(s.core.log, true) + |ColdPending(s.calls)|
  }

  /** The duration, measured from the start of the invocation, covers every attempt. */
  ghost predicate Covers(call: Call, durationMs: real) {
    forall i :: 0 <= i < |call.attempts| ==> ElapsedMs(call.startedAt, call.attempts[i].at) as real <= durationMs
  }

  ghost predicate AttemptsBy(call: Call, clock: int) {
    && call.startedAt <= clock
    && forall i :: 0 <= i < |call.attempts| ==> call.startedAt <= call.attempts[i].at <= clock
  }

  ghost predicate CallClocked(call: Call, clock: int) {
    && AttemptsBy(call, clock)
    && (call.phase.Answered? ==> Covers(call, call.phase.durationMs as real))
    && (call.phase.Finished? || call.phase.Recorded? ==> Covers(call, call.phase.result.durationMs))
  }

  ghost predicate Clocked(s: State) {
    forall k :: k in s.calls ==> CallClocked(s.calls[k], s.clock)
  }

  ghost predicate StartedBy(attempts: seq<Attempt>, id: ContainerId) {
    exists i :: 0 <= i < |attempts| && attempts[i].ran && attempts[i].target == Some(id)
  }

  /** The call started this runtime, for its own function and with that function's idle timeout. */
  ghost predicate Created(call: Call, n: FunctionName, r: Runtime) {
    call.spec.name == n && call.spec.idleTimeoutMs == r.idleTimeoutMs && StartedBy(call.attempts, r.containerId)
  }

  ghost predicate Provenance(s: State) {
    forall n :: n in s.core.runtimes ==> exists k :: k in s.calls && Created(s.calls[k], n, s.core.runtimes[n])
  }

  ghost predicate Inv(s: State) {
    && Sound(s.core)
    && Timely(s)
    && BusyIsServing(s)
    && CallsOk(s)
    && ColdStartsAccounted(s)
  }

  lemma StepKeepsSound(s: State, step: Step)
    requires Sound(s.core) && Enabled(s, step)
    ensures Sound(Next(s, step).core)
  {
    match step.event
    case Enter(k, outcome) =>
      EnterKeepsSound(s.core, s.calls[k].spec, outcome, step.now);
      assert Next(s, step).core == Lifecycle.Enter(s.core, s.calls[k].spec, outcome, step.now).0;
    case Complete(k) =>
      CompleteKeepsSound(s.core, s.calls[k].spec.name, s.calls[k].phase.id, s.calls[k].phase.response, step.now);
    case ReapPass(order) => ReapKeepsSound(s.core, order, step.now);
    case Delete(name) => TerminateKeepsSound(s.core, name);
    case Record(k) => RecordKeepsSound(s.core, s.calls[k].phase.result);
    case _ => assert Next(s, step).core == s.core;
  }

  /** How any lock region may change the table: entries keep their container and
      get no older stamp, or hold a container that did not exist before. */
  ghost predicate Evolves(c: Core, d: Core, now: int) {
    && c.started <= d.started
    && (forall id :: id in c.removals ==> id in d.removals)
    && StampedBy(d, now)
    && forall n :: n in d.runtimes ==>
                     || d.runtimes[n].containerId !in c.started
                     || (&& n in c.runtimes
                         && d.runtimes[n].containerId == c.runtimes[n].containerId
                         && d.runtimes[n].hostPort == c.runtimes[n].hostPort
                         && d.runtimes[n].idleTimeoutMs == c.runtimes[n].idleTimeoutMs
                         && c.runtimes[n].lastUsedAt <= d.runtimes[n].lastUsedAt)
  }

  lemma StepEvolves(s: State, step: Step)
    requires Enabled(s, step) && StampedBy(s.core, s.clock)
    ensures Evolves(s.core, Next(s, step).core, step.now)
  {
    match step.event
    case Enter(k, outcome) => EnterEvolves(s.core, s.calls[k].spec, outcome, step.now);
    case Complete(k) =>
      CompleteEvolves(s.core, s.calls[k].spec.name, s.calls[k].phase.id, s.calls[k].phase.response, step.now);
    case ReapPass(order) => ReapEvolves(s.core, order, step.now);
    case _ =>
  }

  lemma EnterEvolves(c: Core, spec: FunctionSpec, outcome: StartOutcome, now: int)
    requires StampedBy(c, now) && (spec.name !in c.runtimes ==> FreshFor(c, outcome))
    ensures Evolves(c, Lifecycle.Enter(c, spec, outcome, now).0, now)
  {
  }

  lemma CompleteEvolves(c: Core, name: FunctionName, id: ContainerId, response: Response, now: int)
    requires StampedBy(c, now)
    ensures Evolves(c, Lifecycle.Complete(c, name, id, response, now), now)
  {
  }

  lemma ReapEvolves(c: Core, order: seq<FunctionName>, now: int)
    requires StampedBy(c, now) && NoRepeats(order)
    ensures Evolves(c, Reap(c, order, now), now)
  {
    ReapEffect(c, order, now);
  }

  lemma EvolvesKeepsTimely(c: Core, d: Core, now: int, call: Call)
    requires Evolves(c, d, now) && CallTimely(c, call)
    ensures CallTimely(d, call)
  {
  }

  lemma ActorTimely(s: State, step: Step)
    requires Sound(s.core) && Timely(s) && Enabled(s, step) && Actor(step.event).Some?
    ensures CallTimely(Next(s, step).core, Next(s, step).calls[step.event.k])
  {
    if step.event.Enter? {
      EnterTimely(s.core, s.calls[step.event.k], step.event.outcome, step.now);
    } else if step.event.k in s.calls {
      assert CallTimely(s.core, s.calls[step.event.k]);
    }
  }

  lemma EnterTimely(c: Core, call: Call, outcome: StartOutcome, now: int)
    requires Conserved(c) && (call.spec.name !in c.runtimes ==> FreshFor(c, outcome))
    ensures var (d, entry) := Lifecycle.Enter(c, call.spec, outcome, now);
            CallTimely(d, AfterEnter(call, entry, now))
  {
  }

  lemma StepKeepsTimely(s: State, step: Step)
    requires Sound(s.core) && Timely(s) && Enabled(s, step)
    ensures Timely(Next(s, step))
  {
    var t := Next(s, step);
    StepEvolves(s, step);
    forall k | k in t.calls
      ensures CallTimely(t.core, t.calls[k])
    {
      if Actor(step.event) == Some(k) {
        ActorTimely(s, step);
      } else {
        assert t.calls[k] == s.calls[k];
        EvolvesKeepsTimely(s.core, t.core, step.now, s.calls[k]);
      }
    }
  }

  lemma BusyEntries(s: State, step: Step, n: FunctionName)
    requires Enabled(s, step) && n in Next(s, step).core.runtimes && Next(s, step).core.runtimes[n].state.Busy?
    ensures
      || (step.event.Enter? && OnContainer(Next(s, step), step.event.k, Next(s, step).core.runtimes[n].containerId))
      || (n in s.core.runtimes && Next(s, step).core.runtimes[n] == s.core.runtimes[n])
  {
    if step.event.ReapPass? { ReapEffect(s.core, step.event.order, step.now); }
  }

  lemma StepKeepsBusyIsServing(s: State, step: Step)
    requires Timely(s) && BusyIsServing(s) && Enabled(s, step)
    ensures BusyIsServing(Next(s, step))
  {
    var t := Next(s, step);
    forall n | n in t.core.runtimes && t.core.runtimes[n].state.Busy?
      ensures exists k :: OnContainer(t, k, t.core.runtimes[n].containerId)
    {
      BusyEntries(s, step, n);
      var id := t.core.runtimes[n].containerId;
      if !(step.event.Enter? && OnContainer(t, step.event.k, id)) {
        var k :| OnContainer(s, k, id);
        assert CallTimely(s.core, s.calls[k]);
        assert OnContainer(t, k, id);
      }
    }
  }

  /** A call that timed out or was unreachable leaves its container outside the table. */
  lemma FailureLeavesTable(c: Core, call: Call, response: Response, now: int)
    requires Sound(c) && CallTimely(c, call) && InFlight(call.phase) && !response.Answer?
    ensures call.phase.id in Lifecycle.Complete(c, call.spec.name, call.phase.id, response, now).removals
  {
    if !StillTracked(c.runtimes, call.spec.name, call.phase.id) {
      assert forall n :: !StillTracked(c.runtimes, n, call.phase.id);
    }
  }

  lemma EnterCallOk(c: Core, call: Call, outcome: StartOutcome, now: int)
    requires Sound(c) && CallOk(c, call) && call.phase.Entering?
    requires call.spec.name !in c.runtimes ==> FreshFor(c, outcome)
    ensures var (d, entry) := Lifecycle.Enter(c, call.spec, outcome, now);
            CallOk(d, AfterEnter(call, entry, now))
  {
    if call.spec.name in c.runtimes {
      assert c.runtimes[call.spec.name].containerId !in c.removals;
    } else if !outcome.RunFailed? {
      assert outcome.id !in c.removals;
    }
  }

  lemma AfterCompleteOk(core: Core, call: Call)
    requires CallOk(core, call) && call.phase.Answered?
    requires !call.phase.response.Answer? ==> call.phase.id in core.removals
    ensures CallOk(core, AfterComplete(call))
  {
  }

  lemma CompleteCallOk(c: Core, call: Call, now: int)
    requires Sound(c) && CallTimely(c, call) && CallOk(c, call) && call.phase.Answered?
    ensures var d := Lifecycle.Complete(c, call.spec.name, call.phase.id, call.phase.response, now);
            CallOk(d, AfterComplete(call))
  {
    if !call.phase.response.Answer? { FailureLeavesTable(c, call, call.phase.response, now); }
    AfterCompleteOk(Lifecycle.Complete(c, call.spec.name, call.phase.id, call.phase.response, now), call);
  }

  lemma ActorCallOk(s: State, step: Step)
    requires Sound(s.core) && Enabled(s, step) && Actor(step.event).Some?
    requires step.event.k in s.calls ==> CallTimely(s.core, s.calls[step.event.k]) && CallOk(s.core, s.calls[step.event.k])
    ensures CallOk(Next(s, step).core, Next(s, step).calls[step.event.k])
  {
    match step.event
    case Enter(k, outcome) => EnterCallOk(s.core, s.calls[k], outcome, step.now);
    case Complete(k) => CompleteCallOk(s.core, s.calls[k], step.now);
    case _ => UnlockedCallOk(s, step);
  }

  /** The steps of a call that leave the table alone. */
  lemma UnlockedCallOk(s: State, step: Step)
    requires Ready(s, step) && Actor(step.event).Some? && !step.event.Enter? && !step.event.Complete?
    requires step.event.k in s.calls ==> CallOk(s.core, s.calls[step.event.k])
    ensures CallOk(NextCore(s, step), NextCall(s, step))
  {
    assert NextCore(s, step).removals == s.core.removals;
  }

  lemma StepKeepsCallsOk(s: State, step: Step)
    requires Sound(s.core) && Timely(s) && CallsOk(s) && Enabled(s, step)
    ensures CallsOk(Next(s, step))
  {
    var t := Next(s, step);
    StepEvolves(s, step);
    forall k | k in t.calls
      ensures CallOk(t.core, t.calls[k])
    {
      if Actor(step.event) == Some(k) {
        ActorCallOk(s, step);
      } else {
        assert t.calls[k] == s.calls[k] && CallOk(s.core, s.calls[k]);
      }
    }
  }

  lemma ColdPendingUpdate(calls: map<CallId, Call>, k: CallId, call: Call)
    ensures |ColdPending(calls[k := call])|
         == |ColdPending(calls)| - One(k in calls && HoldsCold(calls[k].phase)) + One(HoldsCold(call.phase))
  {
    SizeMoves(ColdPending(calls), ColdPending(calls[k := call]), k);
  }

  /** What the acting call gains in cold starts, the counters gain with it. */
  lemma ActorColdBalance(s: State, step: Step)
    requires Enabled(s, step) && Actor(step.event).Some?
    ensures var t := Next(s, step);
            var k := step.event.k;
            && t.calls == s.calls[k := t.calls[k]]
            && t.core.created + Seen(s.core.log, true) + One(k in s.calls && HoldsCold(s.calls[k].phase))
            == s.core.created + Seen(t.core.log, true) + One(HoldsCold(t.calls[k].phase))
  {
    if step.event.Record? {
      var t := Next(s, step);
      assert t.core.log[..|t.core.log| - 1] == s.core.log;
    }
  }

  lemma StepKeepsColdStarts(s: State, step: Step)
    requires ColdStartsAccounted(s) && Enabled(s, step)
    ensures ColdStartsAccounted(Next(s, step))
  {
    if Actor(step.event).Some? {
      ActorColdBalance(s, step);
      ColdPendingUpdate(s.calls, step.event.k, Next(s, step).calls[step.event.k]);
    } else if step.event.ReapPass? {
      ReapEffect(s.core, step.event.order, step.now);
    }
  }

  lemma StepKeepsInv(s: State, step: Step)
    requires Inv(s) && Enabled(s, step)
    ensures Inv(Next(s, step))
  {
    StepKeepsSound(s, step);
    StepKeepsTimely(s, step);
    StepKeepsBusyIsServing(s, step);
    StepKeepsCallsOk(s, step);
    StepKeepsColdStarts(s, step);
  }

  lemma {:induction false} RunKeepsInv(s: State, steps: seq<Step>)
    requires Inv(s) && IsRun(s, steps)
    ensures Inv(After(s, steps))
    decreases |steps|
  {
    if steps != [] {
      StepKeepsInv(s, steps[0]);
      RunKeepsInv(Next(s, steps[0]), steps[1..]);
    }
  }

  lemma InvHolds(clock: int, steps: seq<Step>)
    requires IsRun(Init(clock), steps)
    ensures Inv(After(Init(clock), steps))
  {
    assert ColdPending(Init(clock).calls) == {};
    assert |EMPTY.runtimes| == 0;
    RunKeepsInv(Init(clock), steps);
  }

  // ---------------------------------------------------------------- durations

  lemma ElapsedCovers(call: Call, now: int)
    requires AttemptsBy(call, now)
    ensures Covers(call, ElapsedMs(call.startedAt, now) as real)
  {
    forall i | 0 <= i < |call.attempts|
      ensures ElapsedMs(call.startedAt, call.attempts[i].at) as real <= ElapsedMs(call.startedAt, now) as real
    {
      ElapsedMonotone(call.startedAt, call.attempts[i].at, now);
    }
  }

  lemma ElapsedMonotone(start: int, at: int, now: int)
    requires start <= at <= now
    ensures 0 <= ElapsedMs(start, at) <= ElapsedMs(start, now)
  {
  }

  lemma ActorClocked(s: State, step: Step)
    requires Enabled(s, step) && Actor(step.event).Some?
    requires step.event.k in s.calls ==> CallClocked(s.calls[step.event.k], s.clock)
    ensures CallClocked(Next(s, step).calls[step.event.k], step.now)
  {
    if step.event.Respond? || step.event.Measure? { ElapsedCovers(s.calls[step.event.k], step.now); }
  }

  lemma StepKeepsClocked(s: State, step: Step)
    requires Clocked(s) && Enabled(s, step)
    ensures Clocked(Next(s, step))
  {
    var t := Next(s, step);
    forall k | k in t.calls
      ensures CallClocked(t.calls[k], t.clock)
    {
      if Actor(step.event) == Some(k) {
        ActorClocked(s, step);
      } else {
        assert t.calls[k] == s.calls[k] && CallClocked(s.calls[k], s.clock);
      }
    }
  }

  lemma {:induction false} RunKeepsClocked(s: State, steps: seq<Step>)
    requires Clocked(s) && IsRun(s, steps)
    ensures Clocked(After(s, steps))
    decreases |steps|
  {
    if steps != [] {
      StepKeepsClocked(s, steps[0]);
      RunKeepsClocked(Next(s, steps[0]), steps[1..]);
    }
  }

  // ---------------------------------------------------------------- where runtimes come from

  lemma AttemptsGrow(s: State, step: Step, k: CallId, id: ContainerId)
    requires Enabled(s, step) && k in s.calls && StartedBy(s.calls[k].attempts, id)
    ensures k in Next(s, step).calls && StartedBy(Next(s, step).calls[k].attempts, id)
    ensures Next(s, step).calls[k].spec == s.calls[k].spec
  {
    var before, after := s.calls[k].attempts, Next(s, step).calls[k].attempts;
    var i :| 0 <= i < |before| && before[i].ran && before[i].target == Some(id);
    assert after[i] == before[i];
  }

  lemma NewContainer(s: State, step: Step, n: FunctionName)
    requires Enabled(s, step) && n in Next(s, step).core.runtimes
    requires n in s.core.runtimes ==> s.core.runtimes[n].containerId != Next(s, step).core.runtimes[n].containerId
    ensures step.event.Enter?
    ensures Created(Next(s, step).calls[step.event.k], n, Next(s, step).core.runtimes[n])
  {
    if step.event.ReapPass? { ReapEffect(s.core, step.event.order, step.now); }
    if step.event.Enter? {
      var tries := Next(s, step).calls[step.event.k].attempts;
      assert tries[|tries| - 1].target == Some(Next(s, step).core.runtimes[n].containerId);
    }
  }

  lemma StepKeepsProvenance(s: State, step: Step)
    requires Provenance(s) && Enabled(s, step)
    ensures Provenance(Next(s, step))
  {
    var t := Next(s, step);
    forall n | n in t.core.runtimes
      ensures exists k :: k in t.calls && Created(t.calls[k], n, t.core.runtimes[n])
    {
      var r := t.core.runtimes[n];
      if n in s.core.runtimes && s.core.runtimes[n].containerId == r.containerId {
        var k :| k in s.calls && Created(s.calls[k], n, s.core.runtimes[n]);
        AttemptsGrow(s, step, k, r.containerId);
        SameTimeout(s, step, n);
      } else {
        NewContainer(s, step, n);
      }
    }
  }

  lemma SameTimeout(s: State, step: Step, n: FunctionName)
    requires Enabled(s, step) && n in s.core.runtimes && n in Next(s, step).core.runtimes
    requires s.core.runtimes[n].containerId == Next(s, step).core.runtimes[n].containerId
    ensures s.core.runtimes[n].idleTimeoutMs == Next(s, step).core.runtimes[n].idleTimeoutMs
  {
    if step.event.ReapPass? { ReapEffect(s.core, step.event.order, step.now); }
  }

  lemma {:induction false} RunKeepsProvenance(s: State, steps: seq<Step>)
    requires Provenance(s) && IsRun(s, steps)
    ensures Provenance(After(s, steps))
    decreases |steps|
  {
    if steps != [] {
      StepKeepsProvenance(s, steps[0]);
      RunKeepsProvenance(Next(s, steps[0]), steps[1..]);
    }
  }
}
