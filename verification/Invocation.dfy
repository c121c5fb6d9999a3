/** `RuntimeManager::invoke` with nobody else at work (control-plane/src/
    runtime_manager.cpp): one attempt, then the decision whether to make a second.
    The class in RuntimeManager.dfy computes it, and it is a run of Protocol.dfy. */
module Invocation {
  import opened Metrics
  import opened Lifecycle
  import P = Protocol

  /** What the outside world answers to one `try_invoke`, and the clock at its lock
      regions and at the measurement between them. */
  datatype Script = Script(outcome: StartOutcome, enteredAt: int, response: Response, measuredAt: int, completedAt: int)

  function Tried(c: Core, spec: FunctionSpec, startedAt: int, t: Script): (Core, Observation<Status>, bool) {
    var (d, entry) := Enter(c, spec, t.outcome, t.enteredAt);
    var durationMs := ElapsedMs(startedAt, t.measuredAt) as real;
    match entry
    case NotStarted => (d, Observation(InfraError, false, durationMs), false)
    case Attached(id, _, cold) =>
      (Complete(d, spec.name, id, t.response, t.completedAt),
       Observation(StatusOf(t.response), cold, durationMs),
       t.response.Unreachable?)
  }

  function Invoked(c: Core, spec: FunctionSpec, startedAt: int, first: Script, second: Script): (Core, Observation<Status>) {
    var (d, result, connectionFailed) := Tried(c, spec, startedAt, first);
    if connectionFailed && !result.coldStart then
      var (e, retried, _) := Tried(d, spec, startedAt, second);
      (RecordInvocation(e, retried), retried)
    else
      (RecordInvocation(d, result), result)
  }

  // ---------------------------------------------------------------- what an invocation comes to

  /** The first attempt reuses a runtime that turns out to be dead. */
  predicate FoundDead(c: Core, spec: FunctionSpec, first: Script) {
    spec.name in c.runtimes && first.response.Unreachable?
  }

  /** The attempt that decides the result. */
  function Deciding(c: Core, spec: FunctionSpec, first: Script, second: Script): Script {
    if FoundDead(c, spec, first) then second else first
  }

  /** The invocation calls `run_container`. */
  predicate RunsContainer(c: Core, spec: FunctionSpec, first: Script) {
    spec.name !in c.runtimes || FoundDead(c, spec, first)
  }

  /** If the invocation calls `run_container`, the id it gets is new. */
  predicate Fresh(c: Core, spec: FunctionSpec, first: Script, second: Script) {
    RunsContainer(c, spec, first) ==> FreshFor(c, Deciding(c, spec, first, second).outcome)
  }

  lemma WarmTry(c: Core, spec: FunctionSpec, startedAt: int, t: Script)
    requires spec.name in c.runtimes
    ensures var (d, result, failed) := Tried(c, spec, startedAt, t);
            && result == Observation(StatusOf(t.response), false, ElapsedMs(startedAt, t.measuredAt) as real)
            && failed == t.response.Unreachable?
            && d.started == c.started && d.created == c.created && d.log == c.log
            && d.runtimes - {spec.name} == c.runtimes - {spec.name}
            && Counts(c, d, One(t.response.NoAnswer?), One(t.response.Unreachable?))
            && (if t.response.Answer? then
                  && spec.name in d.runtimes && d.removals == c.removals
                  && d.runtimes[spec.name] == c.runtimes[spec.name].(state := Idle, lastUsedAt := t.completedAt)
                else spec.name !in d.runtimes && d.removals == c.removals + [c.runtimes[spec.name].containerId])
  {
  }

  /** What the termination counters gain, by reason. */
  ghost predicate Counts(c: Core, d: Core, timeouts: nat, dead: nat) {
    && Count(d.terminated, Timeout) == Count(c.terminated, Timeout) + timeouts
    && Count(d.terminated, Dead) == Count(c.terminated, Dead) + dead
    && Count(d.terminated, Deleted) == Count(c.terminated, Deleted)
    && Count(d.terminated, IdleTimeout) == Count(c.terminated, IdleTimeout)
  }

  lemma ColdTry(c: Core, spec: FunctionSpec, startedAt: int, t: Script)
    requires spec.name !in c.runtimes
    ensures var (d, result, failed) := Tried(c, spec, startedAt, t);
            && result == Observation(if t.outcome.Healthy? then StatusOf(t.response) else InfraError,
                                     t.outcome.Healthy?, ElapsedMs(startedAt, t.measuredAt) as real)
            && (failed ==> result.coldStart)
            && d.started == (if t.outcome.RunFailed? then c.started else c.started + {t.outcome.id})
            && d.created == c.created + One(t.outcome.Healthy?) && d.log == c.log
            && d.runtimes - {spec.name} == c.runtimes
            && Counts(c, d, One(t.outcome.Healthy? && t.response.NoAnswer?), One(t.outcome.Healthy? && t.response.Unreachable?))
            && (if t.outcome.Healthy? && t.response.Answer? then
                  && spec.name in d.runtimes && d.removals == c.removals
                  && d.runtimes[spec.name] == Runtime(t.outcome.id, t.outcome.port, Idle, t.completedAt, spec.idleTimeoutMs)
                else
                  && spec.name !in d.runtimes
                  && d.removals == c.removals + (if t.outcome.RunFailed? then [] else [t.outcome.id]))
  {
  }

  /** A second attempt follows a first that found a dead runtime, and finds none. */
  lemma WarmOrCold(c: Core, spec: FunctionSpec, startedAt: int, first: Script)
    ensures var (d, result, failed) := Tried(c, spec, startedAt, first);
            && (failed && !result.coldStart <==> FoundDead(c, spec, first))
            && (FoundDead(c, spec, first) ==> spec.name !in d.runtimes && d.started == c.started)
  {
    if spec.name in c.runtimes { WarmTry(c, spec, startedAt, first); } else { ColdTry(c, spec, startedAt, first); }
  }

  /** How table, backend, counters and log stand after an invocation that returned
      `result`.  `dead` says that a runtime was found dead, `runs` that `run_container`
      was called, `last` is the deciding attempt. */
  ghost predicate Settled(
    c: Core, spec: FunctionSpec, startedAt: int, dead: bool, runs: bool, last: Script, d: Core, result: Observation<Status>)
    requires dead || !runs ==> spec.name in c.runtimes
  {
    var name := spec.name;
    var reached := !runs || last.outcome.Healthy?;
    var answered := reached && last.response.Answer?;
    && d.log == c.log + [result]
    && (result.status == Success <==> answered && 200 <= last.response.code < 300)
    && (result.status == Error <==> answered && !(200 <= last.response.code < 300))
    && (result.status == TimedOut <==> reached && last.response.NoAnswer?)
    && (result.status == InfraError <==> !reached || last.response.Unreachable?)
    && (result.coldStart <==> runs && last.outcome.Healthy?)
    && result.durationMs == ElapsedMs(startedAt, last.measuredAt) as real
    && d.created == c.created + One(result.coldStart)
    && Counts(c, d, One(reached && last.response.NoAnswer?), One(dead) + One(reached && last.response.Unreachable?))
    && d.started == (if runs && !last.outcome.RunFailed? then c.started + {last.outcome.id} else c.started)
    && d.removals == c.removals + (if dead || (!runs && !answered) then [c.runtimes[name].containerId] else [])
                     + (if runs && !answered && !last.outcome.RunFailed? then [last.outcome.id] else [])
    && d.runtimes - {name} == c.runtimes - {name}
    && (name in d.runtimes <==> answered)
    && (name in d.runtimes ==>
          d.runtimes[name] == if runs then Runtime(last.outcome.id, last.outcome.port, Idle, last.completedAt, spec.idleTimeoutMs)
                              else c.runtimes[name].(state := Idle, lastUsedAt := last.completedAt))
  }

  lemma DeadRuntimeIsReplaced(c: Core, spec: FunctionSpec, startedAt: int, first: Script, second: Script)
    requires FoundDead(c, spec, first)
    ensures var (d, result) := Invoked(c, spec, startedAt, first, second);
            Settled(c, spec, startedAt, true, true, second, d, result)
  {
    WarmTry(c, spec, startedAt, first);
    var d := Tried(c, spec, startedAt, first).0;
    ColdTry(d, spec, startedAt, second);
    StatusMeaning(second.response);
    assert d.runtimes - {spec.name} == d.runtimes;
  }

  lemma WarmAttemptDecides(c: Core, spec: FunctionSpec, startedAt: int, first: Script, second: Script)
    requires !FoundDead(c, spec, first) && spec.name in c.runtimes
    ensures var (d, result) := Invoked(c, spec, startedAt, first, second);
            Settled(c, spec, startedAt, false, false, first, d, result)
  {
    WarmTry(c, spec, startedAt, first);
    StatusMeaning(first.response);
  }

  lemma ColdAttemptDecides(c: Core, spec: FunctionSpec, startedAt: int, first: Script, second: Script)
    requires spec.name !in c.runtimes
    ensures var (d, result) := Invoked(c, spec, startedAt, first, second);
            Settled(c, spec, startedAt, false, true, first, d, result)
  {
    ColdTry(c, spec, startedAt, first);
    StatusMeaning(first.response);
    assert c.runtimes - {spec.name} == c.runtimes;
  }

  /** An invocation nobody disturbs.  A runtime found dead is handed over and the
      second attempt starts a new one; any other first attempt is final.  So
      `run_container` is called at most once, the flag and the creation counter say
      whether it gave a runtime, exactly one observation is logged, other functions
      are untouched, and afterwards the function has an idle runtime exactly when it
      answered: the old one, or the one this call started. */
  lemma InvokeEffect(c: Core, spec: FunctionSpec, startedAt: int, first: Script, second: Script)
    requires Sound(c) && Fresh(c, spec, first, second)
    ensures var (d, result) := Invoked(c, spec, startedAt, first, second);
            && Sound(d)
            && Settled(c, spec, startedAt, FoundDead(c, spec, first), RunsContainer(c, spec, first),
                       Deciding(c, spec, first, second), d, result)
  {
    InvokedKeepsSound(c, spec, startedAt, first, second);
    if FoundDead(c, spec, first) {
      DeadRuntimeIsReplaced(c, spec, startedAt, first, second);
    } else if spec.name in c.runtimes {
      WarmAttemptDecides(c, spec, startedAt, first, second);
    } else {
      ColdAttemptDecides(c, spec, startedAt, first, second);
    }
  }

  lemma TriedKeepsSound(c: Core, spec: FunctionSpec, startedAt: int, t: Script)
    requires Sound(c) && (spec.name !in c.runtimes ==> FreshFor(c, t.outcome))
    ensures Sound(Tried(c, spec, startedAt, t).0)
  {
    EnterKeepsSound(c, spec, t.outcome, t.enteredAt);
    var (d, entry) := Enter(c, spec, t.outcome, t.enteredAt);
    if entry.Attached? { CompleteKeepsSound(d, spec.name, entry.id, t.response, t.completedAt); }
  }

  lemma InvokedKeepsSound(c: Core, spec: FunctionSpec, startedAt: int, first: Script, second: Script)
    requires Sound(c) && Fresh(c, spec, first, second)
    ensures Sound(Invoked(c, spec, startedAt, first, second).0)
  {
    TriedKeepsSound(c, spec, startedAt, first);
    var (d, result, failed) := Tried(c, spec, startedAt, first);
    if failed && !result.coldStart {
      WarmTry(c, spec, startedAt, first);
      TriedKeepsSound(d, spec, startedAt, second);
      RecordKeepsSound(Tried(d, spec, startedAt, second).0, Tried(d, spec, startedAt, second).1);
    } else {
      RecordKeepsSound(d, result);
    }
  }

  // ---------------------------------------------------------------- it is a run of the protocol

  lemma {:induction false} RunsCompose(s: P.State, a: seq<P.Step>, b: seq<P.Step>)
    requires P.IsRun(s, a) && P.IsRun(P.After(s, a), b)
    ensures P.IsRun(s, a + b) && P.After(s, a + b) == P.After(P.After(s, a), b)
    decreases |a|
  {
    if a == [] {
      assert a + b == b;
    } else {
      RunsCompose(P.Next(s, a[0]), a[1..], b);
      assert (a + b)[0] == a[0] && (a + b)[1..] == a[1..] + b;
    }
  }

  lemma OneStep(s: P.State, step: P.Step)
    requires P.Enabled(s, step)
    ensures P.IsRun(s, [step]) && P.After(s, [step]) == P.Next(s, step)
  {
    assert [step][1..] == [];
  }

  /** The lock is taken in the order of the clock. */
  predicate InOrder(from: int, t: Script) {
    from <= t.enteredAt <= t.measuredAt <= t.completedAt
  }

  /** The steps of one attempt; they depend on whether it reaches a container. */
  function TrySteps(c: Core, spec: FunctionSpec, k: P.CallId, t: Script): seq<P.Step> {
    if Enter(c, spec, t.outcome, t.enteredAt).1.NotStarted? then
      [P.Step(P.Enter(k, t.outcome), t.enteredAt)] + [P.Step(P.Measure(k), t.measuredAt)]
    else
      [P.Step(P.Enter(k, t.outcome), t.enteredAt)] + [P.Step(P.Respond(k, t.response), t.measuredAt)]
      + [P.Step(P.Complete(k), t.completedAt)]
  }

  ghost predicate Waiting(s: P.State, k: P.CallId, spec: FunctionSpec, startedAt: int, tries: nat) {
    && k in s.calls && s.calls[k].phase.Entering? && s.calls[k].spec == spec
    && s.calls[k].startedAt == startedAt && |s.calls[k].attempts| == tries
  }

  lemma EnterRuns(s: P.State, k: P.CallId, spec: FunctionSpec, startedAt: int, tries: nat, t: Script)
    requires Waiting(s, k, spec, startedAt, tries) && InOrder(s.clock, t)
    requires spec.name !in s.core.runtimes ==> FreshFor(s.core, t.outcome)
    ensures var step := P.Step(P.Enter(k, t.outcome), t.enteredAt);
            && P.IsRun(s, [step])
            && var u := P.After(s, [step]);
               var (core, entry) := Enter(s.core, spec, t.outcome, t.enteredAt);
               && u.core == core && u.clock == t.enteredAt && k in u.calls
               && u.calls[k].spec == spec && u.calls[k].startedAt == startedAt && |u.calls[k].attempts| == tries + 1
               && u.calls[k].phase == match entry
                                      case NotStarted => P.StartFailed
                                      case Attached(id, port, cold) => P.Calling(id, port, cold, t.enteredAt)
  {
    OneStep(s, P.Step(P.Enter(k, t.outcome), t.enteredAt));
  }

  /** The second half of an attempt that reached a container. */
  lemma CallRuns(s: P.State, k: P.CallId, spec: FunctionSpec, startedAt: int, t: Script)
    requires k in s.calls && s.calls[k].phase.Calling? && s.calls[k].spec == spec && s.calls[k].startedAt == startedAt
    requires s.clock <= t.measuredAt <= t.completedAt
    ensures var steps := [P.Step(P.Respond(k, t.response), t.measuredAt)] + [P.Step(P.Complete(k), t.completedAt)];
            var p := s.calls[k].phase;
            && P.IsRun(s, steps)
            && var u := P.After(s, steps);
               && u.core == Complete(s.core, spec.name, p.id, t.response, t.completedAt)
               && u.clock == t.completedAt && k in u.calls
               && u.calls[k].spec == spec && u.calls[k].startedAt == startedAt && u.calls[k].attempts == s.calls[k].attempts
               && u.calls[k].phase == if t.response.Unreachable? && !p.cold && |s.calls[k].attempts| == 1 then P.Entering
                                      else P.Finished(Observation(StatusOf(t.response), p.cold, ElapsedMs(startedAt, t.measuredAt) as real))
  {
    var respond, complete := P.Step(P.Respond(k, t.response), t.measuredAt), P.Step(P.Complete(k), t.completedAt);
    OneStep(s, respond);
    OneStep(P.Next(s, respond), complete);
    RunsCompose(s, [respond], [complete]);
  }

  lemma TryRuns(s: P.State, k: P.CallId, spec: FunctionSpec, startedAt: int, tries: nat, t: Script)
    requires Waiting(s, k, spec, startedAt, tries) && InOrder(s.clock, t)
    requires spec.name !in s.core.runtimes ==> FreshFor(s.core, t.outcome)
    ensures var steps := TrySteps(s.core, spec, k, t);
            var (core, result, failed) := Tried(s.core, spec, startedAt, t);
            && P.IsRun(s, steps)
            && var u := P.After(s, steps);
               && u.core == core && u.clock <= t.completedAt
               && (if failed && !result.coldStart && tries == 0 then Waiting(u, k, spec, startedAt, 1)
                   else k in u.calls && u.calls[k].phase == P.Finished(result))
  {
    var enter := [P.Step(P.Enter(k, t.outcome), t.enteredAt)];
    EnterRuns(s, k, spec, startedAt, tries, t);
    var u := P.After(s, enter);
    if u.calls[k].phase.StartFailed? {
      OneStep(u, P.Step(P.Measure(k), t.measuredAt));
      RunsCompose(s, enter, [P.Step(P.Measure(k), t.measuredAt)]);
    } else {
      var rest := [P.Step(P.Respond(k, t.response), t.measuredAt)] + [P.Step(P.Complete(k), t.completedAt)];
      CallRuns(u, k, spec, startedAt, t);
      RunsCompose(s, enter, rest);
      assert TrySteps(s.core, spec, k, t) == enter + rest;
    }
  }

  /** All steps of the invocation. */
  function InvokeSteps(
    c: Core, k: P.CallId, spec: FunctionSpec, startedAt: int, first: Script, second: Script, recordedAt: int): seq<P.Step>
  {
    var (d, result, failed) := Tried(c, spec, startedAt, first);
    [P.Step(P.Begin(k, spec), startedAt)] + TrySteps(c, spec, k, first)
    + (if failed && !result.coldStart then TrySteps(d, spec, k, second) else [])
    + [P.Step(P.Record(k), recordedAt)]
  }

  /** The sequential `invoke` and the interleaved model decide alike: from any state
      these steps are a run, and end with the same table, counters and result. */
  lemma InvokeIsARun(
    s: P.State, k: P.CallId, spec: FunctionSpec, startedAt: int, first: Script, second: Script, recordedAt: int)
    requires k !in s.calls && s.clock <= startedAt && InOrder(startedAt, first) && InOrder(first.completedAt, second)
    requires second.completedAt <= recordedAt && Fresh(s.core, spec, first, second)
    ensures var steps := InvokeSteps(s.core, k, spec, startedAt, first, second, recordedAt);
            var (core, result) := Invoked(s.core, spec, startedAt, first, second);
            && P.IsRun(s, steps)
            && P.After(s, steps).core == core
            && k in P.After(s, steps).calls && P.After(s, steps).calls[k].phase == P.Recorded(result)
  {
    var begin, record := P.Step(P.Begin(k, spec), startedAt), P.Step(P.Record(k), recordedAt);
    var (d, result, failed) := Tried(s.core, spec, startedAt, first);
    OneStep(s, begin);
    var t := P.After(s, [begin]);
    assert Waiting(t, k, spec, startedAt, 0);
    TryRuns(t, k, spec, startedAt, 0, first);
    var one := TrySteps(s.core, spec, k, first);
    RunsCompose(s, [begin], one);
    var u := P.After(t, one);
    var two := if failed && !result.coldStart then TrySteps(d, spec, k, second) else [];
    if failed && !result.coldStart {
      WarmTry(s.core, spec, startedAt, first);
      TryRuns(u, k, spec, startedAt, 1, second);
    }
    RunsCompose(s, [begin] + one, two);
    var v := P.After(u, two);
    OneStep(v, record);
    RunsCompose(s, [begin] + one + two, [record]);
  }
}
