/** What the runtime manager guarantees over every interleaving. */
module Guarantees {
  import opened Options
  import opened Metrics
  import opened Lifecycle
  import opened Protocol

  ghost function Reached(clock: int, steps: seq<Step>): State
    requires IsRun(Init(clock), steps)
  {
    After(Init(clock), steps)
  }

  // ---------------------------------------------------------------- conservation and accounting

  /** No container is lost, leaked, shared or removed twice. */
  lemma ContainerConservation(clock: int, steps: seq<Step>)
    requires IsRun(Init(clock), steps)
    ensures var c := Reached(clock, steps).core;
            && c.started == Tracked(c.runtimes) + (set id | id in c.removals)
            && Tracked(c.runtimes) !! (set id | id in c.removals)
            && NoRepeats(c.removals)
            && (forall n, m :: n in c.runtimes && m in c.runtimes && c.runtimes[n].containerId == c.runtimes[m].containerId ==> n == m)
            && |c.started| == |c.runtimes| + |c.removals|
  {
    InvHolds(clock, steps);
    var c := Reached(clock, steps).core;
    ConservedAsSets(c);
    DistinctCount(c.removals);
    TrackedCount(c.runtimes);
  }

  lemma ConservedAsSets(c: Core)
    requires Conserved(c)
    ensures c.started == Tracked(c.runtimes) + (set id | id in c.removals)
    ensures Tracked(c.runtimes) !! (set id | id in c.removals)
  {
    forall id | id in c.started && id !in c.removals
      ensures id in Tracked(c.runtimes)
    {
      var n :| StillTracked(c.runtimes, n, id);
    }
  }

  lemma {:induction false} DistinctCount(s: seq<ContainerId>)
    requires NoRepeats(s)
    ensures |set id | id in s| == |s|
  {
    if s != [] {
      var front := s[..|s| - 1];
      DistinctCount(front);
      assert (set id | id in s) == (set id | id in front) + {s[|s| - 1]};
    }
  }

  lemma TrackedWithout(runtimes: map<FunctionName, Runtime>, n: FunctionName)
    requires Distinct(runtimes) && n in runtimes
    ensures runtimes[n].containerId !in Tracked(runtimes - {n})
    ensures Tracked(runtimes) == Tracked(runtimes - {n}) + {runtimes[n].containerId}
  {
    var smaller := runtimes - {n};
    assert forall m :: m in runtimes ==> m == n || (m in smaller && smaller[m] == runtimes[m]);
  }

  lemma {:induction false} TrackedCount(runtimes: map<FunctionName, Runtime>)
    requires Distinct(runtimes)
    ensures |Tracked(runtimes)| == |runtimes|
    decreases |runtimes|
  {
    if runtimes.Keys == {} {
      assert |runtimes| == 0;
    } else {
      var n :| n in runtimes;
      var smaller := runtimes - {n};
      assert smaller.Keys == runtimes.Keys - {n};
      assert |smaller| == |smaller.Keys| && |runtimes| == |runtimes.Keys|;
      TrackedCount(smaller);
      TrackedWithout(runtimes, n);
    }
  }

  lemma {:induction false} SeenByOutcome(log: seq<Observation<Status>>, cold: bool)
    ensures Seen(log, cold)
         == Tally(log, Success, cold) + Tally(log, Error, cold) + Tally(log, TimedOut, cold) + Tally(log, InfraError, cold)
  {
    if log != [] {
      var status := log[|log| - 1].status;
      assert status.Success? || status.Error? || status.TimedOut? || status.InfraError?;
      SeenByOutcome(log[..|log| - 1], cold);
    }
  }

  /** Three independent ways of counting cold starts always agree: the creation
      counter, the runtimes that are or were tracked, and the cold invocation
      counters with the cold starts of calls that are not recorded yet. */
  lemma ColdStartAccounting(clock: int, steps: seq<Step>, counts: Counts<Status>)
    requires IsRun(Init(clock), steps)
    requires CountsAgree(counts, Reached(clock, steps).core.log)
    ensures var s := Reached(clock, steps);
            && s.core.created == |s.core.runtimes| + TotalTerminated(s.core.terminated)
            && s.core.created == CountOf(counts, Success, true) + CountOf(counts, Error, true)
                                 + CountOf(counts, TimedOut, true) + CountOf(counts, InfraError, true)
                                 + |ColdPending(s.calls)|
  {
    InvHolds(clock, steps);
    SeenByOutcome(Reached(clock, steps).core.log, true);
  }

  // ---------------------------------------------------------------- terminations by reason

  /** The step is the completion of a call whose container is still in the table. */
  ghost predicate CompletesOnTracked(s: State, step: Step)
    requires Protocol.Ready(s, step)
  {
    step.event.Complete? &&
    var call := s.calls[step.event.k];
    call.spec.name in s.core.runtimes && s.core.runtimes[call.spec.name].containerId == call.phase.id
  }

  /** The functions whose runtime is idle and past its deadline. */
  function Overdue(runtimes: map<FunctionName, Runtime>, now: int): set<FunctionName> {
    set n | n in runtimes && runtimes[n].state.Idle? && now >= runtimes[n].lastUsedAt + runtimes[n].idleTimeoutMs * 1_000_000
  }

  /** The runtimes a step stops for a reason, judged before the step. */
  ghost function Stopped(s: State, step: Step, reason: Reason): nat
    requires Protocol.Ready(s, step)
  {
    match reason
    case Timeout => One(CompletesOnTracked(s, step) && s.calls[step.event.k].phase.response.NoAnswer?)
    case Dead => One(CompletesOnTracked(s, step) && s.calls[step.event.k].phase.response.Unreachable?)
    case Deleted => One(step.event.Delete? && step.event.name in s.core.runtimes)
    case IdleTimeout => if step.event.ReapPass? then |Overdue(s.core.runtimes, step.now)| else 0
  }

  ghost function StoppedOver(s: State, steps: seq<Step>, reason: Reason): nat
    requires IsRun(s, steps)
    decreases |steps|
  {
    if steps == [] then 0 else Stopped(s, steps[0], reason) + StoppedOver(Next(s, steps[0]), steps[1..], reason)
  }

  lemma OverdueAreReaped(c: Core, order: seq<FunctionName>, now: int)
    requires Enumerates(order, c.runtimes) && StampedBy(c, now)
    ensures |Overdue(c.runtimes, now)| == |c.runtimes| - |Reap(c, order, now).runtimes|
  {
    ReapIsFilter(c, order, now);
    forall n | n in c.runtimes && c.runtimes[n].state.Idle?
      ensures Expired(c.runtimes[n], now) <==> now >= Deadline(c.runtimes[n])
    {
      ExpiredAtDeadline(c.runtimes[n], now);
    }
    var left := Survivors(c.runtimes, now);
    assert left.Keys == c.runtimes.Keys - Overdue(c.runtimes, now);
    assert |left| == |left.Keys| && |c.runtimes| == |c.runtimes.Keys|;
  }

  lemma PassCounts(c: Core, order: seq<FunctionName>, now: int, reason: Reason)
    requires Enumerates(order, c.runtimes) && StampedBy(c, now)
    ensures Count(Reap(c, order, now).terminated, reason)
         == Count(c.terminated, reason) + if reason == IdleTimeout then |Overdue(c.runtimes, now)| else 0
  {
    OverdueAreReaped(c, order, now);
    ReapIsFilter(c, order, now);
  }

  lemma CompleteCounts(c: Core, name: FunctionName, id: ContainerId, response: Response, now: int, reason: Reason)
    ensures Count(Lifecycle.Complete(c, name, id, response, now).terminated, reason)
         == Count(c.terminated, reason)
            + One(name in c.runtimes && c.runtimes[name].containerId == id
                  && ((reason == Timeout && response.NoAnswer?) || (reason == Dead && response.Unreachable?)))
  {
  }

  lemma StepCounts(s: State, step: Step, reason: Reason)
    requires Enabled(s, step) && StampedBy(s.core, s.clock)
    ensures Count(Next(s, step).core.terminated, reason) == Count(s.core.terminated, reason) + Stopped(s, step, reason)
  {
    match step.event
    case Complete(k) =>
      CompleteCounts(s.core, s.calls[k].spec.name, s.calls[k].phase.id, s.calls[k].phase.response, step.now, reason);
    case ReapPass(order) => PassCounts(s.core, order, step.now, reason);
    case _ =>
  }

  lemma {:induction false} RunCounts(s: State, steps: seq<Step>, reason: Reason)
    requires Inv(s) && IsRun(s, steps)
    ensures Count(After(s, steps).core.terminated, reason) == Count(s.core.terminated, reason) + StoppedOver(s, steps, reason)
    decreases |steps|
  {
    if steps != [] {
      StepCounts(s, steps[0], reason);
      StepKeepsInv(s, steps[0]);
      RunCounts(Next(s, steps[0]), steps[1..], reason);
    }
  }

  /** Every counter of terminated runtimes counts what its label says: calls that timed
      out on a tracked container, calls that found one dead, deletes of a function with
      a runtime, and runtimes overdue at a reaper pass. */
  lemma TerminationAccounting(clock: int, steps: seq<Step>, reason: Reason)
    requires IsRun(Init(clock), steps)
    ensures Count(Reached(clock, steps).core.terminated, reason) == StoppedOver(Init(clock), steps, reason)
  {
    InvHolds(clock, []);
    RunCounts(Init(clock), steps, reason);
  }

  // ---------------------------------------------------------------- retry

  /** At most two attempts, at most one `run_container`, never the same container
      twice, and a second attempt only after a warm one that was unreachable. */
  lemma RetrySoundness(clock: int, steps: seq<Step>, k: CallId)
    requires IsRun(Init(clock), steps)
    requires k in Reached(clock, steps).calls
    ensures var call := Reached(clock, steps).calls[k];
            var tries := call.attempts;
            && |tries| <= 2
            && (|tries| == 2 ==>
                  && !tries[0].ran
                  && |call.responses| >= 1 && call.responses[0].Unreachable?
                  && tries[0].target.Some?
                  && tries[0].target.value in Reached(clock, steps).core.removals
                  && tries[1].target != tries[0].target)
  {
    InvHolds(clock, steps);
    assert CallOk(Reached(clock, steps).core, Reached(clock, steps).calls[k]);
  }

  /** What a finished call reports.  It succeeded exactly when the last attempt was
      answered with a code from 200 to 299, is an error exactly when answered otherwise,
      timed out exactly when not answered in time, and is an infrastructure error
      exactly when that attempt reached no container or an unreachable one.  The cold
      flag says that it started the container it called, so a start that failed is not
      reported as cold; and a warm container that was unreachable is never the whole
      story: the call was retried. */
  lemma ResultMeaning(clock: int, steps: seq<Step>, k: CallId)
    requires IsRun(Init(clock), steps)
    requires k in Reached(clock, steps).calls
    ensures var call := Reached(clock, steps).calls[k];
            (call.phase.Finished? || call.phase.Recorded?) ==>
              && call.attempts != []
              && var last := call.attempts[|call.attempts| - 1];
                 && (last.target.Some? ==> call.responses != [])
                 && (call.phase.result.coldStart <==> last.ran && last.target.Some?)
                 && (call.phase.result.status == Success <==>
                       last.target.Some? && var r := call.responses[|call.responses| - 1]; r.Answer? && 200 <= r.code < 300)
                 && (call.phase.result.status == Error <==>
                       last.target.Some? && var r := call.responses[|call.responses| - 1]; r.Answer? && !(200 <= r.code < 300))
                 && (call.phase.result.status == TimedOut <==>
                       last.target.Some? && call.responses[|call.responses| - 1].NoAnswer?)
                 && (call.phase.result.status == InfraError <==>
                       last.target.None? || call.responses[|call.responses| - 1].Unreachable?)
                 && !(|call.attempts| == 1 && !last.ran && call.responses != [] && call.responses[0].Unreachable?)
  {
    InvHolds(clock, steps);
    var call := Reached(clock, steps).calls[k];
    assert CallOk(Reached(clock, steps).core, call);
    if call.responses != [] { StatusMeaning(call.responses[|call.responses| - 1]); }
  }

  /** The function may have seen the request. */
  predicate Sent(r: Response) { r.Unreachable? ==> r.sent }

  /** The containers the request of a call has been sent to, by the responses so far. */
  ghost function SentTo(call: Call): set<ContainerId> {
    set i | 0 <= i < |call.responses| && i < |call.attempts| && call.attempts[i].target.Some? && Sent(call.responses[i])
          :: call.attempts[i].target.value
  }

  /** One invocation may run its function twice, on two containers: exactly when the
      first, warm one took the request and closed the connection without a usable
      reply, and the second attempt got as far as sending.  It never runs it three
      times, nor after a receive timeout. */
  lemma SentTwiceIff(clock: int, steps: seq<Step>, k: CallId)
    requires IsRun(Init(clock), steps)
    requires k in Reached(clock, steps).calls
    ensures var call := Reached(clock, steps).calls[k];
            && |SentTo(call)| <= 2
            && (|SentTo(call)| == 2 <==>
                  |call.responses| == 2 && call.responses[0] == Unreachable(true) && Sent(call.responses[1]))
  {
    InvHolds(clock, steps);
    var call := Reached(clock, steps).calls[k];
    assert CallOk(Reached(clock, steps).core, call);
    ResponsesAreOfAttempts(Reached(clock, steps).core, call);
    SentToAtMostTwo(call);
  }

  lemma ResponsesAreOfAttempts(core: Core, call: Call)
    requires CallOk(core, call)
    ensures |call.responses| <= |call.attempts| <= 2
    ensures forall i :: 0 <= i < |call.responses| ==> call.attempts[i].target.Some?
    ensures |call.responses| == 2 ==>
              call.responses[0].Unreachable? && call.attempts[0].target != call.attempts[1].target
  {
  }

  lemma SentToAtMostTwo(call: Call)
    requires |call.responses| <= |call.attempts| && |call.responses| <= 2
    requires forall i :: 0 <= i < |call.responses| ==> call.attempts[i].target.Some?
    requires |call.responses| == 2 ==> call.attempts[0].target != call.attempts[1].target
    ensures |SentTo(call)| <= 2
    ensures |SentTo(call)| == 2 <==> |call.responses| == 2 && Sent(call.responses[0]) && Sent(call.responses[1])
  {
    if call.responses == [] {
      assert SentTo(call) == {};
    } else {
      var first := if Sent(call.responses[0]) then {call.attempts[0].target.value} else {};
      if |call.responses| == 2 {
        var second := if Sent(call.responses[1]) then {call.attempts[1].target.value} else {};
        assert SentTo(call) == first + second;
      } else {
        assert SentTo(call) == first;
      }
    }
  }

  lemma AttemptsKept(s: State, step: Step, k: CallId)
    requires Enabled(s, step) && k in s.calls
    ensures k in Next(s, step).calls
    ensures s.calls[k].attempts <= Next(s, step).calls[k].attempts
  {
  }

  lemma {:induction false} RunKeepsAttempts(s: State, steps: seq<Step>, k: CallId)
    requires IsRun(s, steps) && k in s.calls
    ensures k in After(s, steps).calls && s.calls[k].attempts <= After(s, steps).calls[k].attempts
    decreases |steps|
  {
    if steps != [] {
      AttemptsKept(s, steps[0], k);
      RunKeepsAttempts(Next(s, steps[0]), steps[1..], k);
    }
  }

  /** The reported cold flag in terms of what the last entry found: it is set exactly
      when the function had no runtime then and the one started became healthy. */
  lemma ColdFlagIff(clock: int, steps: seq<Step>, k: CallId, outcome: StartOutcome, now: int, more: seq<Step>)
    requires IsRun(Init(clock), steps)
    requires Enabled(Reached(clock, steps), Step(Event.Enter(k, outcome), now))
    requires IsRun(Next(Reached(clock, steps), Step(Event.Enter(k, outcome), now)), more)
    ensures var s := Reached(clock, steps);
            var t := Next(s, Step(Event.Enter(k, outcome), now));
            var u := After(t, more);
            && k in u.calls
            && ((u.calls[k].phase.Finished? || u.calls[k].phase.Recorded?) && |u.calls[k].attempts| == |t.calls[k].attempts| ==>
                  (u.calls[k].phase.result.coldStart <==> s.calls[k].spec.name !in s.core.runtimes && outcome.Healthy?))
  {
    var s := Reached(clock, steps);
    var t := Next(s, Step(Event.Enter(k, outcome), now));
    InvHolds(clock, steps);
    StepKeepsInv(s, Step(Event.Enter(k, outcome), now));
    EntryAttempt(s, k, outcome, now);
    FlagOfLastAttempt(t, k, more);
  }

  lemma EntryAttempt(s: State, k: CallId, outcome: StartOutcome, now: int)
    requires Enabled(s, Step(Event.Enter(k, outcome), now))
    ensures var tries := Next(s, Step(Event.Enter(k, outcome), now)).calls[k].attempts;
            && tries != []
            && (StartedItsContainer(tries[|tries| - 1]) <==> s.calls[k].spec.name !in s.core.runtimes && outcome.Healthy?)
  {
  }

  lemma FlagOfLastAttempt(t: State, k: CallId, more: seq<Step>)
    requires Inv(t) && IsRun(t, more) && k in t.calls && t.calls[k].attempts != []
    ensures var tries := t.calls[k].attempts;
            var u := After(t, more);
            && k in u.calls
            && ((u.calls[k].phase.Finished? || u.calls[k].phase.Recorded?) && |u.calls[k].attempts| == |tries| ==>
                  (u.calls[k].phase.result.coldStart <==> StartedItsContainer(tries[|tries| - 1])))
  {
    CallsOkAfter(t, more);
    RunKeepsAttempts(t, more, k);
    var u := After(t, more);
    FlagOfCall(u.core, u.calls[k], t.calls[k].attempts);
  }

  lemma CallsOkAfter(t: State, more: seq<Step>)
    requires Inv(t) && IsRun(t, more)
    ensures CallsOk(After(t, more))
  {
    RunKeepsInv(t, more);
  }

  lemma FlagOfCall(core: Core, call: Call, tries: seq<Attempt>)
    requires CallOk(core, call) && tries != [] && tries <= call.attempts
    ensures (call.phase.Finished? || call.phase.Recorded?) && |call.attempts| == |tries| ==>
              (call.phase.result.coldStart <==> StartedItsContainer(tries[|tries| - 1]))
  {
  }

  /** Steps a call may still take. */
  function Budget(calls: map<CallId, Call>, k: CallId): nat {
    if k !in calls then 8
    else
      var first := |calls[k].attempts| <= 1;
      match calls[k].phase
      case Entering => if calls[k].attempts == [] then 7 else 4
      case Calling(_, _, _, _) => if first then 6 else 3
      case Answered(_, _, _, _, _) => if first then 5 else 2
      case StartFailed => 2
      case Finished(_) => 1
      case Recorded(_) => 0
  }

  function OwnSteps(steps: seq<Step>, k: CallId): nat {
    if steps == [] then 0 else One(Actor(steps[0].event) == Some(k)) + OwnSteps(steps[1..], k)
  }

  lemma StepSpendsBudget(s: State, step: Step, k: CallId)
    requires Enabled(s, step)
    ensures One(Actor(step.event) == Some(k)) + Budget(Next(s, step).calls, k) <= Budget(s.calls, k)
  {
  }

  lemma {:induction false} RunSpendsBudget(s: State, steps: seq<Step>, k: CallId)
    requires IsRun(s, steps)
    ensures OwnSteps(steps, k) + Budget(After(s, steps).calls, k) <= Budget(s.calls, k)
    decreases |steps|
  {
    if steps != [] {
      StepSpendsBudget(s, steps[0], k);
      RunSpendsBudget(Next(s, steps[0]), steps[1..], k);
    }
  }

  /** No invocation can run for ever or get stuck: it takes at most eight steps of
      its own in any run, and until it is recorded it always has one to take. */
  lemma InvocationEnds(clock: int, steps: seq<Step>, k: CallId)
    requires IsRun(Init(clock), steps)
    ensures OwnSteps(steps, k) <= 8
    ensures var s := Reached(clock, steps);
            k in s.calls && !s.calls[k].phase.Recorded? ==>
              exists step :: Enabled(s, step) && Actor(step.event) == Some(k)
  {
    RunSpendsBudget(Init(clock), steps, k);
    var s := Reached(clock, steps);
    if k in s.calls && !s.calls[k].phase.Recorded? {
      var e := match s.calls[k].phase
        case Entering => Event.Enter(k, RunFailed)
        case Calling(_, _, _, _) => Respond(k, NoAnswer)
        case Answered(_, _, _, _, _) => Event.Complete(k)
        case StartFailed => Measure(k)
        case Finished(_) => Record(k)
        case Recorded(_) => Record(k);
      assert Enabled(s, Step(e, s.clock)) && Actor(Step(e, s.clock).event) == Some(k);
    }
  }

  /** A reported duration is never negative and covers every attempt of the call,
      cold start and readiness wait included. */
  lemma DurationCoversCall(clock: int, steps: seq<Step>, k: CallId)
    requires IsRun(Init(clock), steps)
    requires k in Reached(clock, steps).calls
    ensures var call := Reached(clock, steps).calls[k];
            (call.phase.Finished? || call.phase.Recorded?) ==>
              && call.phase.result.durationMs >= 0.0
              && forall i :: 0 <= i < |call.attempts| ==>
                               ElapsedMs(call.startedAt, call.attempts[i].at) as real <= call.phase.result.durationMs
  {
    RunKeepsClocked(Init(clock), steps);
    ResultMeaning(clock, steps, k);
    var s := Reached(clock, steps);
    var call := s.calls[k];
    assert CallClocked(call, s.clock);
    if (call.phase.Finished? || call.phase.Recorded?) {
      ElapsedMonotone(call.startedAt, call.attempts[0].at, s.clock);
    }
  }

  /** Every runtime was started by some invocation of its own function, and scales
      down on the idle timeout of the spec that invocation carried. */
  lemma RuntimeHasCreator(clock: int, steps: seq<Step>, n: FunctionName)
    requires IsRun(Init(clock), steps)
    requires n in Reached(clock, steps).core.runtimes
    ensures var s := Reached(clock, steps);
            exists k :: k in s.calls && Created(s.calls[k], n, s.core.runtimes[n])
  {
    RunKeepsProvenance(Init(clock), steps);
  }

  // ---------------------------------------------------------------- stale completions

  lemma {:induction false} RemovalsPersist(s: State, steps: seq<Step>, id: ContainerId)
    requires Inv(s) && IsRun(s, steps) && id in s.core.removals
    ensures id in After(s, steps).core.removals
    decreases |steps|
  {
    if steps != [] {
      StepEvolves(s, steps[0]);
      StepKeepsInv(s, steps[0]);
      RemovalsPersist(Next(s, steps[0]), steps[1..], id);
    }
  }

  lemma StaleCompletion(t: State, id: ContainerId, k: CallId, now: int)
    requires Conserved(t.core) && id in t.core.removals
    ensures id !in Tracked(t.core.runtimes)
    ensures OnContainer(t, k, id) && Enabled(t, Step(Event.Complete(k), now)) ==>
              Next(t, Step(Event.Complete(k), now)).core == t.core
  {
  }

  /** Once a container leaves the table it never returns, and a call that still
      holds it changes nothing when it completes, however it went. */
  lemma StaleCompletionIsHarmless(clock: int, steps: seq<Step>, more: seq<Step>, id: ContainerId, k: CallId, now: int)
    requires IsRun(Init(clock), steps) && IsRun(Reached(clock, steps), more)
    requires id in Reached(clock, steps).core.started && id !in Tracked(Reached(clock, steps).core.runtimes)
    ensures var t := After(Reached(clock, steps), more);
            && id !in Tracked(t.core.runtimes)
            && (OnContainer(t, k, id) && Enabled(t, Step(Event.Complete(k), now)) ==>
                  Next(t, Step(Event.Complete(k), now)).core == t.core)
  {
    InvHolds(clock, steps);
    ConservedAsSets(Reached(clock, steps).core);
    RemovalsPersist(Reached(clock, steps), more, id);
    RunKeepsInv(Reached(clock, steps), more);
    StaleCompletion(After(Reached(clock, steps), more), id, k, now);
  }

  /** The call is over, its last attempt targeted `id`, and the platform gave up on it. */
  ghost predicate FailedOn(call: Call, id: ContainerId) {
    && (call.phase.Finished? || call.phase.Recorded?)
    && (call.phase.result.status.TimedOut? || call.phase.result.status.InfraError?)
    && call.attempts != [] && call.attempts[|call.attempts| - 1].target == Some(id)
  }

  lemma FailedTargetIsGone(core: Core, call: Call, id: ContainerId)
    requires CallOk(core, call) && FailedOn(call, id)
    ensures id in core.removals
  {
  }

  /** A runtime on which a call timed out or was unreachable is torn down, not
      reused: no later attempt, of any call, ever targets its container. */
  lemma FailedRuntimeIsNeverReused(
    clock: int, steps: seq<Step>, k: CallId, id: ContainerId, more: seq<Step>, j: CallId, outcome: StartOutcome, now: int)
    requires IsRun(Init(clock), steps) && IsRun(Reached(clock, steps), more)
    requires k in Reached(clock, steps).calls && FailedOn(Reached(clock, steps).calls[k], id)
    requires Enabled(After(Reached(clock, steps), more), Step(Event.Enter(j, outcome), now))
    ensures id in Reached(clock, steps).core.removals
    ensures !OnContainer(Next(After(Reached(clock, steps), more), Step(Event.Enter(j, outcome), now)), j, id)
  {
    var s := Reached(clock, steps);
    InvHolds(clock, steps);
    FailedTargetIsGone(s.core, s.calls[k], id);
    RemovalsPersist(s, more, id);
    RunKeepsInv(s, more);
    EntryAvoidsRemoved(After(s, more), j, outcome, now, id);
  }

  lemma EntryAvoidsRemoved(t: State, j: CallId, outcome: StartOutcome, now: int, id: ContainerId)
    requires Conserved(t.core) && id in t.core.removals && Enabled(t, Step(Event.Enter(j, outcome), now))
    ensures !OnContainer(Next(t, Step(Event.Enter(j, outcome), now)), j, id)
  {
  }

  // ---------------------------------------------------------------- the reaper and calls in flight

  /** A pass never removes a container with a call in flight that entered less
      than the runtime's idle timeout ago. */
  lemma ReaperSparesRecentCalls(
    clock: int, steps: seq<Step>, order: seq<FunctionName>, now: int, k: CallId, n: FunctionName)
    requires IsRun(Init(clock), steps)
    requires var s := Reached(clock, steps);
             && Enabled(s, Step(ReapPass(order), now))
             && n in s.core.runtimes
             && OnContainer(s, k, s.core.runtimes[n].containerId)
             && ElapsedMs(s.calls[k].phase.enteredAt, now) < s.core.runtimes[n].idleTimeoutMs
    ensures var s := Reached(clock, steps);
            var t := Next(s, Step(ReapPass(order), now));
            n in t.core.runtimes && t.core.runtimes[n] == s.core.runtimes[n]
  {
    TimelyAfter(clock, steps);
    var s := Reached(clock, steps);
    assert CallTimely(s.core, s.calls[k]);
    PassSpares(s.core, order, now, n, s.calls[k].phase.enteredAt);
  }

  lemma TimelyAfter(clock: int, steps: seq<Step>)
    requires IsRun(Init(clock), steps)
    ensures Timely(Reached(clock, steps))
  {
    InvHolds(clock, steps);
  }

  lemma PassSpares(c: Core, order: seq<FunctionName>, now: int, n: FunctionName, usedAt: int)
    requires Enumerates(order, c.runtimes) && n in c.runtimes
    requires c.runtimes[n].state.Idle? ==>
               usedAt <= c.runtimes[n].lastUsedAt <= now && ElapsedMs(usedAt, now) < c.runtimes[n].idleTimeoutMs
    ensures n in Reap(c, order, now).runtimes && Reap(c, order, now).runtimes[n] == c.runtimes[n]
  {
    ReapIsFilter(c, order, now);
  }

  /** No container serves two calls at once. */
  ghost predicate Exclusive(s: State) {
    forall j, k, id :: OnContainer(s, j, id) && OnContainer(s, k, id) ==> j == k
  }

  ghost predicate AlwaysExclusive(s: State, steps: seq<Step>)
    requires IsRun(s, steps)
    decreases |steps|
  {
    Exclusive(s) && (steps != [] ==> AlwaysExclusive(Next(s, steps[0]), steps[1..]))
  }

  ghost predicate ServingIsBusy(s: State) {
    forall n, k :: n in s.core.runtimes && OnContainer(s, k, s.core.runtimes[n].containerId) ==>
                     s.core.runtimes[n].state.Busy?
  }

  /** Which steps may change an entry of the table. */
  lemma EntryChange(s: State, step: Step, n: FunctionName)
    requires Enabled(s, step) && n in Next(s, step).core.runtimes
    ensures var r := Next(s, step).core.runtimes[n];
            || (n in s.core.runtimes && r == s.core.runtimes[n])
            || (step.event.Enter? && n == s.calls[step.event.k].spec.name && r.state.Busy?)
            || (step.event.Complete? && StillTracked(s.core.runtimes, n, s.calls[step.event.k].phase.id))
  {
    if step.event.ReapPass? { ReapEffect(s.core, step.event.order, step.now); }
  }

  /** Only entering puts a call on a container. */
  lemma CallerChange(s: State, step: Step, k: CallId, id: ContainerId)
    requires Enabled(s, step) && OnContainer(Next(s, step), k, id)
    ensures
      || OnContainer(s, k, id)
      || (step.event.Enter? && step.event.k == k && StillTracked(Next(s, step).core.runtimes, s.calls[k].spec.name, id))
  {
  }

  /** A completion that marks a runtime idle is that of the only call on it. */
  ghost predicate SoleCompletion(s: State, step: Step) {
    step.event.Complete? && step.event.k in s.calls && s.calls[step.event.k].phase.Answered? ==>
      var call := s.calls[step.event.k];
      call.phase.response.Answer? && StillTracked(s.core.runtimes, call.spec.name, call.phase.id) ==>
        forall j :: OnContainer(s, j, call.phase.id) ==> j == step.event.k
  }

  ghost predicate AlwaysSole(s: State, steps: seq<Step>)
    requires IsRun(s, steps)
    decreases |steps|
  {
    steps != [] ==> SoleCompletion(s, steps[0]) && AlwaysSole(Next(s, steps[0]), steps[1..])
  }

  ghost predicate AlwaysServingBusy(s: State, steps: seq<Step>)
    requires IsRun(s, steps)
    decreases |steps|
  {
    ServingIsBusy(s) && (steps != [] ==> AlwaysServingBusy(Next(s, steps[0]), steps[1..]))
  }

  lemma SoleStepKeepsBusy(s: State, step: Step)
    requires Sound(s.core) && Timely(s) && Enabled(s, step) && ServingIsBusy(s) && SoleCompletion(s, step)
    ensures ServingIsBusy(Next(s, step))
  {
    var t := Next(s, step);
    StepKeepsSound(s, step);
    forall n, k | n in t.core.runtimes && OnContainer(t, k, t.core.runtimes[n].containerId)
      ensures t.core.runtimes[n].state.Busy?
    {
      var id := t.core.runtimes[n].containerId;
      EntryChange(s, step, n);
      CallerChange(s, step, k, id);
      if step.event.Complete? {
        assert CallTimely(s.core, s.calls[step.event.k]);
      }
    }
  }

  lemma SharedCompletionBreaksBusy(s: State, step: Step)
    requires Enabled(s, step) && !SoleCompletion(s, step)
    ensures !ServingIsBusy(Next(s, step))
  {
    var k := step.event.k;
    var n, id := s.calls[k].spec.name, s.calls[k].phase.id;
    var j :| OnContainer(s, j, id) && j != k;
    var t := Next(s, step);
    assert t.core.runtimes[n].containerId == id && OnContainer(t, j, id);
  }

  lemma {:induction false} RunServingBusyIff(s: State, steps: seq<Step>)
    requires Inv(s) && IsRun(s, steps) && ServingIsBusy(s)
    ensures AlwaysServingBusy(s, steps) <==> AlwaysSole(s, steps)
    decreases |steps|
  {
    if steps != [] {
      var t, rest := Next(s, steps[0]), steps[1..];
      StepKeepsInv(s, steps[0]);
      if SoleCompletion(s, steps[0]) {
        SoleStepKeepsBusy(s, steps[0]);
        RunServingBusyIff(t, rest);
      } else {
        SharedCompletionBreaksBusy(s, steps[0]);
        assert !AlwaysServingBusy(t, rest);
      }
    }
  }

  /** A call in flight means BUSY, in every state of a run, exactly when no call
      completes with an answer on a tracked container that another call still uses. */
  lemma ServingIsBusyIff(clock: int, steps: seq<Step>)
    requires IsRun(Init(clock), steps)
    ensures AlwaysServingBusy(Init(clock), steps) <==> AlwaysSole(Init(clock), steps)
  {
    InvHolds(clock, []);
    RunServingBusyIff(Init(clock), steps);
  }

  /** Calls that never overlap on a container are a special case. */
  lemma {:induction false} ExclusiveIsSole(s: State, steps: seq<Step>)
    requires IsRun(s, steps) && AlwaysExclusive(s, steps)
    ensures AlwaysSole(s, steps)
    decreases |steps|
  {
    if steps != [] {
      if steps[0].event.Complete? { assert OnContainer(s, steps[0].event.k, s.calls[steps[0].event.k].phase.id); }
      ExclusiveIsSole(Next(s, steps[0]), steps[1..]);
    }
  }

  lemma {:induction false} BusyAtEnd(s: State, steps: seq<Step>)
    requires IsRun(s, steps) && AlwaysServingBusy(s, steps)
    ensures ServingIsBusy(After(s, steps))
    decreases |steps|
  {
    if steps != [] { BusyAtEnd(Next(s, steps[0]), steps[1..]); }
  }

  /** Under that condition no pass removes a container with a call in flight. */
  lemma ReaperSparesCallsInFlight(
    clock: int, steps: seq<Step>, order: seq<FunctionName>, now: int, k: CallId, n: FunctionName)
    requires IsRun(Init(clock), steps) && AlwaysSole(Init(clock), steps)
    requires var s := Reached(clock, steps);
             && Enabled(s, Step(ReapPass(order), now))
             && n in s.core.runtimes
             && OnContainer(s, k, s.core.runtimes[n].containerId)
    ensures var s := Reached(clock, steps);
            var t := Next(s, Step(ReapPass(order), now));
            n in t.core.runtimes && t.core.runtimes[n] == s.core.runtimes[n]
  {
    ServingIsBusyIff(clock, steps);
    BusyAtEnd(Init(clock), steps);
    PassSpares(Reached(clock, steps).core, order, now, n, now);
  }

  // ---------------------------------------------------------------- scale to zero

  /** The first clock reading at which an idle runtime may be reaped. */
  function Deadline(r: Runtime): int { r.lastUsedAt + r.idleTimeoutMs * NANOS_PER_MS }

  lemma ExpiredAtDeadline(r: Runtime, now: int)
    requires r.state.Idle? && r.lastUsedAt <= now
    ensures Expired(r, now) <==> now >= Deadline(r)
  {
  }

  /** The step neither invokes nor deletes function `n`. */
  ghost predicate QuietStep(s: State, step: Step, n: FunctionName) {
    match step.event
    case Enter(k, _) => k in s.calls ==> s.calls[k].spec.name != n
    case Delete(m) => m != n
    case _ => true
  }

  ghost predicate QuietRun(s: State, steps: seq<Step>, n: FunctionName)
    requires IsRun(s, steps)
    decreases |steps|
  {
    steps != [] ==> QuietStep(s, steps[0], n) && QuietRun(Next(s, steps[0]), steps[1..], n)
  }

  ghost predicate Unused(s: State, id: ContainerId) {
    forall k :: !OnContainer(s, k, id)
  }

  ghost predicate ReapedBy(steps: seq<Step>, deadline: int) {
    exists i :: 0 <= i < |steps| && steps[i].event.ReapPass? && steps[i].now >= deadline
  }

  lemma QuietEntry(s: State, step: Step, n: FunctionName)
    requires BusyOrIdle(s.core) && BusyIsServing(s) && StampedBy(s.core, s.clock) && Enabled(s, step) && QuietStep(s, step, n)
    requires n in s.core.runtimes && Unused(s, s.core.runtimes[n].containerId)
    ensures var r := s.core.runtimes[n];
            var t := Next(s, step);
            if step.event.ReapPass? && step.now >= Deadline(r) then
              n !in t.core.runtimes && r.containerId in t.core.removals
            else
              n in t.core.runtimes && t.core.runtimes[n] == r
  {
    var r := s.core.runtimes[n];
    assert r.state.Idle?;
    if step.event.ReapPass? {
      ExpiredAtDeadline(r, step.now);
      ReapIsFilter(s.core, step.event.order, step.now);
    } else if step.event.Complete? {
      assert OnContainer(s, step.event.k, s.calls[step.event.k].phase.id);
    }
  }

  lemma QuietStepEffect(s: State, step: Step, n: FunctionName)
    requires Inv(s) && Enabled(s, step) && QuietStep(s, step, n)
    requires n in s.core.runtimes && Unused(s, s.core.runtimes[n].containerId)
    ensures var r := s.core.runtimes[n];
            var t := Next(s, step);
            if step.event.ReapPass? && step.now >= Deadline(r) then
              n !in t.core.runtimes && r.containerId in t.core.removals
            else
              n in t.core.runtimes && t.core.runtimes[n] == r && Unused(t, r.containerId)
  {
    var r := s.core.runtimes[n];
    var t := Next(s, step);
    QuietEntry(s, step, n);
    StepKeepsSound(s, step);
    if n in t.core.runtimes {
      forall k
        ensures !OnContainer(t, k, r.containerId)
      {
        if OnContainer(t, k, r.containerId) {
          CallerChange(s, step, k, r.containerId);
          assert false;
        }
      }
    }
  }

  lemma {:induction false} QuietStaysGone(s: State, steps: seq<Step>, n: FunctionName)
    requires IsRun(s, steps) && QuietRun(s, steps, n) && n !in s.core.runtimes
    ensures n !in After(s, steps).core.runtimes
    decreases |steps|
  {
    if steps != [] {
      if steps[0].event.ReapPass? { ReapEffect(s.core, steps[0].event.order, steps[0].now); }
      QuietStaysGone(Next(s, steps[0]), steps[1..], n);
    }
  }

  lemma ReapedByFirstOrRest(steps: seq<Step>, deadline: int)
    requires steps != []
    ensures ReapedBy(steps, deadline) <==>
            (steps[0].event.ReapPass? && steps[0].now >= deadline) || ReapedBy(steps[1..], deadline)
  {
    var rest := steps[1..];
    if i :| 0 <= i < |steps| && steps[i].event.ReapPass? && steps[i].now >= deadline {
      assert i > 0 ==> rest[i - 1] == steps[i];
    }
    if i :| 0 <= i < |rest| && rest[i].event.ReapPass? && rest[i].now >= deadline {
      assert steps[i + 1] == rest[i];
    }
  }

  lemma {:induction false} QuietRunEffect(s: State, steps: seq<Step>, n: FunctionName)
    requires Inv(s) && IsRun(s, steps) && QuietRun(s, steps, n)
    requires n in s.core.runtimes && Unused(s, s.core.runtimes[n].containerId)
    ensures var r := s.core.runtimes[n];
            var t := After(s, steps);
            if ReapedBy(steps, Deadline(r)) then
              n !in t.core.runtimes && r.containerId in t.core.removals
            else
              n in t.core.runtimes && t.core.runtimes[n] == r
    decreases |steps|
  {
    if steps != [] {
      var r := s.core.runtimes[n];
      var t := Next(s, steps[0]);
      var rest := steps[1..];
      StepKeepsInv(s, steps[0]);
      QuietStepEffect(s, steps[0], n);
      ReapedByFirstOrRest(steps, Deadline(r));
      if n in t.core.runtimes {
        QuietRunEffect(t, rest, n);
      } else {
        QuietStaysGone(t, rest, n);
        RemovalsPersist(t, rest, r.containerId);
      }
    }
  }

  /** In every reachable state only BUSY and IDLE are visible, and BUSY means a
      call is in flight on that very container.  A runtime without calls is idle;
      while its function is neither invoked nor deleted it stays exactly as it is
      until the first reaper pass at or after its deadline, which hands its
      container over, and no earlier pass does. */
  lemma ScaleToZero(clock: int, steps: seq<Step>, n: FunctionName, more: seq<Step>)
    requires IsRun(Init(clock), steps) && n in Reached(clock, steps).core.runtimes
    ensures var s := Reached(clock, steps);
            var r := s.core.runtimes[n];
            && (r.state.Busy? || r.state.Idle?)
            && (r.state.Busy? ==> exists k :: OnContainer(s, k, r.containerId))
            && (Unused(s, r.containerId) && IsRun(s, more) && QuietRun(s, more, n) ==>
                  var t := After(s, more);
                  && r.state.Idle?
                  && (n in t.core.runtimes <==> !ReapedBy(more, Deadline(r)))
                  && (n in t.core.runtimes ==> t.core.runtimes[n] == r)
                  && (r.containerId in t.core.removals <==> ReapedBy(more, Deadline(r))))
  {
    InvHolds(clock, steps);
    var s := Reached(clock, steps);
    var r := s.core.runtimes[n];
    if Unused(s, r.containerId) && IsRun(s, more) && QuietRun(s, more, n) {
      QuietRunEffect(s, more, n);
      RunKeepsInv(s, more);
    }
  }
}
