/** Claims one might expect of the runtime manager that its code does not meet:
    a concrete run against each, and the exact condition under which it holds. */
module Counterexamples {
  import opened Options
  import opened Metrics
  import opened Lifecycle
  import opened Protocol
  import opened Guarantees

  lemma {:induction false} Extend(s: State, steps: seq<Step>, step: Step)
    requires IsRun(s, steps) && Enabled(After(s, steps), step)
    ensures IsRun(s, steps + [step]) && After(s, steps + [step]) == Next(After(s, steps), step)
    decreases |steps|
  {
    var longer := steps + [step];
    if steps == [] {
      assert longer[1..] == [];
    } else {
      Extend(Next(s, steps[0]), steps[1..], step);
      assert longer[1..] == steps[1..] + [step];
    }
  }

  lemma PrefixRuns(s: State, steps: seq<Step>, i: nat)
    requires i < |steps| && IsRun(s, steps[..i]) && Enabled(After(s, steps[..i]), steps[i])
    ensures IsRun(s, steps[..i + 1]) && After(s, steps[..i + 1]) == Next(After(s, steps[..i]), steps[i])
  {
    Extend(s, steps[..i], steps[i]);
    assert steps[..i] + [steps[i]] == steps[..i + 1];
  }

  const HELLO := FunctionSpec("hello", "hello:v1", 5000, 1000)

  /** Two calls in flight on one container. */
  const SHARED := [
    Step(Begin(1, HELLO), 0), Step(Event.Enter(1, Healthy("c1", 32768)), 0),
    Step(Begin(2, HELLO), 0), Step(Event.Enter(2, RunFailed), 0)]

  lemma SharedRuns()
    ensures IsRun(Init(0), SHARED)
    ensures var s := After(Init(0), SHARED);
            && s.core == EMPTY.(runtimes := map["hello" := Runtime("c1", 32768, Busy, 0, 1000)], started := {"c1"}, created := 1)
            && s.calls == map[1 := Call(HELLO, 0, [Attempt(true, Some("c1"), 0)], [], Calling("c1", 32768, true, 0)),
                              2 := Call(HELLO, 0, [Attempt(false, Some("c1"), 0)], [], Calling("c1", 32768, false, 0))]
            && s.clock == 0
  {
    PrefixRuns(Init(0), SHARED, 0);
    PrefixRuns(Init(0), SHARED, 1);
    PrefixRuns(Init(0), SHARED, 2);
    PrefixRuns(Init(0), SHARED, 3);
    assert SHARED[..4] == SHARED;
    assert [] + [Attempt(true, Some("c1"), 0)] == [Attempt(true, Some("c1"), 0)];
    assert [] + [Attempt(false, Some("c1"), 0)] == [Attempt(false, Some("c1"), 0)];
  }

  /** The second call to enter finishes first. */
  const OVERLAP := SHARED + [Step(Respond(2, Answer(200)), 0)] + [Step(Event.Complete(2), 0)]

  lemma OverlapRuns()
    ensures IsRun(Init(0), OVERLAP)
    ensures var s := After(Init(0), OVERLAP);
            && s.core.runtimes == map["hello" := Runtime("c1", 32768, Idle, 0, 1000)]
            && OnContainer(s, 1, "c1") && s.clock == 0
  {
    SharedRuns();
    Extend(Init(0), SHARED, Step(Respond(2, Answer(200)), 0));
    Extend(Init(0), SHARED + [Step(Respond(2, Answer(200)), 0)], Step(Event.Complete(2), 0));
  }

  /** With overlapping calls a runtime can be IDLE while a call is in flight on
      it, and a pass one idle timeout later takes the container away from it.
      `ServingIsBusyIff` says which runs are spared; this is not one of them. */
  lemma OverlapIsReapedInFlight()
    ensures IsRun(Init(0), OVERLAP) && !AlwaysSole(Init(0), OVERLAP)
    ensures var s := After(Init(0), OVERLAP);
            var pass := Step(ReapPass(["hello"]), 1000 * NANOS_PER_MS);
            && OnContainer(s, 1, "c1") && StillTracked(s.core.runtimes, "hello", "c1")
            && Enabled(s, pass) && OnContainer(Next(s, pass), 1, "c1") && "c1" in Next(s, pass).core.removals
  {
    OverlapRuns();
    var s := After(Init(0), OVERLAP);
    var pass := Step(ReapPass(["hello"]), 1000 * NANOS_PER_MS);
    assert Enumerates(["hello"], s.core.runtimes);
    ReapIsFilter(s.core, ["hello"], pass.now);
    assert Expired(s.core.runtimes["hello"], pass.now);
    assert !ServingIsBusy(s);
    ServingIsBusyIff(0, OVERLAP);
    if AlwaysServingBusy(Init(0), OVERLAP) { BusyAtEnd(Init(0), OVERLAP); }
  }

  /** Exactly when a pass removes a runtime, whoever is using it. */
  lemma ReaperRemovesIff(clock: int, steps: seq<Step>, order: seq<FunctionName>, now: int, n: FunctionName)
    requires IsRun(Init(clock), steps)
    requires Enabled(Reached(clock, steps), Step(ReapPass(order), now)) && n in Reached(clock, steps).core.runtimes
    ensures var s := Reached(clock, steps);
            n !in Next(s, Step(ReapPass(order), now)).core.runtimes <==>
            s.core.runtimes[n].state.Idle? && now >= Deadline(s.core.runtimes[n])
  {
    StampsAreOld(clock, steps);
    PassRemovesIff(Reached(clock, steps).core, order, now, n);
  }

  lemma StampsAreOld(clock: int, steps: seq<Step>)
    requires IsRun(Init(clock), steps)
    ensures StampedBy(Reached(clock, steps).core, Reached(clock, steps).clock)
  {
    InvHolds(clock, steps);
  }

  lemma PassRemovesIff(c: Core, order: seq<FunctionName>, now: int, n: FunctionName)
    requires Enumerates(order, c.runtimes) && n in c.runtimes && c.runtimes[n].lastUsedAt <= now
    ensures n !in Reap(c, order, now).runtimes <==> c.runtimes[n].state.Idle? && now >= Deadline(c.runtimes[n])
  {
    ReapIsFilter(c, order, now);
    if c.runtimes[n].state.Idle? { ExpiredAtDeadline(c.runtimes[n], now); }
  }

  /** While call 2 is between its attempts, call 3 recreates the runtime. */
  const BETWEEN := SHARED + [Step(Respond(2, Unreachable(true)), 0)] + [Step(Event.Complete(2), 0)]
  const REPLACED := BETWEEN + [Step(Begin(3, HELLO), 0)] + [Step(Event.Enter(3, Healthy("c2", 32769)), 0)]
                    + [Step(Event.Enter(2, RunFailed), 0)]

  lemma BetweenRuns()
    ensures IsRun(Init(0), BETWEEN)
    ensures var s := After(Init(0), BETWEEN);
            && s.core.runtimes == map[] && s.core.started == {"c1"} && s.clock == 0
            && 3 !in s.calls && 2 in s.calls && s.calls[2] == Call(HELLO, 0, [Attempt(false, Some("c1"), 0)], [Unreachable(true)], Entering)
  {
    SharedRuns();
    Extend(Init(0), SHARED, Step(Respond(2, Unreachable(true)), 0));
    Extend(Init(0), SHARED + [Step(Respond(2, Unreachable(true)), 0)], Step(Event.Complete(2), 0));
  }

  /** The retry is not always a fresh container: here the second attempt is warm. */
  lemma RetryCanBeWarm()
    ensures IsRun(Init(0), REPLACED)
    ensures var s := After(Init(0), REPLACED);
            && 2 in s.calls && s.calls[2].attempts == [Attempt(false, Some("c1"), 0), Attempt(false, Some("c2"), 0)]
            && s.calls[2].responses == [Unreachable(true)] && s.calls[2].phase.Calling? && s.clock == 0
  {
    BetweenRuns();
    var begin, enter := Step(Begin(3, HELLO), 0), Step(Event.Enter(3, Healthy("c2", 32769)), 0);
    Extend(Init(0), BETWEEN, begin);
    Extend(Init(0), BETWEEN + [begin], enter);
    Extend(Init(0), BETWEEN + [begin] + [enter], Step(Event.Enter(2, RunFailed), 0));
  }

  /** A second attempt calls `run_container` exactly when no other call has put a
      runtime back in the table by the time it gets the lock, and runs on a freshly
      created runtime exactly when, besides, that one becomes healthy. */
  lemma RetryStartsFreshIff(clock: int, steps: seq<Step>, k: CallId, outcome: StartOutcome, now: int)
    requires IsRun(Init(clock), steps)
    requires var s := Reached(clock, steps);
             Enabled(s, Step(Event.Enter(k, outcome), now)) && s.calls[k].attempts != []
    ensures var s := Reached(clock, steps);
            var call := Next(s, Step(Event.Enter(k, outcome), now)).calls[k];
            && |call.attempts| == 2
            && (call.attempts[1].ran <==> call.spec.name !in s.core.runtimes)
            && (StartedItsContainer(call.attempts[1]) <==> call.spec.name !in s.core.runtimes && outcome.Healthy?)
  {
    InvHolds(clock, steps);
    assert CallOk(Reached(clock, steps).core, Reached(clock, steps).calls[k]);
    SecondEntry(Reached(clock, steps), k, outcome, now);
  }

  lemma SecondEntry(s: State, k: CallId, outcome: StartOutcome, now: int)
    requires Enabled(s, Step(Event.Enter(k, outcome), now)) && |s.calls[k].attempts| == 1
    ensures var call := Next(s, Step(Event.Enter(k, outcome), now)).calls[k];
            && |call.attempts| == 2
            && (call.attempts[1].ran <==> call.spec.name !in s.core.runtimes)
            && (StartedItsContainer(call.attempts[1]) <==> call.spec.name !in s.core.runtimes && outcome.Healthy?)
  {
    EntryAttempt(s, k, outcome, now);
  }

  // ---------------------------------------------------------------- one request, two containers

  const RESENT := REPLACED + [Step(Respond(2, Answer(200)), 0)] + [Step(Event.Complete(2), 0)]

  /** The retry is not always of a request that never arrived: the first container
      took this one and answered nothing.  `SentTwiceIff` says exactly when. */
  lemma RequestCanBeSentTwice()
    ensures IsRun(Init(0), RESENT)
    ensures var s := After(Init(0), RESENT);
            2 in s.calls && SentTo(s.calls[2]) == {"c1", "c2"} && s.calls[2].phase.Finished? && s.calls[2].phase.result.status == Success
  {
    RetryCanBeWarm();
    Extend(Init(0), REPLACED, Step(Respond(2, Answer(200)), 0));
    Extend(Init(0), REPLACED + [Step(Respond(2, Answer(200)), 0)], Step(Event.Complete(2), 0));
    var call := After(Init(0), RESENT).calls[2];
    assert call.responses == [Unreachable(true), Answer(200)];
    assert call.attempts == [Attempt(false, Some("c1"), 0), Attempt(false, Some("c2"), 0)];
    SentToBoth(call);
  }

  lemma SentToBoth(call: Call)
    requires call.responses == [Unreachable(true), Answer(200)]
    requires call.attempts == [Attempt(false, Some("c1"), 0), Attempt(false, Some("c2"), 0)]
    ensures SentTo(call) == {"c1", "c2"}
  {
    assert call.attempts[0].target.value in SentTo(call) && call.attempts[1].target.value in SentTo(call);
  }

  // ---------------------------------------------------------------- a cold start that failed

  const FAILED := [
    Step(Begin(1, HELLO), 0), Step(Event.Enter(1, NeverHealthy("c1")), 0), Step(Measure(1), 0), Step(Record(1), 0)]

  /** A cold start that fails is recorded as an infrastructure error that was not
      cold.  `ColdFlagIff` says exactly when the flag is set. */
  lemma FailedStartIsNotCold()
    ensures IsRun(Init(0), FAILED)
    ensures var s := After(Init(0), FAILED);
            && 1 in s.calls && s.calls[1].phase == Recorded(Observation(InfraError, false, 0.0))
            && s.core.started == {"c1"} && s.core.removals == ["c1"] && s.core.created == 0
            && s.core.log == [Observation(InfraError, false, 0.0)]
  {
    PrefixRuns(Init(0), FAILED, 0);
    PrefixRuns(Init(0), FAILED, 1);
    PrefixRuns(Init(0), FAILED, 2);
    PrefixRuns(Init(0), FAILED, 3);
    assert FAILED[..4] == FAILED;
  }
}
