/** The request handlers that tie the registry to the runtime manager
    (control-plane/src/main.cpp): deploy, delete, invoke, with the reaper and
    restarts interleaved.  The registry is a table of the database, which sees
    every text up to its first NUL; the manager compares whole names. */
module ControlPlane {
  import opened Options
  import opened Text
  import opened Metrics
  import L = Lifecycle
  import P = Protocol

  type Name = L.FunctionName
  type HandlerId = nat

  /** `fetched` holds invoke handlers that have looked their function up but not
      called the manager, `deleting` delete handlers between their two statements. */
  datatype State = State(
    registry: map<Name, L.FunctionSpec>,
    manager: P.State,
    fetched: map<P.CallId, L.FunctionSpec>,
    deleting: map<HandlerId, Name>)

  datatype Event =
    | Deploy(spec: L.FunctionSpec)
    | Fetch(k: P.CallId, name: Name)        // invoke: registry.get
    | Forget(h: HandlerId, name: Name)      // delete: registry.remove
    | Stop(h: HandlerId, now: int)          // delete: runtime_manager.terminate
    | Manage(step: P.Step)                  // a step of an invocation or of the reaper
    | Restart(now: int)

  ghost predicate Enabled(s: State, e: Event) {
    match e
    case Deploy(_) => true
    case Fetch(k, _) => k !in s.fetched && k !in s.manager.calls
    case Forget(h, _) => h !in s.deleting
    case Stop(h, now) => h in s.deleting && s.manager.clock <= now
    case Manage(step) =>
      && P.Enabled(s.manager, step)
      && !step.event.Delete?
      && (step.event.Begin? ==> step.event.k in s.fetched && s.fetched[step.event.k] == step.event.spec)
    case Restart(now) => s.manager.clock <= now
  }

  /** A spec as the database gives it back. */
  function Stored(spec: L.FunctionSpec): L.FunctionSpec {
    spec.(name := UpToNul(spec.name), image := UpToNul(spec.image))
  }

  ghost function Next(s: State, e: Event): State
    requires Enabled(s, e)
  {
    match e
    case Deploy(spec) => s.(registry := s.registry[UpToNul(spec.name) := Stored(spec)])
    case Fetch(k, name) =>
      if UpToNul(name) in s.registry then s.(fetched := s.fetched[k := s.registry[UpToNul(name)]]) else s
    case Forget(h, name) =>
      if UpToNul(name) in s.registry then s.(registry := s.registry - {UpToNul(name)}, deleting := s.deleting[h := name])
      else s
    case Stop(h, now) =>
      s.(manager := P.Next(s.manager, P.Step(P.Delete(s.deleting[h]), now)), deleting := s.deleting - {h})
    case Manage(step) =>
      s.(manager := P.Next(s.manager, step),
         fetched := if step.event.Begin? then s.fetched - {step.event.k} else s.fetched)
    case Restart(now) => State(s.registry, P.Init(now), map[], map[])
  }

  ghost predicate IsRun(s: State, events: seq<Event>)
    decreases |events|
  {
    events != [] ==> Enabled(s, events[0]) && IsRun(Next(s, events[0]), events[1..])
  }

  ghost function After(s: State, events: seq<Event>): State
    requires IsRun(s, events)
    decreases |events|
  {
    if events == [] then s else After(Next(s, events[0]), events[1..])
  }

  ghost predicate Fresh(s: State) {
    && s.manager == P.Init(s.manager.clock) && s.fetched == map[] && s.deleting == map[]
    && forall n :: n in s.registry ==> s.registry[n].name == n && NulFree(n)
  }

  // ---------------------------------------------------------------- what the registry remembers

  /** The event neither deploys nor deletes the function. */
  ghost predicate Spares(e: Event, n: Name) {
    && (e.Deploy? ==> UpToNul(e.spec.name) != n)
    && (e.Forget? ==> UpToNul(e.name) != n)
  }

  ghost predicate AllSpare(events: seq<Event>, n: Name) {
    forall i :: 0 <= i < |events| ==> Spares(events[i], n)
  }

  lemma AllSpareTail(events: seq<Event>, n: Name)
    requires events != [] && AllSpare(events, n)
    ensures Spares(events[0], n) && AllSpare(events[1..], n)
  {
    assert forall i :: 0 <= i < |events[1..]| ==> events[1..][i] == events[i + 1];
  }

  lemma StepSpares(s: State, e: Event, n: Name)
    requires Enabled(s, e) && Spares(e, n)
    ensures n in Next(s, e).registry <==> n in s.registry
    ensures n in s.registry ==> Next(s, e).registry[n] == s.registry[n]
  {
  }

  /** Nothing but a deploy or a delete of it changes what is registered under a name:
      no invocation, no reaper pass and no restart. */
  lemma {:induction false} RegistryRemembers(s: State, events: seq<Event>, n: Name)
    requires IsRun(s, events) && AllSpare(events, n)
    ensures n in After(s, events).registry <==> n in s.registry
    ensures n in s.registry ==> After(s, events).registry[n] == s.registry[n]
    decreases |events|
  {
    if events != [] {
      AllSpareTail(events, n);
      StepSpares(s, events[0], n);
      RegistryRemembers(Next(s, events[0]), events[1..], n);
    }
  }

  /** After a deploy, new or repeated, every invoke of the function gets that spec, its
      texts up to their first NUL and its timeouts as given, until the next deploy or
      delete of it. */
  lemma DeployIsServed(s: State, spec: L.FunctionSpec, events: seq<Event>, k: P.CallId, name: Name)
    requires IsRun(Next(s, Deploy(spec)), events) && AllSpare(events, UpToNul(spec.name))
    requires UpToNul(name) == UpToNul(spec.name)
    requires Enabled(After(Next(s, Deploy(spec)), events), Fetch(k, name))
    ensures var t := Next(After(Next(s, Deploy(spec)), events), Fetch(k, name));
            && k in t.fetched
            && t.fetched[k] == L.FunctionSpec(UpToNul(spec.name), UpToNul(spec.image), spec.timeoutMs, spec.idleTimeoutMs)
  {
    RegistryRemembers(Next(s, Deploy(spec)), events, UpToNul(spec.name));
  }

  /** After a delete no invoke finds the function, and no further delete, until it is
      deployed: the requests are refused and change nothing. */
  lemma DeleteIsServed(s: State, h: HandlerId, gone: Name, events: seq<Event>, e: Event)
    requires Enabled(s, Forget(h, gone)) && IsRun(Next(s, Forget(h, gone)), events)
    requires AllSpare(events, UpToNul(gone))
    requires (e.Fetch? || e.Forget?) && UpToNul(e.name) == UpToNul(gone)
    requires Enabled(After(Next(s, Forget(h, gone)), events), e)
    ensures Next(After(Next(s, Forget(h, gone)), events), e) == After(Next(s, Forget(h, gone)), events)
  {
    RegistryRemembers(Next(s, Forget(h, gone)), events, UpToNul(gone));
  }

  // ---------------------------------------------------------------- any interleaving

  ghost predicate Deleting(s: State, n: Name) { exists h :: h in s.deleting && s.deleting[h] == n }

  /** The function is registered, or its runtime is about to be stopped. */
  ghost predicate Covered(s: State, n: Name) { n in s.registry || Deleting(s, n) }

  ghost predicate AllCovered(s: State) {
    forall n :: n in s.manager.core.runtimes ==> Covered(s, n)
  }

  /** A cold start that is about to succeed is for a function that is covered. */
  ghost predicate LaunchCovered(s: State, e: Event) {
    e.Manage? && P.ColdEntry(s.manager, e.step) && e.step.event.outcome.Healthy? ==>
      Covered(s, s.manager.calls[e.step.event.k].spec.name)
  }

  /** A delete about to take a function with a runtime from the registry names it as
      the manager does, or another delete has done so. */
  ghost predicate ForgetCovered(s: State, e: Event) {
    e.Forget? && UpToNul(e.name) in s.registry && UpToNul(e.name) in s.manager.core.runtimes ==>
      NulFree(e.name) || Deleting(s, UpToNul(e.name))
  }

  ghost predicate AlwaysCovered(s: State, events: seq<Event>)
    requires IsRun(s, events)
    decreases |events|
  {
    AllCovered(s) && (events != [] ==> AlwaysCovered(Next(s, events[0]), events[1..]))
  }

  ghost predicate StepsCovered(s: State, events: seq<Event>)
    requires IsRun(s, events)
    decreases |events|
  {
    events != [] ==>
      LaunchCovered(s, events[0]) && ForgetCovered(s, events[0]) && StepsCovered(Next(s, events[0]), events[1..])
  }

  /** Only an invocation's entry adds a name to the table. */
  lemma NamesAdded(s: State, e: Event, n: Name)
    requires Enabled(s, e) && n in Next(s, e).manager.core.runtimes && n !in s.manager.core.runtimes
    ensures e.Manage? && P.ColdEntry(s.manager, e.step) && e.step.event.outcome.Healthy?
    ensures n == s.manager.calls[e.step.event.k].spec.name
  {
    if e.Manage? && e.step.event.ReapPass? { L.ReapEffect(s.manager.core, e.step.event.order, e.step.now); }
  }

  lemma LaunchAddsName(s: State, e: Event)
    requires Enabled(s, e) && e.Manage? && P.ColdEntry(s.manager, e.step) && e.step.event.outcome.Healthy?
    ensures s.manager.calls[e.step.event.k].spec.name in Next(s, e).manager.core.runtimes
    ensures s.manager.calls[e.step.event.k].spec.name !in s.manager.core.runtimes
  {
  }

  /** What is tracked before a step keeps its cover unless a delete takes it. */
  lemma OldCoverKept(s: State, e: Event, n: Name)
    requires Enabled(s, e) && Covered(s, n) && n in s.manager.core.runtimes && n in Next(s, e).manager.core.runtimes
    ensures Covered(Next(s, e), n) <==> (e.Forget? && UpToNul(e.name) == n && n in s.registry ==> NulFree(e.name) || Deleting(s, n))
  {
    var t := Next(s, e);
    if Deleting(s, n) {
      var h :| h in s.deleting && s.deleting[h] == n;
      assert h in t.deleting && t.deleting[h] == n;
    } else if e.Forget? && UpToNul(e.name) == n {
      assert e.h in t.deleting && t.deleting[e.h] == e.name;
    }
  }

  lemma NewCoverKept(s: State, e: Event, n: Name)
    requires Enabled(s, e) && n !in s.manager.core.runtimes && n in Next(s, e).manager.core.runtimes
    ensures Covered(Next(s, e), n) <==> Covered(s, n)
  {
    NamesAdded(s, e, n);
  }

  lemma CoveredStep(s: State, e: Event)
    requires Enabled(s, e) && AllCovered(s) && LaunchCovered(s, e) && ForgetCovered(s, e)
    ensures AllCovered(Next(s, e))
  {
    forall n | n in Next(s, e).manager.core.runtimes
      ensures Covered(Next(s, e), n)
    {
      if n in s.manager.core.runtimes {
        OldCoverKept(s, e, n);
      } else {
        NewCoverKept(s, e, n);
        NamesAdded(s, e, n);
      }
    }
  }

  lemma StepCovered(s: State, e: Event)
    requires Enabled(s, e) && AllCovered(s)
    ensures AllCovered(Next(s, e)) <==> LaunchCovered(s, e) && ForgetCovered(s, e)
  {
    if !LaunchCovered(s, e) {
      LaunchAddsName(s, e);
      NewCoverKept(s, e, s.manager.calls[e.step.event.k].spec.name);
    } else if !ForgetCovered(s, e) {
      OldCoverKept(s, e, UpToNul(e.name));
    } else {
      CoveredStep(s, e);
    }
  }

  /** Every runtime in the table belongs to a covered function in every state of a run
      exactly when every cold start happened for one and every delete of one with a
      runtime named it as the manager does. */
  lemma {:induction false} CoveredIff(s: State, events: seq<Event>)
    requires IsRun(s, events) && AllCovered(s)
    ensures AlwaysCovered(s, events) <==> StepsCovered(s, events)
    decreases |events|
  {
    if events != [] {
      var t := Next(s, events[0]);
      StepCovered(s, events[0]);
      if AllCovered(t) {
        CoveredIff(t, events[1..]);
      } else {
        assert !AlwaysCovered(t, events[1..]);
      }
    }
  }

  // ---------------------------------------------------------------- handlers that do not overlap

  ghost predicate Quiescent(s: State) {
    && s.fetched == map[] && s.deleting == map[]
    && forall k :: k in s.manager.calls ==> s.manager.calls[k].phase.Recorded?
  }

  /** A request is taken up only when no other is being handled. */
  ghost predicate SerialRun(s: State, events: seq<Event>)
    requires IsRun(s, events)
    decreases |events|
  {
    events != [] ==>
      && (events[0].Deploy? || events[0].Fetch? || events[0].Forget? ==> Quiescent(s))
      && SerialRun(Next(s, events[0]), events[1..])
  }

  ghost predicate Orderly(s: State) {
    && (forall n :: n in s.registry ==> s.registry[n].name == n)
    && (forall k :: k in s.fetched ==> s.fetched[k].name in s.registry && s.deleting == map[])
    && (forall k :: k in s.manager.calls && !s.manager.calls[k].phase.Recorded? ==>
          s.manager.calls[k].spec.name in s.registry && s.deleting == map[])
  }

  lemma SerialStep(s: State, e: Event)
    requires Enabled(s, e) && Orderly(s)
    requires e.Deploy? || e.Fetch? || e.Forget? ==> Quiescent(s)
    ensures Orderly(Next(s, e)) && LaunchCovered(s, e)
  {
  }

  /** The delete request names its function without a NUL, or hits none that is
      registered and has a runtime. */
  predicate PlainDelete(s: State, e: Event) {
    e.Forget? && !NulFree(e.name) ==> !(UpToNul(e.name) in s.registry && UpToNul(e.name) in s.manager.core.runtimes)
  }

  ghost predicate PlainDeletes(s: State, events: seq<Event>)
    requires IsRun(s, events)
    decreases |events|
  {
    events != [] ==> PlainDelete(s, events[0]) && PlainDeletes(Next(s, events[0]), events[1..])
  }

  lemma {:induction false} SerialRunCovered(s: State, events: seq<Event>)
    requires IsRun(s, events) && SerialRun(s, events) && Orderly(s)
    ensures StepsCovered(s, events) <==> PlainDeletes(s, events)
    ensures Orderly(After(s, events))
    decreases |events|
  {
    if events != [] {
      SerialStep(s, events[0]);
      assert Quiescent(s) ==> !Deleting(s, if events[0].Forget? then UpToNul(events[0].name) else "");
      SerialRunCovered(Next(s, events[0]), events[1..]);
    }
  }

  lemma {:induction false} AlwaysCoveredAtEnd(s: State, events: seq<Event>)
    requires IsRun(s, events) && AlwaysCovered(s, events)
    ensures AllCovered(After(s, events))
    decreases |events|
  {
    if events != [] { AlwaysCoveredAtEnd(Next(s, events[0]), events[1..]); }
  }

  /** When handlers do not overlap, every runtime belongs to a covered function in
      every state, and so between requests to a registered one, exactly when no
      delete whose name holds a NUL hits a function with a runtime. */
  lemma SerialHandlersKeepRegistered(s: State, events: seq<Event>)
    requires Fresh(s) && IsRun(s, events) && SerialRun(s, events)
    ensures AlwaysCovered(s, events) <==> PlainDeletes(s, events)
    ensures PlainDeletes(s, events) && Quiescent(After(s, events)) ==>
              forall n :: n in After(s, events).manager.core.runtimes ==> n in After(s, events).registry
  {
    SerialRunCovered(s, events);
    CoveredIff(s, events);
    if PlainDeletes(s, events) { AlwaysCoveredAtEnd(s, events); }
  }

  // ---------------------------------------------------------------- when a delete is final

  /** The call has not entered, or will be back for a second attempt if its container
      turns out to be dead. */
  predicate CallMayEnter(call: P.Call) {
    match call.phase
    case Entering => true
    case Calling(_, _, cold, _) => !cold && |call.attempts| == 1
    case Answered(_, cold, _, response, _) => !cold && |call.attempts| == 1 && response.Unreachable?
    case _ => false
  }

  ghost predicate HeldBy(s: State, name: Name, k: P.CallId) {
    || (k in s.fetched && s.fetched[k].name == name)
    || (k in s.manager.calls && s.manager.calls[k].spec.name == name && CallMayEnter(s.manager.calls[k]))
  }

  /** Some handler that looked `name` up may still start a runtime for it. */
  ghost predicate MayStillEnter(s: State, name: Name) { exists k :: HeldBy(s, name, k) }

  /** Nothing is registered under `name`. */
  ghost predicate NoDeploy(events: seq<Event>, name: Name) {
    forall i :: 0 <= i < |events| && events[i].Deploy? ==> UpToNul(events[i].spec.name) != name
  }

  ghost predicate LeadsToRuntime(s: State, events: seq<Event>, name: Name) {
    IsRun(s, events) && NoDeploy(events, name) && name in After(s, events).manager.core.runtimes
  }

  /** However the handlers go on, `name` has no runtime until it is deployed again. */
  ghost predicate GoneForGood(s: State, name: Name) {
    forall events :: !LeadsToRuntime(s, events, name)
  }

  ghost predicate Tidy(s: State) {
    && (forall n :: n in s.registry ==> s.registry[n].name == n && NulFree(n))
    && (forall k :: k in s.fetched ==> k !in s.manager.calls)
  }

  lemma {:induction false} RunKeepsTidy(s: State, events: seq<Event>)
    requires IsRun(s, events) && Tidy(s)
    ensures Tidy(After(s, events))
    decreases |events|
  {
    if events != [] {
      StepKeepsTidy(s, events[0]);
      RunKeepsTidy(Next(s, events[0]), events[1..]);
    }
  }

  lemma StepKeepsTidy(s: State, e: Event)
    requires Enabled(s, e) && Tidy(s)
    ensures Tidy(Next(s, e))
  {
  }

  ghost predicate Settled(s: State, name: Name) {
    name !in s.registry && name !in s.manager.core.runtimes && !MayStillEnter(s, name)
  }

  lemma HoldersStay(s: State, e: Event, name: Name, k: P.CallId)
    requires Enabled(s, e) && Tidy(s) && name !in s.registry && HeldBy(Next(s, e), name, k)
    ensures HeldBy(s, name, k)
  {
  }

  lemma StepStaysSettled(s: State, e: Event, name: Name)
    requires Enabled(s, e) && Tidy(s) && Settled(s, name) && (e.Deploy? ==> UpToNul(e.spec.name) != name)
    ensures Settled(Next(s, e), name)
  {
    var t := Next(s, e);
    if name in t.manager.core.runtimes {
      NamesAdded(s, e, name);
      assert HeldBy(s, name, e.step.event.k);
      assert false;
    }
    if MayStillEnter(t, name) {
      var k :| HeldBy(t, name, k);
      HoldersStay(s, e, name, k);
      assert false;
    }
  }

  lemma {:induction false} RunStaysSettled(s: State, events: seq<Event>, name: Name)
    requires IsRun(s, events) && Tidy(s) && Settled(s, name) && NoDeploy(events, name)
    ensures Settled(After(s, events), name)
    decreases |events|
  {
    if events != [] {
      NoDeployTail(events, name);
      StepKeepsTidy(s, events[0]);
      StepStaysSettled(s, events[0], name);
      RunStaysSettled(Next(s, events[0]), events[1..], name);
    }
  }

  lemma NoDeployTail(events: seq<Event>, name: Name)
    requires events != [] && NoDeploy(events, name)
    ensures events[0].Deploy? ==> UpToNul(events[0].spec.name) != name
    ensures NoDeploy(events[1..], name)
  {
    forall i | 0 <= i < |events[1..]| && events[1..][i].Deploy?
      ensures UpToNul(events[1..][i].spec.name) != name
    {
      assert events[1..][i] == events[i + 1];
    }
  }

  // The other direction: from each way of not being settled, a run that gets a runtime.

  lemma StepThen(s: State, e: Event, name: Name)
    requires Enabled(s, e) && !e.Deploy? && !GoneForGood(Next(s, e), name)
    ensures !GoneForGood(s, name)
  {
    var rest :| LeadsToRuntime(Next(s, e), rest, name);
    var events := [e] + rest;
    assert events[1..] == rest;
    Unroll(s, events);
    forall i | 0 <= i < |events| && events[i].Deploy?
      ensures UpToNul(events[i].spec.name) != name
    {
      assert events[i] == rest[i - 1];
    }
    assert LeadsToRuntime(s, events, name);
  }

  lemma AlreadyThere(s: State, name: Name)
    requires name in s.manager.core.runtimes
    ensures !GoneForGood(s, name)
  {
    assert LeadsToRuntime(s, [], name);
  }

  lemma {:induction false} LongerThanAll(ids: set<string>) returns (length: nat)
    ensures forall id :: id in ids ==> |id| < length
    decreases |ids|
  {
    length := 0;
    if ids != {} {
      var id :| id in ids;
      var rest := LongerThanAll(ids - {id});
      length := if rest > |id| then rest else |id| + 1;
    }
  }

  lemma {:induction false} LargerThanAll(ks: set<nat>) returns (bound: nat)
    ensures forall k :: k in ks ==> k < bound
    decreases |ks|
  {
    bound := 0;
    if ks != {} {
      var k :| k in ks;
      var rest := LargerThanAll(ks - {k});
      bound := if rest > k then rest else k + 1;
      assert forall j :: j in ks ==> j == k || j in ks - {k};
    }
  }

  lemma EnteringGetsRuntime(s: State, k: P.CallId)
    requires k in s.manager.calls && s.manager.calls[k].phase.Entering?
    ensures !GoneForGood(s, s.manager.calls[k].spec.name)
  {
    var name := s.manager.calls[k].spec.name;
    if name in s.manager.core.runtimes {
      AlreadyThere(s, name);
    } else {
      var length := LongerThanAll(s.manager.core.started);
      var id := seq(length, _ => 'x');
      assert |id| == length;
      var e := Manage(P.Step(P.Enter(k, L.Healthy(id, 1)), s.manager.clock));
      AlreadyThere(Next(s, e), name);
      StepThen(s, e, name);
    }
  }

  lemma AnsweredGetsRuntime(s: State, k: P.CallId)
    requires k in s.manager.calls && s.manager.calls[k].phase.Answered? && CallMayEnter(s.manager.calls[k])
    ensures !GoneForGood(s, s.manager.calls[k].spec.name)
  {
    var e := Manage(P.Step(P.Complete(k), s.manager.clock));
    EnteringGetsRuntime(Next(s, e), k);
    StepThen(s, e, s.manager.calls[k].spec.name);
  }

  lemma CallingGetsRuntime(s: State, k: P.CallId)
    requires k in s.manager.calls && s.manager.calls[k].phase.Calling? && CallMayEnter(s.manager.calls[k])
    ensures !GoneForGood(s, s.manager.calls[k].spec.name)
  {
    var e := Manage(P.Step(P.Respond(k, L.Unreachable(false)), s.manager.clock));
    AnsweredGetsRuntime(Next(s, e), k);
    StepThen(s, e, s.manager.calls[k].spec.name);
  }

  lemma FetchedGetsRuntime(s: State, k: P.CallId)
    requires Tidy(s) && k in s.fetched
    ensures !GoneForGood(s, s.fetched[k].name)
  {
    var e := Manage(P.Step(P.Begin(k, s.fetched[k]), s.manager.clock));
    EnteringGetsRuntime(Next(s, e), k);
    StepThen(s, e, s.fetched[k].name);
  }

  lemma RegisteredGetsRuntime(s: State, name: Name)
    requires Tidy(s) && name in s.registry
    ensures !GoneForGood(s, name)
  {
    var k := LargerThanAll(s.fetched.Keys + s.manager.calls.Keys);
    assert k !in s.fetched && k !in s.manager.calls;
    var e := Fetch(k, name);
    FetchedGetsRuntime(Next(s, e), k);
    StepThen(s, e, name);
  }

  lemma UnsettledGetsRuntime(s: State, name: Name)
    requires Tidy(s) && !Settled(s, name)
    ensures !GoneForGood(s, name)
  {
    if name in s.registry {
      RegisteredGetsRuntime(s, name);
    } else if name in s.manager.core.runtimes {
      AlreadyThere(s, name);
    } else {
      var k :| HeldBy(s, name, k);
      if k in s.fetched && s.fetched[k].name == name {
        FetchedGetsRuntime(s, k);
      } else {
        match s.manager.calls[k].phase
        case Entering => EnteringGetsRuntime(s, k);
        case Calling(_, _, _, _) => CallingGetsRuntime(s, k);
        case Answered(_, _, _, _, _) => AnsweredGetsRuntime(s, k);
      }
    }
  }

  /** In every reachable state of every interleaving: a function has no runtime in
      any future without a deploy of it exactly when it has none now, is not
      registered, and no handler that looked it up may still enter. */
  lemma GoneForGoodIff(s: State, events: seq<Event>, name: Name)
    requires Fresh(s) && IsRun(s, events)
    ensures var t := After(s, events);
            GoneForGood(t, name) <==>
            name !in t.registry && name !in t.manager.core.runtimes && !MayStillEnter(t, name)
  {
    RunKeepsTidy(s, events);
    var t := After(s, events);
    if Settled(t, name) {
      forall more
        ensures !LeadsToRuntime(t, more, name)
      {
        if IsRun(t, more) && NoDeploy(more, name) { RunStaysSettled(t, more, name); }
      }
    } else {
      UnsettledGetsRuntime(t, name);
    }
  }

  /** The second statement of a delete request for `name`, which has taken the function
      `gone` from the registry.  If the name holds no NUL, they are the same and have
      no runtime now.  The function is without one for good exactly when, besides, it
      was not deployed again meanwhile and no invoke that looked it up may still enter. */
  lemma DeleteIsFinalIff(s: State, events: seq<Event>, h: HandlerId, now: int)
    requires Fresh(s) && IsRun(s, events) && Enabled(After(s, events), Stop(h, now))
    ensures var t := After(s, events);
            var name, gone := t.deleting[h], UpToNul(t.deleting[h]);
            var u := Next(t, Stop(h, now));
            && (gone !in u.manager.core.runtimes <==> NulFree(name) || gone !in t.manager.core.runtimes)
            && (GoneForGood(u, gone) <==>
                  && (NulFree(name) || gone !in t.manager.core.runtimes)
                  && gone !in t.registry && !MayStillEnter(t, gone))
  {
    var t := After(s, events);
    var e, gone := Stop(h, now), UpToNul(t.deleting[h]);
    var u := Next(t, e);
    RunsExtend(s, events, e);
    GoneForGoodIff(s, events + [e], gone);
    assert forall k :: HeldBy(u, gone, k) <==> HeldBy(t, gone, k);
  }

  lemma {:induction false} RunsExtend(s: State, events: seq<Event>, e: Event)
    requires IsRun(s, events) && Enabled(After(s, events), e)
    ensures IsRun(s, events + [e]) && After(s, events + [e]) == Next(After(s, events), e)
    decreases |events|
  {
    var longer := events + [e];
    if events == [] {
      assert longer[1..] == [];
    } else {
      RunsExtend(Next(s, events[0]), events[1..], e);
      assert longer[1..] == events[1..] + [e];
    }
  }

  /** After requests that overlapped no other, a function that is not registered and
      not being deleted is gone for good exactly when it has no runtime, whatever
      overlaps later; and it has none if no delete's name held a NUL and hit it. */
  lemma SerialDeleteIsFinal(s: State, events: seq<Event>, name: Name)
    requires Fresh(s) && IsRun(s, events) && SerialRun(s, events)
    requires name !in After(s, events).registry && !Deleting(After(s, events), name)
    ensures GoneForGood(After(s, events), name) <==> name !in After(s, events).manager.core.runtimes
    ensures PlainDeletes(s, events) ==> GoneForGood(After(s, events), name)
  {
    SerialHandlersKeepRegistered(s, events);
    SerialRunCovered(s, events);
    GoneForGoodIff(s, events, name);
    if PlainDeletes(s, events) { AlwaysCoveredAtEnd(s, events); }
  }

  // ---------------------------------------------------------------- two runs that leave a runtime behind

  const HELLO := L.FunctionSpec("hello", "hello:v1", 5000, 1000)

  ghost const START := State(map[], P.Init(0), map[], map[])

  ghost predicate Leads(s: State, e: Event, t: State) { Enabled(s, e) && Next(s, e) == t }

  ghost predicate Reaches(events: seq<Event>, t: State) { IsRun(START, events) && After(START, events) == t }

  ghost predicate ReachesSerially(events: seq<Event>, t: State) { Reaches(events, t) && SerialRun(START, events) }

  lemma Chain(events: seq<Event>, s: State, e: Event, t: State)
    requires Reaches(events, s) && Leads(s, e, t)
    ensures Reaches(events + [e], t)
  {
    RunsExtend(START, events, e);
  }

  lemma SerialChain(events: seq<Event>, s: State, e: Event, t: State)
    requires ReachesSerially(events, s) && Leads(s, e, t)
    requires e.Deploy? || e.Fetch? || e.Forget? ==> Quiescent(s)
    ensures ReachesSerially(events + [e], t)
  {
    Chain(events, s, e, t);
    SerialExtends(START, events, e);
  }

  lemma {:induction false} SerialExtends(s: State, events: seq<Event>, e: Event)
    requires IsRun(s, events) && SerialRun(s, events) && Enabled(After(s, events), e) && IsRun(s, events + [e])
    requires e.Deploy? || e.Fetch? || e.Forget? ==> Quiescent(After(s, events))
    ensures SerialRun(s, events + [e])
    decreases |events|
  {
    var longer := events + [e];
    if events == [] {
      assert longer[1..] == [];
    } else {
      assert longer[1..] == events[1..] + [e];
      SerialExtends(Next(s, events[0]), events[1..], e);
    }
  }

  lemma TextsOfHello()
    ensures UpToNul("hello") == "hello" && UpToNul("hello:v1") == "hello:v1" && Stored(HELLO) == HELLO
    ensures UpToNul("hello\0x") == "hello" && !NulFree("hello\0x") && "hello\0x" != "hello"
  {
    assert NulFree("hello") && NulFree("hello:v1");
    NulNameIsCut();
  }

  lemma NulNameIsCut()
    ensures UpToNul("hello\0x") == "hello" && !NulFree("hello\0x") && "hello\0x" != "hello"
  {
    var name := "hello\0x";
    assert name[5] == '\0';
    assert FindChar(name, '\0') == Some(5);
    assert name[..5] == "hello";
  }

  /** `hello` is deployed and an invoke of it has looked it up. */
  ghost const HELD := State(map["hello" := HELLO], P.Init(0), map[1 := HELLO], map[])

  lemma HeldIsReached()
    ensures Fresh(START) && ReachesSerially([Deploy(HELLO)] + [Fetch(1, "hello")], HELD)
  {
    TakenUp();
    var deployed := START.(registry := map["hello" := HELLO]);
    SerialChain([], START, Deploy(HELLO), deployed);
    assert [] + [Deploy(HELLO)] == [Deploy(HELLO)];
    SerialChain([Deploy(HELLO)], deployed, Fetch(1, "hello"), HELD);
  }

  lemma TakenUp()
    ensures Leads(START, Deploy(HELLO), START.(registry := map["hello" := HELLO]))
    ensures Leads(START.(registry := map["hello" := HELLO]), Fetch(1, "hello"), HELD)
  {
    TextsOfHello();
  }

  const BEGIN := Manage(P.Step(P.Begin(1, HELLO), 0))
  const ENTER := Manage(P.Step(P.Enter(1, L.Healthy("c1", 32768)), 0))
  const RESPOND := Manage(P.Step(P.Respond(1, L.Answer(200)), 0))
  const COMPLETE := Manage(P.Step(P.Complete(1), 0))
  const RECORD := Manage(P.Step(P.Record(1), 0))

  ghost function Table(state: L.RuntimeState): L.Core {
    L.EMPTY.(runtimes := map["hello" := L.Runtime("c1", 32768, state, 0, 1000)], started := {"c1"}, created := 1)
  }

  ghost function With(registry: map<Name, L.FunctionSpec>, core: L.Core, call: P.Call): State {
    State(registry, P.State(core, map[1 := call], 0), map[], map[])
  }

  const WAITING := P.Call(HELLO, 0, [], [], P.Entering)
  const CALLING := WAITING.(attempts := [P.Attempt(true, Some("c1"), 0)], phase := P.Calling("c1", 32768, true, 0))

  lemma Launches(registry: map<Name, L.FunctionSpec>)
    ensures Leads(State(registry, P.Init(0), map[1 := HELLO], map[]), BEGIN, With(registry, L.EMPTY, WAITING))
    ensures Leads(With(registry, L.EMPTY, WAITING), ENTER, With(registry, Table(L.Busy), CALLING))
  {
    assert [] + [P.Attempt(true, Some("c1"), 0)] == [P.Attempt(true, Some("c1"), 0)];
  }

  /** An invoke that looked its function up before a delete starts a runtime after it. */
  const RACE := [Deploy(HELLO)] + [Fetch(1, "hello")] + [Forget(2, "hello")] + [Stop(2, 0)] + [BEGIN] + [ENTER]

  lemma ForgetLeads(s: State, name: Name)
    requires s.registry == map["hello" := HELLO] && s.deleting == map[] && UpToNul(name) == "hello"
    ensures Leads(s, Forget(2, name), s.(registry := map[], deleting := map[2 := name]))
  {
    assert map["hello" := HELLO] - {"hello"} == map[];
  }

  /** A runtime of `hello` is tracked although it is not registered and no delete is pending. */
  lemma OverlapLeavesUnregisteredRuntime()
    ensures Fresh(START) && IsRun(START, RACE)
    ensures "hello" in After(START, RACE).manager.core.runtimes && !Covered(After(START, RACE), "hello")
  {
    HeldIsReached();
    RaceFrom([Deploy(HELLO)] + [Fetch(1, "hello")]);
  }

  lemma RaceFrom(events: seq<Event>)
    requires Reaches(events, HELD)
    ensures Reaches(events + [Forget(2, "hello")] + [Stop(2, 0)] + [BEGIN] + [ENTER], With(map[], Table(L.Busy), CALLING))
  {
    TextsOfHello();
    var forgotten, stranded := HELD.(registry := map[], deleting := map[2 := "hello"]), HELD.(registry := map[]);
    ForgetLeads(HELD, "hello");
    Chain(events, HELD, Forget(2, "hello"), forgotten);
    StopLeads(stranded, "hello");
    Chain(events + [Forget(2, "hello")], forgotten, Stop(2, 0), stranded);
    Launched(events + [Forget(2, "hello")] + [Stop(2, 0)], stranded);
  }

  /** A terminate that finds no runtime. */
  lemma StopLeads(s: State, name: Name)
    requires name !in s.manager.core.runtimes && s.deleting == map[] && s.manager.clock == 0
    ensures Leads(s.(deleting := map[2 := name]), Stop(2, 0), s)
  {
    assert map[2 := name] - {2} == map[];
  }

  lemma Launched(events: seq<Event>, s: State)
    requires Reaches(events, s) && s == State(s.registry, P.Init(0), map[1 := HELLO], map[])
    ensures Reaches(events + [BEGIN] + [ENTER], With(s.registry, Table(L.Busy), CALLING))
  {
    Launches(s.registry);
    Chain(events, s, BEGIN, With(s.registry, L.EMPTY, WAITING));
    Chain(events + [BEGIN], With(s.registry, L.EMPTY, WAITING), ENTER, With(s.registry, Table(L.Busy), CALLING));
  }

  const ANSWERED := CALLING.(phase := P.Answered("c1", true, 0, L.Answer(200), 0))
  const DONE := CALLING.(responses := [L.Answer(200)], phase := P.Finished(Observation(L.Success, true, 0.0)))
  const OVER := DONE.(phase := P.Recorded(Observation(L.Success, true, 0.0)))

  ghost const LOGGED := Table(L.Idle).(log := [Observation(L.Success, true, 0.0)])

  lemma Responds(registry: map<Name, L.FunctionSpec>)
    ensures Leads(With(registry, Table(L.Busy), CALLING), RESPOND, With(registry, Table(L.Busy), ANSWERED))
  {
  }

  lemma Completes(registry: map<Name, L.FunctionSpec>)
    ensures Leads(With(registry, Table(L.Busy), ANSWERED), COMPLETE, With(registry, Table(L.Idle), DONE))
  {
    assert [] + [L.Answer(200)] == [L.Answer(200)];
  }

  lemma Records(registry: map<Name, L.FunctionSpec>)
    ensures Leads(With(registry, Table(L.Idle), DONE), RECORD, With(registry, LOGGED, OVER))
  {
    var o := Observation(L.Success, true, 0.0);
    assert [] + [o] == [o];
  }

  const INVOKED := [Deploy(HELLO)] + [Fetch(1, "hello")] + [BEGIN] + [ENTER] + [RESPOND] + [COMPLETE] + [RECORD]

  lemma InvokedIsReached()
    ensures ReachesSerially(INVOKED, With(map["hello" := HELLO], LOGGED, OVER))
  {
    HeldIsReached();
    InvokedFrom([Deploy(HELLO)] + [Fetch(1, "hello")], map["hello" := HELLO]);
  }

  lemma InvokedFrom(events: seq<Event>, registry: map<Name, L.FunctionSpec>)
    requires ReachesSerially(events, State(registry, P.Init(0), map[1 := HELLO], map[]))
    ensures ReachesSerially(events + [BEGIN] + [ENTER] + [RESPOND] + [COMPLETE] + [RECORD], With(registry, LOGGED, OVER))
  {
    Launches(registry);
    Responds(registry);
    Completes(registry);
    Records(registry);
    SerialChain(events, State(registry, P.Init(0), map[1 := HELLO], map[]), BEGIN, With(registry, L.EMPTY, WAITING));
    var more := events + [BEGIN];
    SerialChain(more, With(registry, L.EMPTY, WAITING), ENTER, With(registry, Table(L.Busy), CALLING));
    more := more + [ENTER];
    SerialChain(more, With(registry, Table(L.Busy), CALLING), RESPOND, With(registry, Table(L.Busy), ANSWERED));
    more := more + [RESPOND];
    SerialChain(more, With(registry, Table(L.Busy), ANSWERED), COMPLETE, With(registry, Table(L.Idle), DONE));
    more := more + [COMPLETE];
    SerialChain(more, With(registry, Table(L.Idle), DONE), RECORD, With(registry, LOGGED, OVER));
  }

  /** A delete request whose name goes on after a NUL: the registry drops the function
      named before the NUL, the manager looks for a runtime of the whole name. */
  const NUL_DELETE := INVOKED + [Forget(2, "hello\0x")] + [Stop(2, 0)]

  /** No request overlaps another, the delete succeeds, and the runtime stays. */
  lemma NulDeleteLeavesRuntime()
    ensures IsRun(START, NUL_DELETE) && SerialRun(START, NUL_DELETE) && Quiescent(After(START, NUL_DELETE))
    ensures var t := After(START, NUL_DELETE);
            "hello" in t.manager.core.runtimes && "hello" !in t.registry && !Covered(t, "hello") && !GoneForGood(t, "hello")
  {
    InvokedIsReached();
    TextsOfHello();
    DeletedFrom(INVOKED, "hello\0x");
    AlreadyThere(With(map[], LOGGED, OVER), "hello");
  }

  lemma DeletedFrom(events: seq<Event>, name: Name)
    requires ReachesSerially(events, With(map["hello" := HELLO], LOGGED, OVER))
    requires UpToNul(name) == "hello" && name != "hello"
    ensures ReachesSerially(events + [Forget(2, name)] + [Stop(2, 0)], With(map[], LOGGED, OVER))
  {
    var s, t := With(map["hello" := HELLO], LOGGED, OVER), With(map[], LOGGED, OVER);
    var between := t.(deleting := map[2 := name]);
    ForgetLeads(s, name);
    StopLeads(t, name);
    SerialChain(events, s, Forget(2, name), between);
    SerialChain(events + [Forget(2, name)], between, Stop(2, 0), t);
  }

  lemma Unroll(s: State, events: seq<Event>)
    requires events != [] && Enabled(s, events[0]) && IsRun(Next(s, events[0]), events[1..])
    ensures IsRun(s, events) && After(s, events) == After(Next(s, events[0]), events[1..])
  {
  }
}
