/** The runtime manager on the Kubernetes backend: every `run_container` and
    `remove_container` of control-plane/src/runtime_manager.cpp becomes the kubectl
    commands of control-plane/src/kubernetes_client.cpp, any of which may fail. */
module KubernetesManager {
  import opened Options
  import L = Lifecycle
  import P = Protocol
  import G = Guarantees
  import K = Kubernetes

  type Ids = set<L.ContainerId>

  datatype State = State(manager: P.State, cluster: K.Cluster)

  /** A step of the manager and what the world answers to it: the clock and the fate
      of the commands if it starts a container, the port and the probes after that,
      and the fate of the deletes for each container it hands over. */
  datatype Step = Step(
    step: P.Step, nowMs: int, luck: K.Luck, port: int, healthy: bool, deletes: seq<K.Deletes>)

  function ImageOf(s: State, j: Step): string
    requires P.ColdEntry(s.manager, j.step)
  {
    s.manager.calls[j.step.event.k].spec.image
  }

  /** How the cold start goes on this cluster. */
  function Started(s: State, j: Step): L.StartOutcome
    requires P.ColdEntry(s.manager, j.step)
  {
    L.StartOf(K.RunResult(s.cluster, ImageOf(s, j), j.nowMs, j.luck), j.port, j.healthy)
  }

  /** The ids this step hands to `remove_container`, in order. */
  ghost function Handed(s: State, j: Step): seq<L.ContainerId>
    requires P.Ready(s.manager, j.step)
  {
    var before, after := s.manager.core.removals, P.Next(s.manager, j.step).core.removals;
    if |before| <= |after| then after[|before|..] else []
  }

  /** Nothing is assumed of the ids the backend returns. */
  ghost predicate Ready(s: State, j: Step) {
    && P.Ready(s.manager, j.step)
    && (P.ColdEntry(s.manager, j.step) ==> j.step.event.outcome == Started(s, j))
    && |j.deletes| == |Handed(s, j)|
  }

  function RemoveAll(c: K.Cluster, ids: seq<L.ContainerId>, deletes: seq<K.Deletes>): K.Cluster
    requires |ids| == |deletes|
    decreases |ids|
  {
    if ids == [] then c else RemoveAll(K.Execute(c, K.Remove(ids[0], deletes[0])), ids[1..], deletes[1..])
  }

  function Launched(s: State, j: Step): K.Cluster {
    if P.ColdEntry(s.manager, j.step) then K.Execute(s.cluster, K.Run(ImageOf(s, j), j.nowMs, j.luck)) else s.cluster
  }

  ghost function Next(s: State, j: Step): State
    requires Ready(s, j)
  {
    State(P.Next(s.manager, j.step), RemoveAll(Launched(s, j), Handed(s, j), j.deletes))
  }

  ghost function Init(clock: int): State { State(P.Init(clock), K.NEW) }

  ghost predicate IsRun(s: State, steps: seq<Step>)
    decreases |steps|
  {
    steps != [] ==> Ready(s, steps[0]) && IsRun(Next(s, steps[0]), steps[1..])
  }

  ghost function After(s: State, steps: seq<Step>): State
    requires IsRun(s, steps)
    decreases |steps|
  {
    if steps == [] then s else After(Next(s, steps[0]), steps[1..])
  }

  // ---------------------------------------------------------------- what deletes leave behind

  function PodsKept(ids: seq<L.ContainerId>, deletes: seq<K.Deletes>): Ids
    requires |ids| == |deletes|
  {
    set i | 0 <= i < |ids| && !deletes[i].pod :: ids[i]
  }

  function ServicesKept(ids: seq<L.ContainerId>, deletes: seq<K.Deletes>): Ids
    requires |ids| == |deletes|
  {
    set i | 0 <= i < |ids| && !deletes[i].service :: ids[i]
  }

  function LeakedBy(s: State, j: Step): Ids {
    if P.ColdEntry(s.manager, j.step) then K.Leaked(s.cluster, ImageOf(s, j), j.nowMs, j.luck) else {}
  }

  /** Pods a delete of this step failed on. */
  ghost function PodsLost(s: State, j: Step): Ids
    requires Ready(s, j)
  {
    LeakedBy(s, j) + PodsKept(Handed(s, j), j.deletes)
  }

  ghost function ServicesLost(s: State, j: Step): Ids
    requires Ready(s, j)
  {
    ServicesKept(Handed(s, j), j.deletes)
  }

  /** Pods whose delete failed, over a run. */
  ghost function LostPods(s: State, steps: seq<Step>): Ids
    requires IsRun(s, steps)
    decreases |steps|
  {
    if steps == [] then {} else PodsLost(s, steps[0]) + LostPods(Next(s, steps[0]), steps[1..])
  }

  ghost function LostServices(s: State, steps: seq<Step>): Ids
    requires IsRun(s, steps)
    decreases |steps|
  {
    if steps == [] then {} else ServicesLost(s, steps[0]) + LostServices(Next(s, steps[0]), steps[1..])
  }

  // ---------------------------------------------------------------- what every step keeps

  function Members(ids: seq<L.ContainerId>): Ids { set id | id in ids }

  /** `whole` is the disjoint union of the two others. */
  predicate Splits(whole: Ids, a: Ids, b: Ids) { whole == a + b && a !! b }

  ghost predicate Linked(s: State) {
    && L.Sound(s.manager.core)
    && K.Numbered(s.cluster)
    && s.manager.core.started == Members(s.cluster.issued)
  }

  /** The cluster holds what the manager tracks and what deletes failed on. */
  ghost predicate Accounts(s: State, pods: Ids, services: Ids) {
    && Splits(s.cluster.pods, L.Tracked(s.manager.core.runtimes), pods)
    && Splits(s.cluster.services, L.Tracked(s.manager.core.runtimes), services)
  }

  /** The id a step gets from `run_container`, if any. */
  function NewIds(s: State, j: Step): Ids {
    if P.ColdEntry(s.manager, j.step) && K.RunResult(s.cluster, ImageOf(s, j), j.nowMs, j.luck).Some?
    then {K.RunResult(s.cluster, ImageOf(s, j), j.nowMs, j.luck).value}
    else {}
  }

  lemma LaunchedEffect(s: State, j: Step)
    requires K.Numbered(s.cluster)
    ensures var c := Launched(s, j);
            && K.Numbered(c)
            && c.pods == s.cluster.pods + NewIds(s, j) + LeakedBy(s, j)
            && c.services == s.cluster.services + NewIds(s, j)
            && Members(c.issued) == Members(s.cluster.issued) + NewIds(s, j)
    ensures NewIds(s, j) !! s.cluster.pods && NewIds(s, j) !! s.cluster.services && NewIds(s, j) !! LeakedBy(s, j)
    ensures NewIds(s, j) !! Members(s.cluster.issued)
    ensures LeakedBy(s, j) !! s.cluster.pods && LeakedBy(s, j) !! Members(s.cluster.issued)
  {
    if P.ColdEntry(s.manager, j.step) {
      K.RunEffect(s.cluster, ImageOf(s, j), j.nowMs, j.luck);
      K.ExecuteKeepsNumbered(s.cluster, K.Run(ImageOf(s, j), j.nowMs, j.luck));
    }
  }

  /** What the manager is told it started is what the cluster started. */
  lemma OutcomeIsTrue(s: State, j: Step)
    requires P.ColdEntry(s.manager, j.step) && j.step.event.outcome == Started(s, j)
    ensures NewIds(s, j) == if j.step.event.outcome.RunFailed? then {} else {j.step.event.outcome.id}
  {
  }

  lemma NewIdsAreNew(s: State, j: Step)
    requires K.Numbered(s.cluster) && s.manager.core.started == Members(s.cluster.issued)
    ensures NewIds(s, j) !! s.manager.core.started
  {
    K.NextNameIsNew(s.cluster, j.nowMs);
  }

  /** The ids are new, although the manager's model only assumes so. */
  lemma ReadyIsEnabled(s: State, j: Step)
    requires Linked(s) && Ready(s, j)
    ensures P.Enabled(s.manager, j.step)
  {
    NewIdsAreNew(s, j);
    if P.ColdEntry(s.manager, j.step) { OutcomeIsTrue(s, j); }
  }

  lemma StartedGrows(s: P.State, step: P.Step)
    requires P.Ready(s, step)
    ensures P.Next(s, step).core.started
         == s.core.started + if P.ColdEntry(s, step) && !step.event.outcome.RunFailed? then {step.event.outcome.id} else {}
  {
    if step.event.ReapPass? { L.ReapEffect(s.core, step.event.order, step.now); }
  }

  lemma RemovalsGrow(s: State, j: Step)
    requires P.Ready(s.manager, j.step)
    ensures P.Next(s.manager, j.step).core.removals == s.manager.core.removals + Handed(s, j)
  {
    if j.step.event.ReapPass? { L.ReapEffect(s.manager.core, j.step.event.order, j.step.now); }
  }

  lemma HandedDistinct(before: seq<L.ContainerId>, handed: seq<L.ContainerId>)
    requires L.NoRepeats(before + handed)
    ensures L.NoRepeats(handed) && Members(before) !! Members(handed)
    ensures Members(before + handed) == Members(before) + Members(handed)
  {
    var all := before + handed;
    forall i, j | 0 <= i < j < |handed|
      ensures handed[i] != handed[j]
    {
      assert all[|before| + i] != all[|before| + j];
    }
    forall i, j | 0 <= i < |before| && 0 <= j < |handed|
      ensures before[i] != handed[j]
    {
      assert all[i] != all[|before| + j];
    }
  }

  /** What is tracked after a step: what was, and what was started, but not what was handed over. */
  lemma TrackedAfter(s: State, j: Step)
    requires Linked(s) && Ready(s, j)
    ensures var d := P.Next(s.manager, j.step).core;
            var tracked := L.Tracked(s.manager.core.runtimes);
            && L.Sound(d) && d.started == s.manager.core.started + NewIds(s, j)
            && L.NoRepeats(Handed(s, j))
            && Members(Handed(s, j)) <= tracked + NewIds(s, j)
            && L.Tracked(d.runtimes) == tracked + NewIds(s, j) - Members(Handed(s, j))
  {
    ReadyIsEnabled(s, j);
    P.StepKeepsSound(s.manager, j.step);
    StartedFromCluster(s, j);
    RemovalsGrow(s, j);
    CoresMove(s.manager.core, P.Next(s.manager, j.step).core, Handed(s, j), NewIds(s, j));
  }

  lemma StartedFromCluster(s: State, j: Step)
    requires Linked(s) && Ready(s, j)
    ensures P.Next(s.manager, j.step).core.started == s.manager.core.started + NewIds(s, j)
    ensures NewIds(s, j) !! s.manager.core.started
  {
    NewIdsAreNew(s, j);
    StartedGrows(s.manager, j.step);
    if P.ColdEntry(s.manager, j.step) { OutcomeIsTrue(s, j); }
  }

  lemma CoresMove(c: L.Core, d: L.Core, handed: seq<L.ContainerId>, added: Ids)
    requires L.Conserved(c) && L.Conserved(d)
    requires d.removals == c.removals + handed && d.started == c.started + added && added !! c.started
    ensures L.NoRepeats(handed) && Members(handed) <= L.Tracked(c.runtimes) + added
    ensures L.Tracked(d.runtimes) == L.Tracked(c.runtimes) + added - Members(handed)
  {
    HandedDistinct(c.removals, handed);
    G.ConservedAsSets(c);
    G.ConservedAsSets(d);
    SetsMove(c.started, d.started, L.Tracked(c.runtimes), L.Tracked(d.runtimes), Members(c.removals), Members(handed), added);
  }

  lemma SetsMove(started: Ids, laterStarted: Ids, tracked: Ids, laterTracked: Ids, removed: Ids, handed: Ids, added: Ids)
    requires Splits(started, tracked, removed) && Splits(laterStarted, laterTracked, removed + handed)
    requires laterStarted == started + added && added !! started && removed !! handed
    ensures handed <= tracked + added && laterTracked == tracked + added - handed
  {
  }

  lemma {:induction false} RemoveAllEffect(c: K.Cluster, ids: seq<L.ContainerId>, deletes: seq<K.Deletes>)
    requires |ids| == |deletes| && L.NoRepeats(ids) && (forall i :: 0 <= i < |ids| ==> K.SafeToken(ids[i]))
    requires K.Numbered(c)
    ensures var d := RemoveAll(c, ids, deletes);
            && d.pods == c.pods - (Members(ids) - PodsKept(ids, deletes))
            && d.services == c.services - (Members(ids) - ServicesKept(ids, deletes))
            && d.issued == c.issued && K.Numbered(d)
    decreases |ids|
  {
    if ids != [] {
      var rest, others := ids[1..], deletes[1..];
      K.ExecuteKeepsNumbered(c, K.Remove(ids[0], deletes[0]));
      RemoveAllEffect(K.Execute(c, K.Remove(ids[0], deletes[0])), rest, others);
      MembersSplit(ids, deletes);
    }
  }

  lemma MembersSplit(ids: seq<L.ContainerId>, deletes: seq<K.Deletes>)
    requires |ids| == |deletes| && ids != [] && L.NoRepeats(ids)
    ensures Members(ids) == {ids[0]} + Members(ids[1..]) && ids[0] !in Members(ids[1..])
    ensures PodsKept(ids, deletes) == (if deletes[0].pod then {} else {ids[0]}) + PodsKept(ids[1..], deletes[1..])
    ensures ServicesKept(ids, deletes) == (if deletes[0].service then {} else {ids[0]}) + ServicesKept(ids[1..], deletes[1..])
    ensures PodsKept(ids[1..], deletes[1..]) <= Members(ids[1..]) && ServicesKept(ids[1..], deletes[1..]) <= Members(ids[1..])
  {
    var rest, others := ids[1..], deletes[1..];
    assert forall i :: 0 < i < |ids| ==> ids[i] == rest[i - 1] && deletes[i] == others[i - 1];
    assert forall i :: 0 <= i < |rest| ==> rest[i] == ids[i + 1] && others[i] == deletes[i + 1];
    forall id | id in PodsKept(ids, deletes) && id != ids[0]
      ensures id in PodsKept(rest, others)
    {
      var i :| 0 <= i < |ids| && !deletes[i].pod && ids[i] == id;
      assert rest[i - 1] == id && !others[i - 1].pod;
    }
    forall id | id in ServicesKept(ids, deletes) && id != ids[0]
      ensures id in ServicesKept(rest, others)
    {
      var i :| 0 <= i < |ids| && !deletes[i].service && ids[i] == id;
      assert rest[i - 1] == id && !others[i - 1].service;
    }
  }

  lemma HandedAreSafe(s: State, j: Step)
    requires Linked(s) && Ready(s, j)
    ensures forall i :: 0 <= i < |Handed(s, j)| ==> K.SafeToken(Handed(s, j)[i])
  {
    TrackedAfter(s, j);
    LaunchedEffect(s, j);
    G.ConservedAsSets(s.manager.core);
    forall i | 0 <= i < |Handed(s, j)|
      ensures K.SafeToken(Handed(s, j)[i])
    {
      var id := Handed(s, j)[i];
      assert id in Members(Handed(s, j));
      assert id in Members(Launched(s, j).issued);
      K.NamedIsSafe(id, Launched(s, j).counter);
    }
  }

  lemma StepKeepsLinked(s: State, j: Step)
    requires Linked(s) && Ready(s, j)
    ensures Linked(Next(s, j))
  {
    TrackedAfter(s, j);
    LaunchedEffect(s, j);
    HandedAreSafe(s, j);
    RemoveAllEffect(Launched(s, j), Handed(s, j), j.deletes);
  }

  /** Adding what is new and taking out what was deleted keeps the split. */
  lemma SplitMoves(whole: Ids, tracked: Ids, lost: Ids, added: Ids, leaked: Ids, handed: Ids, kept: Ids)
    requires Splits(whole, tracked, lost)
    requires added !! whole && leaked !! whole && added !! leaked && handed <= tracked + added && kept <= handed
    ensures Splits(whole + added + leaked - (handed - kept), tracked + added - handed, lost + (leaked + kept))
  {
  }

  lemma KeptAreHanded(ids: seq<L.ContainerId>, deletes: seq<K.Deletes>)
    requires |ids| == |deletes|
    ensures PodsKept(ids, deletes) <= Members(ids) && ServicesKept(ids, deletes) <= Members(ids)
  {
  }

  /** What a step makes of the cluster and the tracked containers. */
  lemma StepEffect(s: State, j: Step)
    requires Linked(s) && Ready(s, j)
    ensures var t := Next(s, j);
            var handed := Handed(s, j);
            && L.Tracked(t.manager.core.runtimes) == L.Tracked(s.manager.core.runtimes) + NewIds(s, j) - Members(handed)
            && t.cluster.pods
               == s.cluster.pods + NewIds(s, j) + LeakedBy(s, j) - (Members(handed) - PodsKept(handed, j.deletes))
            && t.cluster.services == s.cluster.services + NewIds(s, j) - (Members(handed) - ServicesKept(handed, j.deletes))
            && Members(handed) <= L.Tracked(s.manager.core.runtimes) + NewIds(s, j)
  {
    TrackedAfter(s, j);
    LaunchedEffect(s, j);
    HandedAreSafe(s, j);
    RemoveAllEffect(Launched(s, j), Handed(s, j), j.deletes);
  }

  lemma StepKeepsPods(s: State, j: Step, pods: Ids)
    requires Linked(s) && Ready(s, j) && Splits(s.cluster.pods, L.Tracked(s.manager.core.runtimes), pods)
    ensures Splits(Next(s, j).cluster.pods, L.Tracked(Next(s, j).manager.core.runtimes), pods + PodsLost(s, j))
  {
    StepEffect(s, j);
    LaunchedEffect(s, j);
    KeptAreHanded(Handed(s, j), j.deletes);
    SplitMoves(s.cluster.pods, L.Tracked(s.manager.core.runtimes), pods, NewIds(s, j), LeakedBy(s, j),
               Members(Handed(s, j)), PodsKept(Handed(s, j), j.deletes));
  }

  lemma StepKeepsServices(s: State, j: Step, services: Ids)
    requires Linked(s) && Ready(s, j) && Splits(s.cluster.services, L.Tracked(s.manager.core.runtimes), services)
    ensures Splits(Next(s, j).cluster.services, L.Tracked(Next(s, j).manager.core.runtimes), services + ServicesLost(s, j))
  {
    StepEffect(s, j);
    LaunchedEffect(s, j);
    var lost := ServicesKept(Handed(s, j), j.deletes);
    KeptAreHanded(Handed(s, j), j.deletes);
    SplitMoves(s.cluster.services, L.Tracked(s.manager.core.runtimes), services, NewIds(s, j), {}, Members(Handed(s, j)), lost);
    PlusNothing(s.cluster.services + NewIds(s, j), lost);
  }

  lemma PlusNothing(a: Ids, b: Ids)
    ensures a + {} == a && {} + b == b
  {
  }

  /** On every failure path of every command. */
  lemma StepKeepsAccounts(s: State, j: Step, pods: Ids, services: Ids)
    requires Linked(s) && Ready(s, j) && Accounts(s, pods, services)
    ensures Accounts(Next(s, j), pods + PodsLost(s, j), services + ServicesLost(s, j))
  {
    StepKeepsPods(s, j, pods);
    StepKeepsServices(s, j, services);
  }

  lemma {:induction false} RunKeepsAccounts(s: State, steps: seq<Step>, pods: Ids, services: Ids)
    requires Linked(s) && IsRun(s, steps) && Accounts(s, pods, services)
    ensures Linked(After(s, steps))
    ensures Accounts(After(s, steps), pods + LostPods(s, steps), services + LostServices(s, steps))
    decreases |steps|
  {
    if steps == [] {
      PlusNothing(pods, services);
      PlusNothing(services, pods);
    } else {
      var j, rest := steps[0], steps[1..];
      StepKeepsLinked(s, j);
      StepKeepsAccounts(s, j, pods, services);
      RunKeepsAccounts(Next(s, j), rest, pods + PodsLost(s, j), services + ServicesLost(s, j));
      UnionsRegroup(pods, PodsLost(s, j), LostPods(Next(s, j), rest));
      UnionsRegroup(services, ServicesLost(s, j), LostServices(Next(s, j), rest));
    }
  }

  lemma UnionsRegroup(a: Ids, b: Ids, c: Ids)
    ensures a + b + c == a + (b + c)
  {
  }

  lemma InitLinked(clock: int)
    ensures Linked(Init(clock)) && Accounts(Init(clock), {}, {})
  {
    assert |L.EMPTY.runtimes| == 0;
  }

  // ---------------------------------------------------------------- results

  function Project(steps: seq<Step>): seq<P.Step> {
    if steps == [] then [] else [steps[0].step] + Project(steps[1..])
  }

  lemma {:induction false} RunProjects(s: State, steps: seq<Step>)
    requires Linked(s) && IsRun(s, steps)
    ensures P.IsRun(s.manager, Project(steps)) && P.After(s.manager, Project(steps)) == After(s, steps).manager
    decreases |steps|
  {
    if steps != [] {
      ReadyIsEnabled(s, steps[0]);
      StepKeepsLinked(s, steps[0]);
      RunProjects(Next(s, steps[0]), steps[1..]);
      assert Project(steps)[1..] == Project(steps[1..]);
    }
  }

  /** The manager on this backend does what the manager on the abstract one may do:
      every run, with any commands failing, is a run of Protocol.dfy, whose steps
      assume that ids are new.  So all that is proved of those runs holds here. */
  lemma RefinesAbstractBackend(clock: int, steps: seq<Step>)
    requires IsRun(Init(clock), steps)
    ensures P.IsRun(P.Init(clock), Project(steps))
    ensures After(Init(clock), steps).manager == P.After(P.Init(clock), Project(steps))
  {
    InitLinked(clock);
    RunProjects(Init(clock), steps);
  }

  /** In every reachable state, pods and services are those of the tracked runtimes
      and, apart from these, exactly those a delete failed on: none is missing, and
      the cluster mirrors the table exactly when every delete of a pod, or of a
      service, went through. */
  lemma ClusterMirrorsTable(clock: int, steps: seq<Step>)
    requires IsRun(Init(clock), steps)
    ensures var s := After(Init(clock), steps);
            var tracked := L.Tracked(s.manager.core.runtimes);
            var lostPods, lostServices := LostPods(Init(clock), steps), LostServices(Init(clock), steps);
            && s.manager.core.started == Members(s.cluster.issued) && L.NoRepeats(s.cluster.issued)
            && Splits(s.cluster.pods, tracked, lostPods)
            && Splits(s.cluster.services, tracked, lostServices)
            && (s.cluster.pods == tracked <==> lostPods == {})
            && (s.cluster.services == tracked <==> lostServices == {})
  {
    InitLinked(clock);
    RunKeepsAccounts(Init(clock), steps, {}, {});
    var s := After(Init(clock), steps);
    var lostPods, lostServices := LostPods(Init(clock), steps), LostServices(Init(clock), steps);
    PlusNothing({}, lostPods);
    PlusNothing({}, lostServices);
    SplitIsWhole(s.cluster.pods, L.Tracked(s.manager.core.runtimes), lostPods);
    SplitIsWhole(s.cluster.services, L.Tracked(s.manager.core.runtimes), lostServices);
  }

  lemma SplitIsWhole(whole: Ids, a: Ids, b: Ids)
    requires Splits(whole, a, b)
    ensures whole == a <==> b == {}
  {
    if b != {} {
      var x :| x in b;
      assert x in whole && x !in a;
    }
  }

  // ---------------------------------------------------------------- a pod that stays

  const HELLO := L.FunctionSpec("hello", "hello:v1", 5000, 1000)

  /** A pod that never gets ready and cannot be deleted either. */
  const UNLUCKY := K.Luck(true, false, false, false)

  const FIRST := Step(P.Step(P.Begin(1, HELLO), 0), 0, UNLUCKY, 0, false, [])
  const SECOND := Step(P.Step(P.Enter(1, L.RunFailed), 0), 0, UNLUCKY, 0, false, [])

  lemma TwoSteps(s: State, a: Step, b: Step)
    requires Ready(s, a) && Ready(Next(s, a), b)
    ensures IsRun(s, [a, b]) && After(s, [a, b]) == Next(Next(s, a), b)
  {
    OneStep(Next(s, a), b);
    assert [a, b][1..] == [b];
  }

  lemma OneStep(s: State, a: Step)
    requires Ready(s, a)
    ensures IsRun(s, [a]) && After(s, [a]) == Next(s, a)
  {
    var t := Next(s, a);
    assert [a][1..] == [] && IsRun(t, []) && After(t, []) == t;
  }

  /** No runtime is tracked and nothing was handed over, yet the cluster has a pod. */
  lemma FailedCleanupLeavesPod()
    ensures IsRun(Init(0), [FIRST, SECOND])
    ensures var s := After(Init(0), [FIRST, SECOND]);
            && s.manager.core.runtimes == map[] && s.manager.core.removals == []
            && s.cluster.pods == {K.PodName(0, 1)} && s.cluster.issued == []
  {
    var s := Init(0);
    assert Handed(s, FIRST) == [];
    var t := Next(s, FIRST);
    assert t.cluster == K.NEW && P.ColdEntry(t.manager, SECOND.step);
    assert K.SafeToken(HELLO.image);
    assert Handed(t, SECOND) == [];
    TwoSteps(s, FIRST, SECOND);
  }
}
