/** The Kubernetes backend (control-plane/src/kubernetes_client.cpp): one id stands
    for a pod and a service of the same name.  Whether each `kubectl` command
    succeeds is a parameter; one that fails changes nothing. */
module Kubernetes {
  import opened Options
  import opened Text
  import Lifecycle

  const NAME_PERIOD := 10_000_000

  /** C++ remainder: the sign of the dividend. */
  function Remainder(n: int, m: int): int
    requires m > 0
  {
    if n >= 0 then n % m else -((-n) % m)
  }

  /** `generate_pod_name`, for a clock reading and the incremented counter. */
  function PodName(nowMs: int, count: nat): string {
    "faas-" + SignedDecimal(Remainder(nowMs, NAME_PERIOD)) + "-" + Decimal(count)
  }

  predicate SafeChar(c: char) {
    'a' <= c <= 'z' || 'A' <= c <= 'Z' || '0' <= c <= '9' || c == '-' || c == '_' || c == '.' || c == ':' || c == '/'
  }

  predicate SafeToken(token: string) {
    token != "" && forall i :: 0 <= i < |token| ==> SafeChar(token[i])
  }

  const SHELL_SYNTAX := " \t\r\n;|&$`'\"\\<>(){}[]*?!#~=%^,@+\0"

  /** A token is not empty and holds nothing the shell gives a meaning to; all that
      image names and addresses are written with is admitted. */
  lemma TokensArePlain(token: string, c: char)
    requires SafeToken(token)
    ensures token != "" && (c in SHELL_SYNTAX ==> c !in token)
    ensures 'a' <= c <= 'z' || 'A' <= c <= 'Z' || IsDigit(c) || c in "-_.:/" ==> SafeToken(token + [c])
  {
    if c in SHELL_SYNTAX { SyntaxIsUnsafe(c); }
    assert forall i :: 0 <= i < |token + [c]| ==> (token + [c])[i] == if i < |token| then token[i] else c;
  }

  lemma SyntaxIsUnsafe(c: char)
    requires c in SHELL_SYNTAX
    ensures !SafeChar(c)
  {
  }

  lemma DigitSuffix(a: string, d: string, b: string, e: string)
    requires AllDigits(d) && AllDigits(e) && a + "-" + d == b + "-" + e
    ensures d == e
  {
    var s := a + "-" + d;
    assert s[|a|] == '-' && s[|b|] == '-';
    assert forall i :: |a| < i < |s| ==> s[i] == d[i - |a| - 1] && IsDigit(s[i]);
    assert forall i :: |b| < i < |s| ==> s[i] == e[i - |b| - 1] && IsDigit(s[i]);
    assert |a| == |b|;
    assert d == s[|a| + 1..] && e == s[|b| + 1..];
  }

  /** Names are told apart by the counter alone, whatever the clock read. */
  lemma PodNamesDistinct(nowMs: int, count: nat, laterMs: int, laterCount: nat)
    requires PodName(nowMs, count) == PodName(laterMs, laterCount)
    ensures count == laterCount
  {
    DigitSuffix("faas-" + SignedDecimal(Remainder(nowMs, NAME_PERIOD)), Decimal(count),
                "faas-" + SignedDecimal(Remainder(laterMs, NAME_PERIOD)), Decimal(laterCount));
    DecimalInjective(count, laterCount);
  }

  /** The last seven digits of the clock and the counter. */
  lemma PodNameOf(millis: nat, thousands: nat, count: nat)
    requires millis < 10_000_000
    ensures PodName(thousands * 10_000_000 + millis, count) == "faas-" + Decimal(millis) + "-" + Decimal(count)
  {
    assert (thousands * 10_000_000 + millis) % 10_000_000 == millis;
  }

  lemma SafeConcat(a: string, b: string)
    requires (forall i :: 0 <= i < |a| ==> SafeChar(a[i])) && (forall i :: 0 <= i < |b| ==> SafeChar(b[i]))
    ensures forall i :: 0 <= i < |a + b| ==> SafeChar((a + b)[i])
  {
  }

  /** A generated name passes the check that guards every shell command. */
  lemma PodNamesAreSafe(nowMs: int, count: nat)
    ensures SafeToken(PodName(nowMs, count))
  {
    var middle := SignedDecimal(Remainder(nowMs, NAME_PERIOD));
    assert forall i :: 0 <= i < |Decimal(count)| ==> IsDigit(Decimal(count)[i]);
    assert forall i :: 0 <= i < |middle| ==> IsDigit(middle[i]) || middle[i] == '-';
    SafeConcat("faas-", middle);
    SafeConcat("faas-" + middle, "-");
    SafeConcat("faas-" + middle + "-", Decimal(count));
  }

  // ---------------------------------------------------------------- the cluster under a sequence of calls

  /** `issued` lists the ids returned with ok. */
  datatype Cluster = Cluster(counter: nat, pods: set<string>, services: set<string>, issued: seq<string>)

  const NEW := Cluster(0, {}, {}, [])

  /** Which of the commands of `run_container` succeed; `cleanup` is the delete after a failure. */
  datatype Luck = Luck(run: bool, wait: bool, expose: bool, cleanup: bool)

  /** Which of the two commands of `remove_container` succeed. */
  datatype Deletes = Deletes(service: bool, pod: bool)

  datatype Command = Run(image: string, nowMs: int, luck: Luck) | Remove(id: string, deletes: Deletes)

  function Execute(c: Cluster, command: Command): Cluster {
    match command
    case Run(image, nowMs, luck) =>
      if !SafeToken(image) then c
      else
        var name := PodName(nowMs, c.counter + 1);
        var d := c.(counter := c.counter + 1);
        if !luck.run then d
        else if luck.wait && luck.expose then
          d.(pods := c.pods + {name}, services := c.services + {name}, issued := c.issued + [name])
        else
          d.(pods := if luck.cleanup then c.pods + {name} - {name} else c.pods + {name})
    case Remove(id, deletes) =>
      if !SafeToken(id) then c
      else c.(services := if deletes.service then c.services - {id} else c.services,
              pods := if deletes.pod then c.pods - {id} else c.pods)
  }

  /** The id `run_container` returns. */
  function RunResult(c: Cluster, image: string, nowMs: int, luck: Luck): Option<string> {
    if SafeToken(image) && luck.run && luck.wait && luck.expose then Some(PodName(nowMs, c.counter + 1)) else None
  }

  /** The pod left behind when `run_container` fails and cannot delete it. */
  function Leaked(c: Cluster, image: string, nowMs: int, luck: Luck): set<string> {
    if SafeToken(image) && luck.run && !(luck.wait && luck.expose) && !luck.cleanup then {PodName(nowMs, c.counter + 1)}
    else {}
  }

  ghost predicate Named(id: string, counter: nat) {
    exists nowMs: int, count: nat :: count <= counter && id == PodName(nowMs, count)
  }

  /** Everything in the cluster has a generated name; ids are never reused. */
  ghost predicate Numbered(c: Cluster) {
    && (forall id :: id in c.pods ==> Named(id, c.counter))
    && (forall id :: id in c.services ==> Named(id, c.counter))
    && (forall id :: id in c.issued ==> Named(id, c.counter))
    && Lifecycle.NoRepeats(c.issued)
  }

  lemma NameIsNew(id: string, counter: nat, nowMs: int)
    requires Named(id, counter)
    ensures id != PodName(nowMs, counter + 1)
  {
    var thenMs: int, count: nat :| count <= counter && id == PodName(thenMs, count);
    if id == PodName(nowMs, counter + 1) {
      PodNamesDistinct(nowMs, counter + 1, thenMs, count);
      assert false;
    }
  }

  /** The name of the next pod is in no use and was never returned. */
  lemma NextNameIsNew(c: Cluster, nowMs: int)
    requires Numbered(c)
    ensures var name := PodName(nowMs, c.counter + 1);
            name !in c.issued && name !in c.pods && name !in c.services
  {
    var name := PodName(nowMs, c.counter + 1);
    if Named(name, c.counter) { NameIsNew(name, c.counter, nowMs); }
  }

  lemma NamedLater(id: string, counter: nat)
    requires Named(id, counter)
    ensures Named(id, counter + 1)
  {
    var nowMs: int, count: nat :| count <= counter && id == PodName(nowMs, count);
  }

  lemma NamedIsSafe(id: string, counter: nat)
    requires Named(id, counter)
    ensures SafeToken(id)
  {
    var nowMs: int, count: nat :| count <= counter && id == PodName(nowMs, count);
    PodNamesAreSafe(nowMs, count);
  }

  lemma CountKeepsNumbered(c: Cluster)
    requires Numbered(c)
    ensures Numbered(c.(counter := c.counter + 1))
  {
    forall id | id in c.issued || id in c.pods || id in c.services
      ensures Named(id, c.counter + 1)
    {
      NamedLater(id, c.counter);
    }
  }

  lemma ExecuteKeepsNumbered(c: Cluster, command: Command)
    requires Numbered(c)
    ensures Numbered(Execute(c, command))
  {
    if command.Run? {
      var name := PodName(command.nowMs, c.counter + 1);
      NextNameIsNew(c, command.nowMs);
      CountKeepsNumbered(c);
      assert Named(name, c.counter + 1);
      Lifecycle.SnocNoRepeats(c.issued, name);
    }
  }

  /** What a run leaves: with an id, a new pod and service of that name; without one,
      at most the pod it could not delete again. */
  lemma RunEffect(c: Cluster, image: string, nowMs: int, luck: Luck)
    requires Numbered(c)
    ensures var d := Execute(c, Run(image, nowMs, luck));
            match RunResult(c, image, nowMs, luck)
            case Some(id) =>
              && id !in c.issued && id !in c.pods && id !in c.services && Leaked(c, image, nowMs, luck) == {}
              && d.pods == c.pods + {id} && d.services == c.services + {id} && d.issued == c.issued + [id]
            case None =>
              && d.pods == c.pods + Leaked(c, image, nowMs, luck) && d.services == c.services && d.issued == c.issued
              && (forall id :: id in Leaked(c, image, nowMs, luck) ==> id !in c.issued && id !in c.pods && id !in c.services)
  {
    NextNameIsNew(c, nowMs);
    var name := PodName(nowMs, c.counter + 1);
    assert c.pods + {name} - {name} == c.pods;
  }

  /** The backend as an object: an atomic counter and a cluster changed command by command. */
  class Client {
    var counter: nat
    var pods: set<string>
    var services: set<string>
    ghost var issued: seq<string>

    ghost function State(): Cluster
      reads this
    {
      Cluster(counter, pods, services, issued)
    }

    constructor ()
      ensures State() == NEW
    {
      counter, pods, services, issued := 0, {}, {}, [];
    }

    /** The commands of `run_container`, in order. */
    method RunCommands(image: string, nowMs: int, luck: Luck) returns (id: Option<string>)
      modifies this
      ensures State() == Execute(old(State()), Run(image, nowMs, luck))
      ensures id == RunResult(old(State()), image, nowMs, luck)
    {
      if !SafeToken(image) { return None; }
      counter := counter + 1;
      var name := PodName(nowMs, counter);
      if !luck.run { return None; }
      pods := pods + {name};
      if !luck.wait {
        if luck.cleanup { pods := pods - {name}; }
        return None;
      }
      if !luck.expose {
        if luck.cleanup { pods := pods - {name}; }
        return None;
      }
      services := services + {name};
      issued := issued + [name];
      id := Some(name);
    }

    method RunContainer(image: string, nowMs: int, luck: Luck) returns (id: Option<string>)
      requires Numbered(State())
      modifies this
      ensures Numbered(State()) && State() == Execute(old(State()), Run(image, nowMs, luck))
      ensures id.Some? <==> SafeToken(image) && luck.run && luck.wait && luck.expose
      ensures id.Some? ==>
                && id.value !in old(pods) && id.value !in old(services) && issued == old(issued) + [id.value]
                && pods == old(pods) + {id.value} && services == old(services) + {id.value}
      ensures id.None? ==>
                && services == old(services) && issued == old(issued) && old(pods) <= pods
                && (pods == old(pods) <==> !SafeToken(image) || !luck.run || luck.cleanup)
    {
      ExecuteKeepsNumbered(State(), Run(image, nowMs, luck));
      RunEffect(State(), image, nowMs, luck);
      id := RunCommands(image, nowMs, luck);
    }

    /** Only the pod's delete is reported; the service's may have failed all the same. */
    method RemoveContainer(id: string, deletes: Deletes) returns (ok: bool)
      requires Numbered(State())
      modifies this
      ensures Numbered(State()) && State() == Execute(old(State()), Remove(id, deletes))
      ensures ok <==> SafeToken(id) && deletes.pod
      ensures pods == if ok then old(pods) - {id} else old(pods)
      ensures id in services <==> id in old(services) && !deletes.service
      ensures services - {id} == old(services) - {id} && issued == old(issued)
    {
      ExecuteKeepsNumbered(State(), Remove(id, deletes));
      if !SafeToken(id) {
        if id in services { NamedIsSafe(id, counter); }
        return false;
      }
      if deletes.service { services := services - {id}; }
      if deletes.pod { pods := pods - {id}; }
      ok := deletes.pod;
    }
  }
}
