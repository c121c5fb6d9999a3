/** The metrics registry (control-plane/src/metrics.cpp): counters and cumulative
    histograms updated in place, proved to agree with the log of observations.
    The labels, strings in the program, are any types with equality: `S` for the
    outcome of an invocation, `R` for the reason of a termination. */
module Metrics {
  /** What one invocation reports. */
  datatype Observation<S> = Observation(status: S, coldStart: bool, durationMs: real)

  const BUCKETS_MS: seq<real> :=
    [1.0, 5.0, 10.0, 25.0, 50.0, 100.0, 250.0, 500.0, 1000.0, 2500.0, 5000.0, 10000.0]

  datatype Histogram = Histogram(bucketCounts: seq<nat>, count: nat, sumMs: real)

  // ---------------------------------------------------------------- reading the log

  /** Number of logged durations at most `bound` with the given cold/warm flag. */
  ghost function AtMost<S>(log: seq<Observation<S>>, cold: bool, bound: real): nat {
    if log == [] then 0
    else
      var o := log[|log| - 1];
      AtMost(log[..|log| - 1], cold, bound) + if o.coldStart == cold && o.durationMs <= bound then 1 else 0
  }

  ghost function Seen<S>(log: seq<Observation<S>>, cold: bool): nat {
    if log == [] then 0
    else Seen(log[..|log| - 1], cold) + if log[|log| - 1].coldStart == cold then 1 else 0
  }

  ghost function SumMs<S>(log: seq<Observation<S>>, cold: bool): real {
    if log == [] then 0.0
    else SumMs(log[..|log| - 1], cold) + if log[|log| - 1].coldStart == cold then log[|log| - 1].durationMs else 0.0
  }

  ghost function Tally<S>(log: seq<Observation<S>>, status: S, cold: bool): nat {
    if log == [] then 0
    else
      var o := log[|log| - 1];
      Tally(log[..|log| - 1], status, cold) + if o.status == status && o.coldStart == cold then 1 else 0
  }

  /** A wider bucket holds at least as much, and no bucket more than there was. */
  lemma {:induction false} AtMostMonotone<S>(log: seq<Observation<S>>, cold: bool, low: real, high: real)
    requires low <= high
    ensures AtMost(log, cold, low) <= AtMost(log, cold, high) <= Seen(log, cold)
  {
    if log != [] { AtMostMonotone(log[..|log| - 1], cold, low, high); }
  }

  /** The outcomes logged with the given flag, each as often as it occurred. */
  ghost function Outcomes<S>(log: seq<Observation<S>>, cold: bool): multiset<S> {
    if log == [] then multiset{}
    else
      var o := log[|log| - 1];
      Outcomes(log[..|log| - 1], cold) + if o.coldStart == cold then multiset{o.status} else multiset{}
  }

  /** Whatever labels occur, the count splits by outcome. */
  lemma {:induction false} SeenByStatus<S>(log: seq<Observation<S>>, cold: bool)
    ensures |Outcomes(log, cold)| == Seen(log, cold)
    ensures forall status :: Outcomes(log, cold)[status] == Tally(log, status, cold)
  {
    if log != [] { SeenByStatus(log[..|log| - 1], cold); }
  }

  ghost predicate Summarizes<S>(h: Histogram, log: seq<Observation<S>>, cold: bool) {
    && |h.bucketCounts| == |BUCKETS_MS|
    && (forall i :: 0 <= i < |BUCKETS_MS| ==> h.bucketCounts[i] == AtMost(log, cold, BUCKETS_MS[i]))
    && h.count == Seen(log, cold)
    && h.sumMs == SumMs(log, cold)
  }

  type Counts<S(==)> = map<(S, bool), nat>

  function CountOf<S(==)>(counts: Counts<S>, status: S, cold: bool): nat {
    if (status, cold) in counts then counts[(status, cold)] else 0
  }

  function Count<R(==)>(terminated: map<R, nat>, reason: R): nat {
    if reason in terminated then terminated[reason] else 0
  }

  /** The counters with one flag, read as a multiset, have `total` elements. */
  ghost predicate AddUpTo<S(!new)>(counts: Counts<S>, cold: bool, total: nat) {
    exists m: multiset<S> :: |m| == total && forall status :: m[status] == CountOf(counts, status, cold)
  }

  ghost predicate CountsAgree<S(!new)>(counts: Counts<S>, log: seq<Observation<S>>) {
    forall status, cold :: CountOf(counts, status, cold) == Tally(log, status, cold)
  }

  ghost predicate HistogramsAgree<S>(histograms: map<bool, Histogram>, log: seq<Observation<S>>) {
    forall cold :: if cold in histograms then Summarizes(histograms[cold], log, cold) else Seen(log, cold) == 0
  }

  /** The histogram for a flag, created and given its buckets on first use. */
  function Current(histograms: map<bool, Histogram>, cold: bool): Histogram {
    var h := if cold in histograms then histograms[cold] else Histogram([], 0, 0.0);
    if h.bucketCounts == [] then h.(bucketCounts := seq(|BUCKETS_MS|, _ => 0)) else h
  }

  lemma CurrentSummarizes<S>(histograms: map<bool, Histogram>, log: seq<Observation<S>>, cold: bool)
    requires HistogramsAgree(histograms, log)
    ensures Summarizes(Current(histograms, cold), log, cold)
  {
    NothingSeen(log, cold);
  }

  /** The loop over the buckets: every bucket that reaches the duration gains one. */
  method BumpBuckets(counts: seq<nat>, durationMs: real) returns (buckets: seq<nat>)
    requires |counts| == |BUCKETS_MS|
    ensures |buckets| == |BUCKETS_MS|
    ensures forall i :: 0 <= i < |BUCKETS_MS| ==> buckets[i] == counts[i] + if durationMs <= BUCKETS_MS[i] then 1 else 0
  {
    buckets := counts;
    for i := 0 to |BUCKETS_MS|
      invariant |buckets| == |BUCKETS_MS|
      invariant forall j :: 0 <= j < i ==> buckets[j] == counts[j] + if durationMs <= BUCKETS_MS[j] then 1 else 0
      invariant forall j :: i <= j < |BUCKETS_MS| ==> buckets[j] == counts[j]
    {
      if durationMs <= BUCKETS_MS[i] { buckets := buckets[i := buckets[i] + 1]; }
    }
  }

  /** The histogram for a flag, empty before its first use. */
  ghost predicate Extends(h: Histogram, before: map<bool, Histogram>, cold: bool, durationMs: real) {
    && |h.bucketCounts| == |BUCKETS_MS|
    && (cold !in before ==>
          && h.count == 1 && h.sumMs == durationMs
          && forall i :: 0 <= i < |BUCKETS_MS| ==> h.bucketCounts[i] == if durationMs <= BUCKETS_MS[i] then 1 else 0)
    && (cold in before && |before[cold].bucketCounts| == |BUCKETS_MS| ==>
          && h.count == before[cold].count + 1 && h.sumMs == before[cold].sumMs + durationMs
          && forall i :: 0 <= i < |BUCKETS_MS| ==>
                           h.bucketCounts[i] == before[cold].bucketCounts[i] + if durationMs <= BUCKETS_MS[i] then 1 else 0)
  }

  lemma CurrentExtends(before: map<bool, Histogram>, cold: bool, durationMs: real, buckets: seq<nat>)
    requires cold in before ==> |before[cold].bucketCounts| == |BUCKETS_MS|
    requires |buckets| == |BUCKETS_MS|
    requires forall i :: 0 <= i < |BUCKETS_MS| ==>
               buckets[i] == Current(before, cold).bucketCounts[i] + if durationMs <= BUCKETS_MS[i] then 1 else 0
    ensures var was := Current(before, cold);
            Extends(Histogram(buckets, was.count + 1, was.sumMs + durationMs), before, cold, durationMs)
  {
  }

  class Registry<S(==,!new), R(==)> {
    var invocationCounts: Counts<S>
    var durationHistograms: map<bool, Histogram>
    var runtimesCreated: nat
    var runtimesTerminated: map<R, nat>
    ghost var log: seq<Observation<S>>

    function Invocations(status: S, cold: bool): nat
      reads this
    {
      CountOf(invocationCounts, status, cold)
    }

    /** Counters and histograms say exactly what the log says. */
    ghost predicate Valid()
      reads this
    {
      CountsAgree(invocationCounts, log) && HistogramsAgree(durationHistograms, log)
    }

    constructor ()
      ensures Valid() && log == [] && runtimesCreated == 0 && runtimesTerminated == map[]
    {
      invocationCounts := map[];
      durationHistograms := map[];
      runtimesCreated := 0;
      runtimesTerminated := map[];
      log := [];
    }

    method RecordInvocation(status: S, coldStart: bool, durationMs: real)
      requires Valid()
      modifies this
      ensures Valid()
      ensures log == old(log) + [Observation(status, coldStart, durationMs)]
      ensures Invocations(status, coldStart) == old(Invocations(status, coldStart)) + 1
      ensures forall s, c :: (s, c) != (status, coldStart) ==> Invocations(s, c) == old(Invocations(s, c))
      ensures coldStart in durationHistograms
      ensures Extends(durationHistograms[coldStart], old(durationHistograms), coldStart, durationMs)
      ensures durationHistograms - {coldStart} == old(durationHistograms) - {coldStart}
      ensures runtimesCreated == old(runtimesCreated) && runtimesTerminated == old(runtimesTerminated)
    {
      var o := Observation(status, coldStart, durationMs);
      CountOutcome(o);
      ObserveDuration(o);
      log := log + [o];
    }

    /** The counter's part of recording `o`. */
    method CountOutcome(o: Observation<S>)
      requires CountsAgree(invocationCounts, log)
      modifies `invocationCounts
      ensures CountsAgree(invocationCounts, log + [o])
      ensures Invocations(o.status, o.coldStart) == old(Invocations(o.status, o.coldStart)) + 1
      ensures forall s, c :: (s, c) != (o.status, o.coldStart) ==> Invocations(s, c) == old(Invocations(s, c))
    {
      CountsOneMore(invocationCounts, log, o);
      invocationCounts := invocationCounts[(o.status, o.coldStart) := Invocations(o.status, o.coldStart) + 1];
    }

    /** The histogram's part of recording `o`. */
    method ObserveDuration(o: Observation<S>)
      requires HistogramsAgree(durationHistograms, log)
      modifies `durationHistograms
      ensures HistogramsAgree(durationHistograms, log + [o])
      ensures o.coldStart in durationHistograms
      ensures Extends(durationHistograms[o.coldStart], old(durationHistograms), o.coldStart, o.durationMs)
      ensures durationHistograms - {o.coldStart} == old(durationHistograms) - {o.coldStart}
    {
      var hist := Current(durationHistograms, o.coldStart);
      CurrentSummarizes(durationHistograms, log, o.coldStart);
      var buckets := BumpBuckets(hist.bucketCounts, o.durationMs);
      HistogramsOneMore(durationHistograms, log, o, hist, buckets);
      CurrentExtends(durationHistograms, o.coldStart, o.durationMs, buckets);
      durationHistograms := durationHistograms[o.coldStart := Histogram(buckets, hist.count + 1, hist.sumMs + o.durationMs)];
    }

    method RecordRuntimeCreated()
      requires Valid()
      modifies `runtimesCreated
      ensures Valid() && runtimesCreated == old(runtimesCreated) + 1
    {
      runtimesCreated := runtimesCreated + 1;
    }

    method RecordRuntimeTerminated(reason: R)
      requires Valid()
      modifies `runtimesTerminated
      ensures Valid()
      ensures runtimesTerminated == old(runtimesTerminated)[reason := Count(old(runtimesTerminated), reason) + 1]
    {
      runtimesTerminated := runtimesTerminated[reason := Count(runtimesTerminated, reason) + 1];
    }

    /** What a scrape may rely on: buckets are cumulative and bounded by the count,
        and the invocation counters, over whatever outcomes occurred, add up to the count. */
    lemma HistogramIsCumulative(cold: bool)
      requires Valid() && cold in durationHistograms
      ensures var h := durationHistograms[cold];
              && |h.bucketCounts| == |BUCKETS_MS|
              && (forall i, j :: 0 <= i <= j < |BUCKETS_MS| ==> h.bucketCounts[i] <= h.bucketCounts[j] <= h.count)
              && AddUpTo(invocationCounts, cold, h.count)
    {
      var h := durationHistograms[cold];
      CountersAddUp(invocationCounts, log, cold);
      forall i, j | 0 <= i <= j < |BUCKETS_MS|
        ensures h.bucketCounts[i] <= h.bucketCounts[j] <= h.count
      {
        AtMostMonotone(log, cold, BUCKETS_MS[i], BUCKETS_MS[j]);
      }
    }
  }

  lemma CountersAddUp<S(!new)>(counts: Counts<S>, log: seq<Observation<S>>, cold: bool)
    requires CountsAgree(counts, log)
    ensures AddUpTo(counts, cold, Seen(log, cold))
  {
    SeenByStatus(log, cold);
    var m := Outcomes(log, cold);
    assert forall status :: m[status] == CountOf(counts, status, cold);
  }

  lemma {:induction false} NothingSeen<S>(log: seq<Observation<S>>, cold: bool)
    ensures Seen(log, cold) == 0 ==> SumMs(log, cold) == 0.0 && forall b :: AtMost(log, cold, b) == 0
  {
    if log != [] { NothingSeen(log[..|log| - 1], cold); }
  }

  lemma SummarizesOneMore<S>(h: Histogram, log: seq<Observation<S>>, o: Observation<S>, buckets: seq<nat>)
    requires Summarizes(h, log, o.coldStart) && |buckets| == |BUCKETS_MS|
    requires forall i :: 0 <= i < |BUCKETS_MS| ==>
               buckets[i] == h.bucketCounts[i] + if o.durationMs <= BUCKETS_MS[i] then 1 else 0
    ensures Summarizes(Histogram(buckets, h.count + 1, h.sumMs + o.durationMs), log + [o], o.coldStart)
  {
    assert (log + [o])[..|log|] == log;
  }

  lemma SummarizesSame<S>(h: Histogram, log: seq<Observation<S>>, o: Observation<S>)
    ensures Summarizes(h, log, !o.coldStart) ==> Summarizes(h, log + [o], !o.coldStart)
    ensures Seen(log + [o], !o.coldStart) == Seen(log, !o.coldStart)
  {
    assert (log + [o])[..|log|] == log;
  }

  lemma CountsOneMore<S(!new)>(counts: Counts<S>, log: seq<Observation<S>>, o: Observation<S>)
    requires CountsAgree(counts, log)
    ensures var k := (o.status, o.coldStart);
            CountsAgree(counts[k := CountOf(counts, o.status, o.coldStart) + 1], log + [o])
  {
    assert (log + [o])[..|log|] == log;
    forall status, cold
      ensures Tally(log + [o], status, cold) == Tally(log, status, cold) + if (status, cold) == (o.status, o.coldStart) then 1 else 0
    {
    }
  }

  lemma HistogramsOneMore<S>(
    histograms: map<bool, Histogram>, log: seq<Observation<S>>, o: Observation<S>, h: Histogram, buckets: seq<nat>)
    requires HistogramsAgree(histograms, log) && Summarizes(h, log, o.coldStart) && |buckets| == |BUCKETS_MS|
    requires forall i :: 0 <= i < |BUCKETS_MS| ==>
               buckets[i] == h.bucketCounts[i] + if o.durationMs <= BUCKETS_MS[i] then 1 else 0
    ensures HistogramsAgree(
              histograms[o.coldStart := Histogram(buckets, h.count + 1, h.sumMs + o.durationMs)], log + [o])
  {
    SummarizesOneMore(h, log, o, buckets);
    SummarizesSame(if !o.coldStart in histograms then histograms[!o.coldStart] else h, log, o);
  }
}
