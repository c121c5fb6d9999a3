/** The manager, its metrics and the invocation history together
    (control-plane/src/main.cpp, runtime_manager.cpp, invocation_store.cpp): the
    invoke handler returns from the manager once its result is in the metrics, then
    writes the row of that very result. */
module Accounting {
  import opened Options
  import L = Lifecycle
  import M = Metrics
  import P = Protocol
  import H = History
  import T = Text

  datatype State = State(manager: P.State, store: H.State)

  datatype Event =
    | Manage(step: P.Step)                                       // any step but the recording of a result
    | Record(k: P.CallId, now: int, name: string, input: string, output: string)
    | Store(event: H.Event)                                      // the database's part of a handler, or a deploy

  /** The row an invoke handler writes for the result it got back. */
  function RowOf(result: M.Observation<L.Status>, name: string, input: string, output: string): H.Row {
    H.Row(name, input, output, result.status, result.durationMs.Floor, result.coldStart)
  }

  ghost predicate Enabled(s: State, e: Event) {
    match e
    case Manage(step) => P.Enabled(s.manager, step) && !step.event.Record?
    case Record(k, now, _, _, _) => P.Enabled(s.manager, P.Step(P.Record(k), now)) && k !in s.store.handlers
    case Store(event) => H.Enabled(s.store, event) && !event.Arrive? && !event.Measure?
  }

  ghost function Arrived(s: State, e: Event): H.State
    requires e.Record? && Enabled(s, e)
  {
    H.Next(s.store, H.Arrive(e.k, RowOf(s.manager.calls[e.k].phase.result, e.name, e.input, e.output)))
  }

  ghost function Next(s: State, e: Event): State
    requires Enabled(s, e)
  {
    match e
    case Manage(step) => s.(manager := P.Next(s.manager, step))
    case Record(k, now, _, _, _) =>
      State(P.Next(s.manager, P.Step(P.Record(k), now)), H.Next(Arrived(s, e), H.Measure(k)))
    case Store(event) => s.(store := H.Next(s.store, event))
  }

  ghost predicate IsRun(s: State, events: seq<Event>)
    decreases |events|
  {
    events != [] ==> Enabled(s, events[0]) && IsRun(Next(s, events[0]), events[1..])
  }

  ghost function After(s: State, events: seq<Event>): State
    requires IsRun(s, events)
    decreases |events|
  {
    if events == [] then s else After(Next(s, events[0]), events[1..])
  }

  // ---------------------------------------------------------------- durations are whole milliseconds

  predicate Over(p: P.Phase) { p.Finished? || p.Recorded? }

  ghost predicate Whole(s: P.State) {
    forall k :: k in s.calls && Over(s.calls[k].phase) ==>
                  s.calls[k].phase.result.durationMs == s.calls[k].phase.result.durationMs.Floor as real
  }

  lemma StepKeepsWhole(s: P.State, step: P.Step)
    requires P.Enabled(s, step) && Whole(s)
    ensures Whole(P.Next(s, step))
  {
  }

  // ---------------------------------------------------------------- cold rows

  function ColdRows(rows: seq<H.Row>): nat {
    if rows == [] then 0 else ColdRows(rows[..|rows| - 1]) + L.One(rows[|rows| - 1].coldStart)
  }

  /** The handler holds a cold result that is in the metrics but not yet in a row. */
  predicate HoldsCold(h: H.Handler) { H.Unrecorded(h) && h.row.coldStart }

  function ColdUnwritten(handlers: map<H.HandlerId, H.Handler>): set<H.HandlerId> {
    set k | k in handlers && HoldsCold(handlers[k])
  }

  ghost predicate ColdAgrees(h: H.State) {
    M.Seen(h.log, true) == ColdRows(h.rows) + |ColdUnwritten(h.handlers)|
  }

  lemma ColdUpdate(handlers: map<H.HandlerId, H.Handler>, k: H.HandlerId, h: H.Handler)
    ensures |ColdUnwritten(handlers[k := h])|
         == |ColdUnwritten(handlers)| - L.One(k in handlers && HoldsCold(handlers[k])) + L.One(HoldsCold(h))
  {
    L.SizeMoves(ColdUnwritten(handlers), ColdUnwritten(handlers[k := h]), k);
  }

  lemma ColdUnwrittenMoves(h: H.State, e: H.Event)
    requires H.Enabled(h, e)
    ensures |ColdUnwritten(H.Next(h, e).handlers)| + L.One(e.Insert? && h.handlers[e.k].row.coldStart)
         == |ColdUnwritten(h.handlers)| + L.One(e.Measure? && h.handlers[e.k].row.coldStart)
  {
    H.HandlersMove(h, e);
    if H.Actor(e).Some? { ColdUpdate(h.handlers, e.k, H.Next(h, e).handlers[e.k]); }
  }

  lemma ColdRowsSnoc(rows: seq<H.Row>, row: H.Row)
    ensures ColdRows(rows + [row]) == ColdRows(rows) + L.One(row.coldStart)
  {
    assert (rows + [row])[..|rows|] == rows;
  }

  lemma SeenSnoc(log: seq<M.Observation<L.Status>>, o: M.Observation<L.Status>)
    ensures M.Seen(log + [o], true) == M.Seen(log, true) + L.One(o.coldStart)
  {
    assert (log + [o])[..|log|] == log;
  }

  lemma StepKeepsColdAgrees(h: H.State, e: H.Event)
    requires ColdAgrees(h) && H.Enabled(h, e)
    ensures ColdAgrees(H.Next(h, e))
  {
    H.LogMoves(h, e);
    H.RowsMove(h, e);
    ColdUnwrittenMoves(h, e);
    if e.Insert? { ColdRowsSnoc(h.rows, H.Stored(h.handlers[e.k].row)); }
    if e.Measure? { SeenSnoc(h.log, H.Observed(h.handlers[e.k].row)); }
  }

  // ---------------------------------------------------------------- what every step keeps

  /** A handler of the store is a call that has recorded its result, and holds it. */
  ghost predicate Matched(s: State) {
    && s.manager.core.log == s.store.log
    && (forall k :: k in s.store.handlers <==> k in s.manager.calls && s.manager.calls[k].phase.Recorded?)
    && (forall k :: k in s.store.handlers ==> H.Observed(s.store.handlers[k].row) == s.manager.calls[k].phase.result)
    && (forall k :: k in s.store.handlers ==> !s.store.handlers[k].phase.Invoked?)
  }

  ghost predicate Inv(s: State) {
    P.Inv(s.manager) && Whole(s.manager) && H.Inv(s.store) && ColdAgrees(s.store) && Matched(s)
  }

  /** Only recording writes the log or makes a call recorded, and it is never undone. */
  lemma ManageKeepsRecorded(s: P.State, step: P.Step)
    requires P.Enabled(s, step) && !step.event.Record?
    ensures P.Next(s, step).core.log == s.core.log
    ensures forall k :: (k in s.calls && s.calls[k].phase.Recorded?) <==>
                        (k in P.Next(s, step).calls && P.Next(s, step).calls[k].phase.Recorded?)
    ensures forall k :: k in s.calls && s.calls[k].phase.Recorded? ==> P.Next(s, step).calls[k] == s.calls[k]
  {
    if step.event.ReapPass? { L.ReapEffect(s.core, step.event.order, step.now); }
  }

  lemma StoreKeepsResults(h: H.State, e: H.Event)
    requires H.Enabled(h, e) && !e.Arrive? && !e.Measure?
    ensures var t := H.Next(h, e);
            && t.log == h.log && t.handlers.Keys == h.handlers.Keys
            && (forall k :: k in h.handlers ==> t.handlers[k].row == h.handlers[k].row)
            && (forall k :: k in h.handlers && !h.handlers[k].phase.Invoked? ==> !t.handlers[k].phase.Invoked?)
  {
  }

  lemma RecordMatches(s: State, e: Event)
    requires Matched(s) && Whole(s.manager) && e.Record? && Enabled(s, e)
    ensures Matched(Next(s, e))
  {
    var result := s.manager.calls[e.k].phase.result;
    assert H.Observed(RowOf(result, e.name, e.input, e.output)) == result;
  }

  lemma StepKeepsMatched(s: State, e: Event)
    requires Matched(s) && Whole(s.manager) && Enabled(s, e)
    ensures Matched(Next(s, e))
  {
    match e
    case Manage(step) => ManageKeepsRecorded(s.manager, step);
    case Record(_, _, _, _, _) => RecordMatches(s, e);
    case Store(event) => StoreKeepsResults(s.store, event);
  }

  lemma StepKeepsInv(s: State, e: Event)
    requires Inv(s) && Enabled(s, e)
    ensures Inv(Next(s, e))
  {
    StepKeepsMatched(s, e);
    match e
    case Manage(step) =>
      P.StepKeepsInv(s.manager, step);
      StepKeepsWhole(s.manager, step);
    case Record(k, now, name, input, output) =>
      P.StepKeepsInv(s.manager, P.Step(P.Record(k), now));
      StepKeepsWhole(s.manager, P.Step(P.Record(k), now));
      RecordKeepsStore(s, e);
    case Store(event) =>
      H.StepKeepsInv(s.store, event);
      StepKeepsColdAgrees(s.store, event);
  }

  lemma RecordKeepsStore(s: State, e: Event)
    requires H.Inv(s.store) && ColdAgrees(s.store) && e.Record? && Enabled(s, e)
    ensures H.Inv(Next(s, e).store) && ColdAgrees(Next(s, e).store)
  {
    var arrive := H.Arrive(e.k, RowOf(s.manager.calls[e.k].phase.result, e.name, e.input, e.output));
    H.StepKeepsInv(s.store, arrive);
    H.StepKeepsInv(Arrived(s, e), H.Measure(e.k));
    StepKeepsColdAgrees(s.store, arrive);
    StepKeepsColdAgrees(Arrived(s, e), H.Measure(e.k));
  }

  lemma {:induction false} RunKeepsInv(s: State, events: seq<Event>)
    requires Inv(s) && IsRun(s, events)
    ensures Inv(After(s, events))
    decreases |events|
  {
    if events != [] {
      StepKeepsInv(s, events[0]);
      RunKeepsInv(Next(s, events[0]), events[1..]);
    }
  }

  lemma StartsOk(clock: int, store: H.State)
    requires H.Starts(store)
    ensures Inv(State(P.Init(clock), store))
  {
    P.InvHolds(clock, []);
    H.StartsOk(store);
    assert ColdUnwritten(store.handlers) == {};
  }

  // ---------------------------------------------------------------- results

  /** In every reachable state the runtimes created are the cold rows written since
      start, the handlers between their two records that hold a cold result, and the
      cold starts of calls not yet recorded; so they can be read off the history when
      nothing is in progress.  The handlers of the store are exactly the recorded
      calls, and a written row reports the result of its call. */
  lemma RowsAccountForRuntimes(clock: int, store: H.State, events: seq<Event>)
    requires H.Starts(store) && IsRun(State(P.Init(clock), store), events)
    ensures var s := After(State(P.Init(clock), store), events);
            && s.manager.core.created
               == ColdRows(s.store.rows) + |ColdUnwritten(s.store.handlers)| + |P.ColdPending(s.manager.calls)|
            && s.manager.core.created == |s.manager.core.runtimes| + L.TotalTerminated(s.manager.core.terminated)
            && (forall o :: multiset(s.manager.core.log)[o] == H.Tally(s.store.rows, o) + |H.Unwritten(s.store.handlers, o)|)
            && (forall k :: k in s.store.handlers <==> k in s.manager.calls && s.manager.calls[k].phase.Recorded?)
  {
    StartsOk(clock, store);
    RunKeepsInv(State(P.Init(clock), store), events);
    var s := After(State(P.Init(clock), store), events);
    forall o
      ensures multiset(s.manager.core.log)[o] == H.Tally(s.store.rows, o) + |H.Unwritten(s.store.handlers, o)|
    {
      assert H.Agrees(s.store, o);
    }
  }

  /** If the handler has answered, the row it names is that of its call. */
  ghost predicate Reports(s: State, k: P.CallId) {
    k in s.store.handlers && s.store.handlers[k].phase.Answered? ==>
      var i := s.store.handlers[k].phase.id - s.store.base;
      && k in s.manager.calls && s.manager.calls[k].phase.Recorded?
      && 0 <= i < |s.store.rows|
      && var row, result := s.store.rows[i], s.manager.calls[k].phase.result;
         && row.status == result.status && row.coldStart == result.coldStart && row.durationMs as real == result.durationMs
  }

  /** The row an answered handler names reports the result its call ended with. */
  lemma RowReportsCall(clock: int, store: H.State, events: seq<Event>, k: P.CallId)
    requires H.Starts(store) && IsRun(State(P.Init(clock), store), events)
    ensures Reports(After(State(P.Init(clock), store), events), k)
  {
    StartsOk(clock, store);
    RunKeepsInv(State(P.Init(clock), store), events);
    RowIsOfCall(After(State(P.Init(clock), store), events), k);
  }

  lemma RowIsOfCall(s: State, k: P.CallId)
    requires Matched(s) && |s.store.writers| == |s.store.rows| && (k in s.store.handlers ==> H.HandlerOk(s.store, k))
    ensures Reports(s, k)
  {
    if k in s.store.handlers { H.CutKeepsObserved(s.store.handlers[k].row); }
  }

  /** The store never keeps a call from recording: its handler is new. */
  lemma RecordIsNeverBlocked(clock: int, store: H.State, events: seq<Event>, e: Event)
    requires H.Starts(store) && IsRun(State(P.Init(clock), store), events) && e.Record?
    ensures var s := After(State(P.Init(clock), store), events);
            Enabled(s, e) <==> P.Enabled(s.manager, P.Step(P.Record(e.k), e.now))
  {
    StartsOk(clock, store);
    RunKeepsInv(State(P.Init(clock), store), events);
    var s := After(State(P.Init(clock), store), events);
    if P.Enabled(s.manager, P.Step(P.Record(e.k), e.now)) { RecordIsFree(s, e.k, e.now); }
  }

  lemma RecordIsFree(s: State, k: P.CallId, now: int)
    requires Matched(s) && P.Enabled(s.manager, P.Step(P.Record(k), now))
    ensures k !in s.store.handlers
  {
  }

  // ---------------------------------------------------------------- the row of one invocation

  /** If handler k has answered, the row it names is `row`. */
  ghost predicate Names(h: H.State, k: H.HandlerId, row: H.Row) {
    && k in h.handlers
    && (h.handlers[k].phase.Answered? ==>
          var i := h.handlers[k].phase.id - h.base;
          0 <= i < |h.rows| && h.rows[i] == row)
  }

  lemma StepKeepsRow(s: State, e: Event, k: H.HandlerId)
    requires Enabled(s, e) && k in s.store.handlers
    ensures k in Next(s, e).store.handlers && Next(s, e).store.handlers[k].row == s.store.handlers[k].row
  {
    if e.Store? { StoreKeepsResults(s.store, e.event); }
  }

  lemma {:induction false} RunKeepsRow(s: State, events: seq<Event>, k: H.HandlerId)
    requires IsRun(s, events) && k in s.store.handlers
    ensures k in After(s, events).store.handlers && After(s, events).store.handlers[k].row == s.store.handlers[k].row
    decreases |events|
  {
    if events != [] {
      StepKeepsRow(s, events[0], k);
      RunKeepsRow(Next(s, events[0]), events[1..], k);
    }
  }

  lemma RecordedRow(s: State, e: Event)
    requires e.Record? && Enabled(s, e)
    ensures var result := s.manager.calls[e.k].phase.result;
            && e.k in Next(s, e).store.handlers
            && H.Stored(Next(s, e).store.handlers[e.k].row)
               == H.Row(T.UpToNul(e.name), T.UpToNul(e.input), T.UpToNul(e.output),
                        result.status, result.durationMs.Floor, result.coldStart)
  {
  }

  lemma NamesOwnRow(h: H.State, k: H.HandlerId)
    requires |h.writers| == |h.rows| && k in h.handlers && H.HandlerOk(h, k)
    ensures Names(h, k, H.Stored(h.handlers[k].row))
  {
  }

  /** The row an answered handler names has the function, input and output the handler
      was given, each up to its first NUL, and the result of its call, however other
      handlers and deploys came in between. */
  lemma RowHoldsInvocation(clock: int, store: H.State, events: seq<Event>, e: Event, more: seq<Event>)
    requires H.Starts(store) && IsRun(State(P.Init(clock), store), events)
    requires e.Record? && Enabled(After(State(P.Init(clock), store), events), e)
    requires IsRun(Next(After(State(P.Init(clock), store), events), e), more)
    ensures var s := After(State(P.Init(clock), store), events);
            var result := s.manager.calls[e.k].phase.result;
            Names(After(Next(s, e), more).store, e.k,
                  H.Row(T.UpToNul(e.name), T.UpToNul(e.input), T.UpToNul(e.output),
                        result.status, result.durationMs.Floor, result.coldStart))
  {
    StartsOk(clock, store);
    RunKeepsInv(State(P.Init(clock), store), events);
    var s := After(State(P.Init(clock), store), events);
    RecordedRow(s, e);
    NamesLater(s, e, more);
  }

  lemma NamesLater(s: State, e: Event, more: seq<Event>)
    requires Inv(s) && e.Record? && Enabled(s, e) && IsRun(Next(s, e), more) && e.k in Next(s, e).store.handlers
    ensures Names(After(Next(s, e), more).store, e.k, H.Stored(Next(s, e).store.handlers[e.k].row))
  {
    StepKeepsInv(s, e);
    RunKeepsInv(Next(s, e), more);
    RunKeepsRow(Next(s, e), more, e.k);
    NamesOwnRow(After(Next(s, e), more).store, e.k);
  }
}
