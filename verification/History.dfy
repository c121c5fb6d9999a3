/** Invocation history against metrics (control-plane/src/main.cpp,
    invocation_store.cpp, database.cpp): invoke handlers write the metrics, then a
    row, sharing one connection with each other and with deploy requests.  A
    `Statement` holds the database lock from its construction to its destruction. */
module History {
  import opened Options
  import opened Text
  import Lifecycle
  import Metrics

  type HandlerId = nat

  datatype Row = Row(name: string, input: string, output: string, status: Lifecycle.Status, durationMs: int, coldStart: bool)

  /** The row as the database stores it and gives it back. */
  function Stored(row: Row): Row {
    row.(name := UpToNul(row.name), input := UpToNul(row.input), output := UpToNul(row.output))
  }

  function Observed(row: Row): Metrics.Observation<Lifecycle.Status> {
    Metrics.Observation(row.status, row.coldStart, row.durationMs as real)
  }

  datatype Phase =
    | Invoked                // result known, metrics not yet written
    | Measured               // metrics written, waiting for the database
    | Prepared               // statement constructed: the lock is held
    | Inserted               // statement stepped
    | Numbered(id: int)      // last insert id read, statement still alive
    | Answered(id: int)      // statement destroyed, response sent

  datatype Handler = Handler(row: Row, phase: Phase)

  datatype Owner = Invoker(k: HandlerId) | Deployer(j: nat)

  /** `rows[i]` is the invocation with id `base + i`; `writers[i]` wrote it.
      Invocations of earlier runs of the process have ids below `base`. */
  datatype State = State(
    handlers: map<HandlerId, Handler>,
    log: seq<Metrics.Observation<Lifecycle.Status>>,
    lock: Option<Owner>,
    base: int,
    earlier: map<int, Row>,
    rows: seq<Row>,
    writers: seq<HandlerId>,
    lastInsertId: int)

  datatype Event =
    | Arrive(k: HandlerId, row: Row)
    | Measure(k: HandlerId)
    | Prepare(k: HandlerId)
    | Insert(k: HandlerId)
    | ReadId(k: HandlerId)
    | Finish(k: HandlerId)
    | DeployLock(j: nat)
    | DeployInsert(j: nat, rowid: int)   // an upsert into the other table moves the last insert id
    | DeployUnlock(j: nat)

  ghost predicate Starts(s: State) {
    && s.handlers == map[] && s.log == [] && s.lock == None && s.rows == [] && s.writers == []
    && forall id :: id in s.earlier ==> id < s.base
  }

  predicate In(s: State, k: HandlerId, phase: Phase) { k in s.handlers && s.handlers[k].phase == phase }

  predicate Enabled(s: State, e: Event) {
    match e
    case Arrive(k, _) => k !in s.handlers
    case Measure(k) => In(s, k, Invoked)
    case Prepare(k) => In(s, k, Measured) && s.lock == None
    case Insert(k) => In(s, k, Prepared)
    case ReadId(k) => In(s, k, Inserted)
    case Finish(k) => k in s.handlers && s.handlers[k].phase.Numbered?
    case DeployLock(_) => s.lock == None
    case DeployInsert(j, _) => s.lock == Some(Deployer(j))
    case DeployUnlock(j) => s.lock == Some(Deployer(j))
  }

  function Move(s: State, k: HandlerId, phase: Phase): State
    requires k in s.handlers
  {
    s.(handlers := s.handlers[k := s.handlers[k].(phase := phase)])
  }

  function Next(s: State, e: Event): State
    requires Enabled(s, e)
  {
    match e
    case Arrive(k, row) => s.(handlers := s.handlers[k := Handler(row, Invoked)])
    case Measure(k) => Move(s, k, Measured).(log := s.log + [Observed(s.handlers[k].row)])
    case Prepare(k) => Move(s, k, Prepared).(lock := Some(Invoker(k)))
    case Insert(k) =>
      Move(s, k, Inserted).(rows := s.rows + [Stored(s.handlers[k].row)], writers := s.writers + [k], lastInsertId := s.base + |s.rows|)
    case ReadId(k) => Move(s, k, Numbered(s.lastInsertId))
    case Finish(k) => Move(s, k, Answered(s.handlers[k].phase.id)).(lock := None)
    case DeployLock(j) => s.(lock := Some(Deployer(j)))
    case DeployInsert(j, rowid) => s.(lastInsertId := rowid)
    case DeployUnlock(j) => s.(lock := None)
  }

  predicate IsRun(s: State, events: seq<Event>)
    decreases |events|
  {
    events != [] ==> Enabled(s, events[0]) && IsRun(Next(s, events[0]), events[1..])
  }

  function After(s: State, events: seq<Event>): State
    requires IsRun(s, events)
    decreases |events|
  {
    if events == [] then s else After(Next(s, events[0]), events[1..])
  }

  // ---------------------------------------------------------------- what every step keeps

  /** Row number `id` of this run was written by handler k and holds its result. */
  ghost predicate Owns(s: State, k: HandlerId, id: int)
    requires |s.writers| == |s.rows|
  {
    && k in s.handlers && s.base <= id < s.base + |s.rows|
    && s.writers[id - s.base] == k && s.rows[id - s.base] == Stored(s.handlers[k].row)
  }

  ghost predicate HandlerOk(s: State, k: HandlerId)
    requires k in s.handlers && |s.writers| == |s.rows|
  {
    match s.handlers[k].phase
    case Prepared => s.lock == Some(Invoker(k))
    case Inserted => s.lock == Some(Invoker(k)) && Owns(s, k, s.lastInsertId)
    case Numbered(id) => s.lock == Some(Invoker(k)) && Owns(s, k, id)
    case Answered(id) => Owns(s, k, id)
    case _ => true
  }

  /** The handler is between its two records: measured, its row not written. */
  predicate Unrecorded(h: Handler) { h.phase.Measured? || h.phase.Prepared? }

  predicate Between(h: Handler, o: Metrics.Observation<Lifecycle.Status>) { Unrecorded(h) && Observed(h.row) == o }

  function Unwritten(handlers: map<HandlerId, Handler>, o: Metrics.Observation<Lifecycle.Status>): set<HandlerId> {
    set k | k in handlers && Between(handlers[k], o)
  }

  function Tally(rows: seq<Row>, o: Metrics.Observation<Lifecycle.Status>): nat {
    if rows == [] then 0
    else Tally(rows[..|rows| - 1], o) + if Observed(rows[|rows| - 1]) == o then 1 else 0
  }

  ghost predicate Agrees(s: State, o: Metrics.Observation<Lifecycle.Status>) {
    multiset(s.log)[o] == Tally(s.rows, o) + |Unwritten(s.handlers, o)|
  }

  ghost predicate Inv(s: State) {
    && |s.writers| == |s.rows|
    && (forall k :: k in s.handlers ==> HandlerOk(s, k))
    && (forall o :: Agrees(s, o))
    && (forall id :: id in s.earlier ==> id < s.base)
  }

  /** The handler that takes the step, if one does. */
  function Actor(e: Event): Option<HandlerId> {
    match e
    case DeployLock(_) => None
    case DeployInsert(_, _) => None
    case DeployUnlock(_) => None
    case _ => Some(e.k)
  }

  lemma ActorOk(s: State, e: Event)
    requires |s.writers| == |s.rows| && Enabled(s, e) && Actor(e).Some? && (e.k in s.handlers ==> HandlerOk(s, e.k))
    ensures var t := Next(s, e);
            |t.writers| == |t.rows| && HandlerOk(t, e.k)
  {
  }

  /** A step of somebody else; the lock keeps two handlers from being between prepare
      and finish at once. */
  lemma OtherOk(s: State, e: Event, k: HandlerId)
    requires |s.writers| == |s.rows| && Enabled(s, e) && k in s.handlers && HandlerOk(s, k) && Actor(e) != Some(k)
    requires Actor(e).Some? && e.k in s.handlers ==> HandlerOk(s, e.k)
    ensures var t := Next(s, e);
            |t.writers| == |t.rows| && k in t.handlers && HandlerOk(t, k)
  {
    var t, h := Next(s, e), s.handlers[k];
    assert t.handlers[k] == h;
    if h.phase.Answered? { OwnsKept(s, t, k, h.phase.id); }
    if h.phase.Numbered? { OwnsKept(s, t, k, h.phase.id); }
  }

  lemma OwnsKept(s: State, t: State, k: HandlerId, id: int)
    requires |s.writers| == |s.rows| && |t.writers| == |t.rows| && Owns(s, k, id)
    requires t.base == s.base && s.rows <= t.rows && s.writers <= t.writers
    requires k in t.handlers && t.handlers[k].row == s.handlers[k].row
    ensures Owns(t, k, id)
  {
  }

  lemma StepKeepsHandlers(s: State, e: Event)
    requires |s.writers| == |s.rows| && (forall k :: k in s.handlers ==> HandlerOk(s, k)) && Enabled(s, e)
    ensures var t := Next(s, e);
            |t.writers| == |t.rows| && forall k :: k in t.handlers ==> HandlerOk(t, k)
  {
    var t := Next(s, e);
    assert |t.writers| == |t.rows|;
    forall k | k in t.handlers
      ensures HandlerOk(t, k)
    {
      if Actor(e) == Some(k) { ActorOk(s, e); } else { OtherOk(s, e, k); }
    }
  }

  lemma UnwrittenUpdate(handlers: map<HandlerId, Handler>, k: HandlerId, h: Handler, o: Metrics.Observation<Lifecycle.Status>)
    ensures |Unwritten(handlers[k := h], o)|
         == |Unwritten(handlers, o)|
            - (if k in handlers && Between(handlers[k], o) then 1 else 0)
            + (if Between(h, o) then 1 else 0)
  {
    Lifecycle.SizeMoves(Unwritten(handlers, o), Unwritten(handlers[k := h], o), k);
  }

  lemma CutKeepsObserved(row: Row)
    ensures Observed(Stored(row)) == Observed(row)
  {
  }

  lemma TallySnoc(rows: seq<Row>, row: Row, o: Metrics.Observation<Lifecycle.Status>)
    ensures Tally(rows + [row], o) == Tally(rows, o) + if Observed(row) == o then 1 else 0
  {
    assert (rows + [row])[..|rows|] == rows;
  }

  /** A step that measures adds its observation to the log. */
  lemma LogMoves(s: State, e: Event)
    requires Enabled(s, e)
    ensures Next(s, e).log == if e.Measure? then s.log + [Observed(s.handlers[e.k].row)] else s.log
  {
  }

  lemma RowsMove(s: State, e: Event)
    requires Enabled(s, e)
    ensures Next(s, e).rows == if e.Insert? then s.rows + [Stored(s.handlers[e.k].row)] else s.rows
  {
  }

  lemma HandlersMove(s: State, e: Event)
    requires Enabled(s, e)
    ensures Actor(e).None? ==> Next(s, e).handlers == s.handlers
    ensures Actor(e).Some? ==>
              && e.k in Next(s, e).handlers && Next(s, e).handlers == s.handlers[e.k := Next(s, e).handlers[e.k]]
              && (!e.Arrive? ==> e.k in s.handlers && Next(s, e).handlers[e.k].row == s.handlers[e.k].row)
              && (Unrecorded(Next(s, e).handlers[e.k]) <==> e.Measure? || e.Prepare?)
              && (e.k in s.handlers && Unrecorded(s.handlers[e.k]) <==> e.Prepare? || e.Insert?)
  {
  }

  lemma UnwrittenMoves(s: State, e: Event, o: Metrics.Observation<Lifecycle.Status>)
    requires Enabled(s, e)
    ensures |Unwritten(Next(s, e).handlers, o)| + (if e.Insert? && Observed(s.handlers[e.k].row) == o then 1 else 0)
         == |Unwritten(s.handlers, o)| + (if e.Measure? && Observed(s.handlers[e.k].row) == o then 1 else 0)
  {
    HandlersMove(s, e);
    if Actor(e).Some? { UnwrittenUpdate(s.handlers, e.k, Next(s, e).handlers[e.k], o); }
  }

  lemma TallyMoves(s: State, e: Event, o: Metrics.Observation<Lifecycle.Status>)
    requires Enabled(s, e)
    ensures Tally(Next(s, e).rows, o)
         == Tally(s.rows, o) + (if e.Insert? && Observed(s.handlers[e.k].row) == o then 1 else 0)
  {
    RowsMove(s, e);
    if e.Insert? {
      CutKeepsObserved(s.handlers[e.k].row);
      TallySnoc(s.rows, Stored(s.handlers[e.k].row), o);
    }
  }

  lemma StepKeepsAgreement(s: State, e: Event, o: Metrics.Observation<Lifecycle.Status>)
    requires Agrees(s, o) && Enabled(s, e)
    ensures Agrees(Next(s, e), o)
  {
    LogMoves(s, e);
    TallyMoves(s, e, o);
    UnwrittenMoves(s, e, o);
  }

  lemma StepKeepsInv(s: State, e: Event)
    requires Inv(s) && Enabled(s, e)
    ensures Inv(Next(s, e))
  {
    StepKeepsHandlers(s, e);
    forall o
      ensures Agrees(Next(s, e), o)
    {
      StepKeepsAgreement(s, e, o);
    }
  }

  lemma {:induction false} RunKeepsInv(s: State, events: seq<Event>)
    requires Inv(s) && IsRun(s, events)
    ensures Inv(After(s, events))
    decreases |events|
  {
    if events != [] {
      StepKeepsInv(s, events[0]);
      RunKeepsInv(Next(s, events[0]), events[1..]);
    }
  }

  lemma StartsOk(s: State)
    requires Starts(s)
    ensures Inv(s)
  {
    forall o
      ensures Agrees(s, o)
    {
      assert Unwritten(s.handlers, o) == {};
    }
  }

  // ---------------------------------------------------------------- results

  /** The row with that id.  What is stored holds no NUL, so reading a column does not
      cut it again. */
  function RowAt(s: State, id: int): Option<Row> {
    if s.base <= id < s.base + |s.rows| then Some(s.rows[id - s.base])
    else if id in s.earlier then Some(s.earlier[id])
    else None
  }

  predicate IsLong(n: int) { -0x8000_0000_0000_0000 <= n <= 0x7fff_ffff_ffff_ffff }

  /** `InvocationStore::get`: parse the id, look the row up. */
  function Lookup(s: State, id: string): Option<Row> {
    match ScanInteger(id)
    case None => None
    case Some(n) => if IsLong(n) then RowAt(s, n) else None
  }

  /** At every moment the observations in the metrics are those of the rows written
      since start plus those of the handlers between their two records. */
  lemma HistoryAgreesWithMetrics(s: State, events: seq<Event>, o: Metrics.Observation<Lifecycle.Status>)
    requires Starts(s) && IsRun(s, events)
    ensures var t := After(s, events);
            multiset(t.log)[o] == Tally(t.rows, o) + |Unwritten(t.handlers, o)|
  {
    StartsOk(s);
    RunKeepsInv(s, events);
    assert Agrees(After(s, events), o);
  }

  lemma {:induction false} HistoryOnlyGrows(s: State, events: seq<Event>)
    requires IsRun(s, events)
    ensures var t := After(s, events);
            t.base == s.base && t.earlier == s.earlier && |s.rows| <= |t.rows| && t.rows[..|s.rows|] == s.rows
    decreases |events|
  {
    if events != [] {
      var next := Next(s, events[0]);
      HistoryOnlyGrows(next, events[1..]);
      var t := After(s, events);
      assert next.rows[..|s.rows|] == s.rows;
      assert t.rows[..|s.rows|] == t.rows[..|next.rows|][..|s.rows|];
    }
  }

  lemma HandlerRow(t: State, k: HandlerId)
    requires Inv(t) && k in t.handlers && t.handlers[k].phase.Answered?
    ensures var i := t.handlers[k].phase.id - t.base;
            0 <= i < |t.rows| && t.rows[i] == Stored(t.handlers[k].row) && t.writers[i] == k
  {
    assert HandlerOk(t, k);
  }

  lemma NothingAround(text: string)
    ensures "" + (text + "") == text
  {
  }

  lemma LookupPrinted(u: State, id: int)
    requires IsLong(id)
    ensures Lookup(u, SignedDecimal(id)) == RowAt(u, id)
  {
    NothingAround(SignedDecimal(id));
    ScanPrinted("", id, "");
  }

  predicate NulFreeRow(row: Row) { NulFree(row.name) && NulFree(row.input) && NulFree(row.output) }

  lemma StoredIff(row: Row)
    ensures Stored(row) == row <==> NulFreeRow(row)
    ensures NulFreeRow(Stored(row))
  {
  }

  /** Each handler answers with the id of the row it wrote itself, no two with the
      same id, and looking that id up, then and at any later time, gives its row with
      the texts up to their first NUL: its whole row exactly when they hold none. */
  lemma HandlersGetTheirOwnId(s: State, events: seq<Event>, more: seq<Event>, k: HandlerId, j: HandlerId)
    requires Starts(s) && IsRun(s, events) && IsRun(After(s, events), more)
    requires k in After(s, events).handlers && After(s, events).handlers[k].phase.Answered?
    ensures var t := After(s, events);
            var id, row := t.handlers[k].phase.id, t.handlers[k].row;
            && (j in t.handlers && t.handlers[j].phase.Answered? && j != k ==> t.handlers[j].phase.id != id)
            && (IsLong(id) ==>
                  && Lookup(After(t, more), SignedDecimal(id)) == Some(Stored(row))
                  && (Lookup(After(t, more), SignedDecimal(id)) == Some(row) <==> NulFreeRow(row)))
  {
    StartsOk(s);
    RunKeepsInv(s, events);
    var t := After(s, events);
    HandlerRow(t, k);
    if j in t.handlers && t.handlers[j].phase.Answered? { HandlerRow(t, j); }
    if IsLong(t.handlers[k].phase.id) { LookupLater(t, more, t.handlers[k].phase.id, t.handlers[k].row); }
  }

  lemma LookupLater(t: State, more: seq<Event>, id: int, row: Row)
    requires IsRun(t, more) && IsLong(id) && t.base <= id < t.base + |t.rows| && t.rows[id - t.base] == Stored(row)
    ensures Lookup(After(t, more), SignedDecimal(id)) == Some(Stored(row))
    ensures Lookup(After(t, more), SignedDecimal(id)) == Some(row) <==> NulFreeRow(row)
  {
    RowLater(t, more, id);
    LookupPrinted(After(t, more), id);
    StoredIff(row);
  }

  lemma RowLater(t: State, more: seq<Event>, id: int)
    requires IsRun(t, more) && t.base <= id < t.base + |t.rows|
    ensures RowAt(After(t, more), id) == Some(t.rows[id - t.base])
  {
    var u := After(t, more);
    HistoryOnlyGrows(t, more);
    assert u.rows[id - u.base] == u.rows[..|t.rows|][id - t.base];
  }

  /** A handler that owns the lock is between constructing and destroying its statement. */
  ghost predicate LockInUse(s: State) {
    forall k :: s.lock == Some(Invoker(k)) ==>
                  k in s.handlers && (s.handlers[k].phase.Prepared? || s.handlers[k].phase.Inserted? || s.handlers[k].phase.Numbered?)
  }

  lemma StepKeepsLockInUse(s: State, e: Event)
    requires LockInUse(s) && Enabled(s, e)
    requires Actor(e).Some? && e.k in s.handlers && |s.writers| == |s.rows| ==> HandlerOk(s, e.k)
    requires |s.writers| == |s.rows|
    ensures LockInUse(Next(s, e))
  {
  }

  lemma {:induction false} RunKeepsLockInUse(s: State, events: seq<Event>)
    requires LockInUse(s) && Inv(s) && IsRun(s, events)
    ensures LockInUse(After(s, events))
    decreases |events|
  {
    if events != [] {
      StepKeepsLockInUse(s, events[0]);
      StepKeepsInv(s, events[0]);
      RunKeepsLockInUse(Next(s, events[0]), events[1..]);
    }
  }

  /** The database lock never keeps everybody waiting: while a handler has not
      answered, it, the handler that owns the lock or the deploy that does can go on. */
  lemma SomebodyGoesOn(s: State, events: seq<Event>, k: HandlerId)
    requires Starts(s) && IsRun(s, events)
    ensures var t := After(s, events);
            k in t.handlers && !t.handlers[k].phase.Answered? ==>
              exists e :: Enabled(t, e) && !e.Arrive? && !e.DeployLock? && !e.DeployInsert?
  {
    StartsOk(s);
    RunKeepsLockInUse(s, events);
    var t := After(s, events);
    if k in t.handlers && !t.handlers[k].phase.Answered? { HandlerGoesOn(t, k); }
  }

  lemma HandlerGoesOn(t: State, k: HandlerId)
    requires LockInUse(t) && k in t.handlers && !t.handlers[k].phase.Answered?
    ensures exists e :: Enabled(t, e) && !e.Arrive? && !e.DeployLock? && !e.DeployInsert?
  {
    var owner := if t.lock.Some? && t.lock.value.Invoker? then t.lock.value.k else k;
    var phase := t.handlers[owner].phase;
    var e :=
      if phase.Invoked? then Measure(owner)
      else if phase.Measured? then (if t.lock == None then Prepare(owner) else DeployUnlock(t.lock.value.j))
      else if phase.Prepared? then Insert(owner)
      else if phase.Inserted? then ReadId(owner)
      else Finish(owner);
    assert Enabled(t, e);
  }

  /** What an id looks up, in any reachable state: the row of an earlier run of the
      process, the row of this one, or nothing; and a number no id can be, or a text
      that is none, looks up nothing. */
  lemma LookupIs(s: State, events: seq<Event>, n: int)
    requires Starts(s) && IsRun(s, events)
    ensures var t := After(s, events);
            && (IsLong(n) && n in s.earlier ==> Lookup(t, SignedDecimal(n)) == Some(s.earlier[n]))
            && (IsLong(n) && s.base <= n < s.base + |t.rows| ==> Lookup(t, SignedDecimal(n)) == Some(t.rows[n - s.base]))
            && (Lookup(t, SignedDecimal(n)).Some? ==> IsLong(n) && (n in s.earlier || s.base <= n < s.base + |t.rows|))
  {
    HistoryOnlyGrows(s, events);
    NothingAround(SignedDecimal(n));
    ScanPrinted("", n, "");
  }

  lemma LookupOfText(t: State, text: string)
    requires text == "" || !(IsDigit(text[0]) || IsSpace(text[0]) || text[0] == '-' || text[0] == '+')
    ensures Lookup(t, text) == None
  {
    NothingAround(text);
    assert "" + ("" + text) == text;
    ScanFails("", "", text);
  }

  // ---------------------------------------------------------------- a row that is cut

  lemma {:induction false} Extend(s: State, events: seq<Event>, e: Event, t: State)
    requires IsRun(s, events) && Enabled(After(s, events), e) && Next(After(s, events), e) == t
    ensures IsRun(s, events + [e]) && After(s, events + [e]) == t
    decreases |events|
  {
    var longer := events + [e];
    if events == [] {
      assert longer[1..] == [];
    } else {
      Extend(Next(s, events[0]), events[1..], e, t);
      assert longer[1..] == events[1..] + [e];
    }
  }

  function Alone(k: HandlerId, row: Row): seq<Event> {
    [Arrive(k, row)] + [Measure(k)] + [Prepare(k)] + [Insert(k)] + [ReadId(k)] + [Finish(k)]
  }

  function At(s: State, k: HandlerId, row: Row, phase: Phase): State {
    s.(handlers := s.handlers[k := Handler(row, phase)])
  }

  /** The state once the handler's row is written. */
  function Written(s: State, k: HandlerId, row: Row): State {
    s.(log := s.log + [Observed(row)], rows := s.rows + [Stored(row)], writers := s.writers + [k],
       lastInsertId := s.base + |s.rows|)
  }

  lemma Moves(s: State, k: HandlerId, row: Row, phase: Phase, next: Phase)
    ensures Move(At(s, k, row, phase), k, next) == At(s, k, row, next)
  {
    assert s.handlers[k := Handler(row, phase)][k := Handler(row, next)] == s.handlers[k := Handler(row, next)];
  }

  /** A handler nobody disturbs. */
  lemma AloneRuns(s: State, k: HandlerId, row: Row)
    requires k !in s.handlers && s.lock == None
    ensures IsRun(s, Alone(k, row))
    ensures After(s, Alone(k, row)) == At(Written(s, k, row), k, row, Answered(s.base + |s.rows|))
  {
    var id, prepared := s.base + |s.rows|, [Arrive(k, row)] + [Measure(k)] + [Prepare(k)];
    var written := Written(s, k, row).(lock := Some(Invoker(k)));
    PreparedAlone(s, k, row);
    Moves(s.(log := s.log + [Observed(row)], lock := Some(Invoker(k))), k, row, Prepared, Inserted);
    Extend(s, prepared, Insert(k), At(written, k, row, Inserted));
    Moves(written, k, row, Inserted, Numbered(id));
    Extend(s, prepared + [Insert(k)], ReadId(k), At(written, k, row, Numbered(id)));
    Moves(written, k, row, Numbered(id), Answered(id));
    Extend(s, prepared + [Insert(k)] + [ReadId(k)], Finish(k), At(Written(s, k, row), k, row, Answered(id)));
  }

  lemma PreparedAlone(s: State, k: HandlerId, row: Row)
    requires k !in s.handlers && s.lock == None
    ensures var events := [Arrive(k, row)] + [Measure(k)] + [Prepare(k)];
            && IsRun(s, events)
            && After(s, events) == At(s.(log := s.log + [Observed(row)], lock := Some(Invoker(k))), k, row, Prepared)
  {
    var measured := s.(log := s.log + [Observed(row)]);
    Extend(s, [], Arrive(k, row), At(s, k, row, Invoked));
    assert [] + [Arrive(k, row)] == [Arrive(k, row)];
    Moves(s, k, row, Invoked, Measured);
    Extend(s, [Arrive(k, row)], Measure(k), At(measured, k, row, Measured));
    Moves(measured, k, row, Measured, Prepared);
    Extend(s, [Arrive(k, row)] + [Measure(k)], Prepare(k), At(measured.(lock := Some(Invoker(k))), k, row, Prepared));
  }

  const CUT := Row("hello", "a\0b", "ok", Lifecycle.Success, 3, false)

  lemma CutIsStored()
    ensures Stored(CUT) == CUT.(input := "a")
  {
    assert NulFree(CUT.name) && NulFree(CUT.output);
    assert CUT.input[1] == '\0' && CUT.input[..1] == "a";
  }

  /** An input with a NUL is counted and answered for, but its history ends at the NUL. */
  lemma NulInputIsCut(s: State, k: HandlerId)
    requires Starts(s) && IsLong(s.base)
    ensures IsRun(s, Alone(k, CUT))
    ensures var t := After(s, Alone(k, CUT));
            && k in t.handlers && t.handlers[k] == Handler(CUT, Answered(s.base))
            && Lookup(t, SignedDecimal(s.base)) == Some(CUT.(input := "a"))
  {
    LookupAlone(s, k, CUT);
    CutIsStored();
  }

  lemma LookupAlone(s: State, k: HandlerId, row: Row)
    requires k !in s.handlers && s.lock == None && IsLong(s.base + |s.rows|)
    ensures IsRun(s, Alone(k, row))
    ensures var t := After(s, Alone(k, row));
            && k in t.handlers && t.handlers[k] == Handler(row, Answered(s.base + |s.rows|))
            && Lookup(t, SignedDecimal(s.base + |s.rows|)) == Some(Stored(row))
  {
    AloneRuns(s, k, row);
    WrittenRow(s, k, row);
    LookupPrinted(After(s, Alone(k, row)), s.base + |s.rows|);
  }

  lemma WrittenRow(s: State, k: HandlerId, row: Row)
    ensures RowAt(At(Written(s, k, row), k, row, Answered(s.base + |s.rows|)), s.base + |s.rows|) == Some(Stored(row))
  {
  }
}
