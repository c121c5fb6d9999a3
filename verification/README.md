# A verified model of the serverless control plane

The control plane keeps at most one running container ("runtime") per function,
starts it on demand, reuses it while it is warm, retires it when it times out or
dies, and removes it after a function-specific idle time.  Invocations, deletes
and a reaper thread act on it concurrently.  Around this sit a hand-written
HTTP/1.1 client and server, a router, a metrics registry, an invocation history in
SQLite and a Kubernetes backend.

This project models that behaviour in Dafny 4.11 and proves what it guarantees
over every input and every interleaving.  `dafny verify dfyconfig.toml` checks it.

| file | content |
|---|---|
| `Lifecycle.dfy` | the manager's table; one function per lock region; what each keeps |
| `Protocol.dfy` | the transition system of all interleavings, its invariants |
| `Guarantees.dfy` | the theorems over all runs |
| `Counterexamples.dfy` | claims that fail, with a run against each and the exact condition |
| `Invocation.dfy` | one undisturbed invocation with its retry decision, and the run of the protocol it is |
| `RuntimeManager.dfy` | the manager as a class, each critical section proved against `Lifecycle`, `Invoke` against `Invocation` |
| `Metrics.dfy` | counters and cumulative histograms against the log of observations |
| `ControlPlane.dfy` | deploy, delete and invoke handlers, with reaper and restarts |
| `History.dfy` | metrics, invocation rows and ids under a shared database connection |
| `Accounting.dfy` | manager, metrics and history run together: rows against runtimes |
| `Text.dfy`, `Http.dfy`, `HttpServer.dfy`, `HttpClient.dfy` | printers, parsers, read loops, round trips |
| `Router.dfy` | path splitting, matching, dispatch, the route table |
| `Kubernetes.dfy` | the Kubernetes backend: generated names, pods and services under failing commands |
| `KubernetesManager.dfy` | the manager run on that backend; the cluster against the manager's table |
| `Percentiles.dfy` | the benchmark's interpolated percentile over exact reals |

How the model stands to the program:

- An invocation is split at the points where the manager's lock is taken or
  released and where the clock is read outside it; everything in between is one
  step.  The clock is monotone, in nanoseconds, and `duration_cast` truncates.
- Answers from outside (backend commands, health probes, HTTP responses, clock
  readings, `recv` chunks) are parameters or nondeterministic.  The only assumption
  on the backend is that the ids it returns are new (`Lifecycle.FreshFor`);
  `KubernetesManager.dfy` drops it and proves it for the generated pod names.
- "Removed" means handed to `remove_container`, whose result the manager ignores;
  `KubernetesManager.dfy` says what then stays in the cluster.
- A call the client reports as failed, other than by a stalled `recv`, is
  "unreachable" to the manager.  That includes a reply that broke off after the
  request had gone out, so a retry can repeat a request that arrived.
- Iteration over a `std::map` is modelled by an arbitrary enumeration of its keys,
  so results hold for the sorted order in particular.
- Every text passes to and from the database as a C string without its length, so it
  ends there at its first NUL (`Text.UpToNul`); the manager compares whole names.
- Byte strings are Dafny strings.  Counters are unbounded.

Where a claim one might expect fails, the model follows the code, gives an input
or a run against it, and proves what holds instead, as an equivalence:

| claim | fails in | what holds |
|---|---|---|
| a failed cold start reports `cold_start: true` (docs/api.md:132-145) | `FailedStartIsNotCold` | `ColdFlagIff`: it never does |
| a retry runs on a freshly created runtime (control-plane/src/runtime_manager.cpp:213-218) | `RetryCanBeWarm` | `RetryStartsFreshIff` |
| one invocation sends its request to one container | `RequestCanBeSentTwice` | `SentTwiceIff` |
| a runtime with a call in flight is BUSY and not reaped | `OverlapIsReapedInFlight` | `ServingIsBusyIff`, `ReaperRemovesIff` |
| every runtime is of a registered function, if no requests overlap | `NulDeleteLeavesRuntime` | `SerialHandlersKeepRegistered` |
| a deleted function gets no runtime | `OverlapLeavesUnregisteredRuntime`, `NulDeleteLeavesRuntime` | `DeleteIsFinalIff` |
| the history returns an invocation as it was | `NulInputIsCut` | `HandlersGetTheirOwnId` |
| the cluster holds the tracked runtimes and nothing else | `FailedCleanupLeavesPod` | `ClusterMirrorsTable` |
| a header block within 2^20 bytes gets through | `LargeHeaderIsDropped` | `SplitTolerance` |
| percentiles of a non-empty sample can be computed | `OutsideTheScale` | `RaisesIff` |

## Model

| member | source | states |
|---|---|---|
| Lifecycle.EnterKeepsSound | control-plane/src/runtime_manager.cpp:133-160 | the first critical section (reuse, cold start, every failed start) keeps: each started container is tracked or was handed over exactly once, no two functions share one, created = active + terminated, only BUSY and IDLE are visible |
| Lifecycle.CompleteKeepsSound | control-plane/src/runtime_manager.cpp:167-202 | the second critical section keeps the same, for every response class and whether or not the container is still tracked |
| Lifecycle.DropKeepsSound | control-plane/src/runtime_manager.cpp:122-124 | hand over, erase, count: keeps the same |
| Lifecycle.ReapKeepsSound | control-plane/src/runtime_manager.cpp:67-79 | a reaper pass keeps the same |
| Lifecycle.ReapEffect | control-plane/src/runtime_manager.cpp:69-79 | a pass over any repetition-free list of names: exact new table, removal list and counters |
| Lifecycle.ReapIsFilter | control-plane/src/runtime_manager.cpp:67-79 | erase-while-iterating equals a filter for any iteration order: survivors unchanged, exactly the expired containers handed over, the idle_timeout counter grows by their number, other counters unchanged |
| Protocol.StepKeepsSound | control-plane/src/runtime_manager.cpp:34-204 | conservation, balance and visible states survive every step of every thread |
| Protocol.StepEvolves | control-plane/src/runtime_manager.cpp:67-202 | any step leaves an entry with its container, port and idle timeout and no older stamp, or puts a container there that did not exist before; removals are never forgotten |
| Protocol.StepKeepsTimely | control-plane/src/runtime_manager.cpp:155-158 | a container with a call in flight is tracked only under that call's function, at the port the call uses, stamped no earlier than the call entered |
| Protocol.StepKeepsBusyIsServing | control-plane/src/runtime_manager.cpp:155-202 | BUSY keeps implying a call in flight on exactly that container |
| Protocol.FailureLeavesTable | control-plane/src/runtime_manager.cpp:168-187 | after a timeout or an unreachable container the container is among the removals, even if another thread replaced it |
| Protocol.StepKeepsCallsOk | control-plane/src/runtime_manager.cpp:127-225 | attempts, targets and results of every call stay consistent with the removals |
| Protocol.StepKeepsColdStarts | control-plane/src/runtime_manager.cpp:148-150 | created = cold observations logged + cold starts held by unfinished calls, at every step |
| Protocol.StepKeepsClocked | control-plane/src/runtime_manager.cpp:14-17 | measured durations keep covering all attempts of their call |
| Protocol.StepKeepsProvenance | control-plane/src/runtime_manager.cpp:48-54 | every entry keeps a call that started it with that call's idle timeout |
| Protocol.InvHolds | control-plane/src/runtime_manager.cpp:20-225 | all invariants hold in every state of every interleaving from start |
| Guarantees.ContainerConservation | control-plane/src/runtime_manager.cpp:34-204 | in every reachable state: started = tracked + removed as a disjoint union, nothing removed twice, no sharing, and the sizes add up |
| Guarantees.ColdStartAccounting | control-plane/src/runtime_manager.cpp:67-225 | runtimes_created equals active + terminations over all reasons, and equals the sum of the cold invocation counters over all outcomes + the cold starts of calls not yet recorded |
| Guarantees.RetrySoundness | control-plane/src/runtime_manager.cpp:207-225 | at most two attempts; when there are two, the first was warm and the client reported a failure other than a receive timeout, its container is gone for good, and the second targets another one; so run_container is called at most once and a receive timeout is never retried |
| Guarantees.TerminationAccounting | control-plane/src/runtime_manager.cpp:67-204 | over every run each termination counter counts what its label says: timeouts on a tracked container, dead ones found, deletes of a function with a runtime, runtimes overdue at a pass |
| Guarantees.ResultMeaning | control-plane/src/runtime_manager.cpp:138-225 | a finished call is a success exactly when its last attempt was answered with a code from 200 to 299, an error exactly when answered otherwise, a timeout exactly when not answered in time, infra_error exactly when it reached no container or an unreachable one; the cold flag is true exactly when that attempt started the container it called; a failed warm attempt, other than by timeout, is never the end of a call |
| Guarantees.ColdFlagIff | control-plane/src/runtime_manager.cpp:135-153 | however the run goes on: the flag a call reports is true exactly when, at its last entry, its function had no runtime and the one started became healthy |
| Guarantees.SentTwiceIff | control-plane/src/runtime_manager.cpp:211-221 | a call's request goes to at most two containers, and to two exactly when the first, warm one took it and gave no usable reply and the second attempt got as far as sending |
| Guarantees.InvocationEnds | control-plane/src/runtime_manager.cpp:207-225 | an invocation takes at most eight steps of its own in any run, and always has one to take until it is recorded |
| Guarantees.DurationCoversCall | control-plane/src/runtime_manager.cpp:165-165 | the reported duration is non-negative and at least the time from the start of the call to the end of each attempt's first critical section |
| Guarantees.RuntimeHasCreator | control-plane/src/runtime_manager.cpp:48-54 | every runtime was started by an invocation of its own function and carries the idle timeout of that invocation's spec |
| Guarantees.StaleCompletionIsHarmless | control-plane/src/runtime_manager.cpp:157-202 | a container that left the table never returns, and a call still holding it changes neither table nor counters when it completes |
| Guarantees.FailedRuntimeIsNeverReused | control-plane/src/runtime_manager.cpp:171-187 | a runtime on which a finished call timed out or was unreachable was handed over, and no later attempt of any call gets it |
| Guarantees.ReaperSparesRecentCalls | control-plane/src/runtime_manager.cpp:67-79 | a pass leaves alone any container with a call in flight that entered less than its idle timeout ago |
| Guarantees.ServingIsBusyIff | control-plane/src/runtime_manager.cpp:155-201 | over every run: a runtime with a call in flight is BUSY in every state exactly when no call completes with an answer on a tracked container that another call still uses |
| Guarantees.ExclusiveIsSole | control-plane/src/runtime_manager.cpp:155-201 | runs in which calls never overlap on a container meet that condition |
| Guarantees.ReaperSparesCallsInFlight | control-plane/src/runtime_manager.cpp:67-79 | under that condition a pass never removes a container with a call in flight |
| Guarantees.ExpiredAtDeadline | control-plane/src/runtime_manager.cpp:70-71 | truncating milliseconds does not move the deadline: expiry is reached exactly at last use + idle timeout |
| Guarantees.ScaleToZero | control-plane/src/runtime_manager.cpp:63-81 | BUSY means a call is in flight there; an unused runtime of a function that is neither invoked nor deleted is idle, stays as it is, and is handed over exactly by the first pass at or after its deadline |
| Counterexamples.OverlapIsReapedInFlight | control-plane/src/runtime_manager.cpp:188-201 | a concrete run: two calls overlap, one finishes, the reaper takes the container from the other; it violates the condition of `ServingIsBusyIff` |
| Counterexamples.ReaperRemovesIff | control-plane/src/runtime_manager.cpp:70-71 | exactly when a pass removes a runtime: idle and past its deadline |
| Counterexamples.RetryCanBeWarm | control-plane/src/runtime_manager.cpp:213-221 | a concrete run whose second attempt reuses a runtime another call created |
| Counterexamples.RetryStartsFreshIff | control-plane/src/runtime_manager.cpp:135-153 | a second attempt calls run_container exactly when no runtime is back in the table when it gets the lock, and runs on a freshly created runtime exactly when, besides, that one becomes healthy |
| Counterexamples.RequestCanBeSentTwice | control-plane/src/runtime_manager.cpp:179-221 | a concrete run in which a successful invocation has sent its request to two containers |
| Counterexamples.FailedStartIsNotCold | control-plane/src/runtime_manager.cpp:138-146 | a concrete run: a container that never becomes healthy is given back and recorded as infra_error, not cold, nothing created |
| Invocation.InvokeEffect | control-plane/src/runtime_manager.cpp:127-225 | an invocation nobody disturbs: status, flag, duration, log, creation counter, termination counters by reason, ids handed over and table exactly; a runtime found dead is handed over and replaced once; other functions untouched; conservation kept |
| Invocation.InvokeIsARun | control-plane/src/runtime_manager.cpp:127-225 | from any state the steps of such an invocation are a run of the protocol that ends with the same table, counters and result |
| RuntimeManager.Manager.StartRuntime | control-plane/src/runtime_manager.cpp:34-61 | succeeds exactly when the container runs, has a port and answers one of fifty probes, with id, port and idle timeout; otherwise a container that runs is given back |
| RuntimeManager.Manager.EnterAttempt | control-plane/src/runtime_manager.cpp:133-160 | the method updates table, backend and metrics as `Lifecycle.Enter` says, returns the captured container and port and keeps conservation |
| RuntimeManager.Manager.Retire | control-plane/src/runtime_manager.cpp:122-124 | the three effects of dropping a runtime |
| RuntimeManager.Manager.CompleteAttempt | control-plane/src/runtime_manager.cpp:167-204 | the second critical section as `Lifecycle.Complete` says; success exactly for an answer from 200 to 299, error for any other answer, timeout and infra_error by response class; retry flag; conservation kept |
| RuntimeManager.Manager.RecordResult | control-plane/src/runtime_manager.cpp:223-223 | exactly one observation is added to the metrics |
| RuntimeManager.Manager.TryInvoke | control-plane/src/runtime_manager.cpp:127-205 | both critical sections in sequence compute `Invocation.Tried` |
| RuntimeManager.Manager.Invoke | control-plane/src/runtime_manager.cpp:207-225 | attempt, retry decision and recording compute `Invocation.Invoked`; everything as `Invocation.Settled` says; cold exactly when the attempt that needed a container got one with a port that answered one of fifty probes; conservation kept |
| RuntimeManager.Manager.TerminateFunction | control-plane/src/runtime_manager.cpp:117-125 | deletes as `Lifecycle.Terminate` says; nothing for an unknown name |
| RuntimeManager.Manager.ReapIdleRuntimes | control-plane/src/runtime_manager.cpp:67-79 | the erase loop computes `Lifecycle.Reap`, and the table that remains is the filter of the old one |
| RuntimeManager.Manager.Status | control-plane/src/runtime_manager.cpp:83-96 | an answer exactly for a tracked function: its state, id, port and milliseconds since last use |
| RuntimeManager.Manager.ListRuntimes | control-plane/src/runtime_manager.cpp:98-115 | every runtime exactly once with state, id, port and milliseconds since last use, so the list's length is the active gauge |
| Metrics.BumpBuckets | control-plane/src/metrics.cpp:22-24 | every bucket whose bound reaches the duration gains one, no other changes |
| Metrics.Registry.RecordInvocation | control-plane/src/metrics.cpp:16-27 | for any label type: one counter grows by one, one histogram by one count, the duration and the buckets it reaches, nothing else; all keep saying what the log of observations says |
| Metrics.Registry.HistogramIsCumulative | control-plane/src/metrics.cpp:11-27 | buckets are nondecreasing and bounded by the count, and the invocation counters of that flag, over whatever outcomes occurred, add up to the count |
| Metrics.AtMostMonotone | control-plane/src/metrics.cpp:22-24 | over any log a wider bucket holds at least as much, and none more than there was |
| Metrics.SeenByStatus | control-plane/src/metrics.cpp:18-25 | over any log and any labels the count splits exactly by outcome |
| ControlPlane.RegistryRemembers | control-plane/src/main.cpp:89-131 | nothing but a deploy or a delete of it, not even a restart, changes what is registered under a name |
| ControlPlane.DeployIsServed | control-plane/src/function_registry.cpp:44-80 | after a deploy, new or repeated, every invoke gets that spec, texts up to their first NUL and timeouts as given, until the next deploy or delete of it |
| ControlPlane.DeleteIsServed | control-plane/src/main.cpp:120-128 | after a delete no invoke and no further delete finds the function until it is deployed, and such requests change nothing |
| ControlPlane.CoveredIff | control-plane/src/main.cpp:120-131 | under any interleaving: every runtime belongs to a function that is registered or being deleted, in every state, exactly when every cold start about to succeed is for such a function and every delete that takes one with a runtime from the registry has no NUL in its name, or another delete of it is pending |
| ControlPlane.SerialHandlersKeepRegistered | control-plane/src/main.cpp:110-131 | when handlers do not overlap, every runtime is covered in every state exactly when no delete whose name holds a NUL hits a registered function with a runtime; then, between requests, every runtime's function is registered, whatever the reaper and restarts do |
| ControlPlane.GoneForGoodIff | control-plane/src/main.cpp:120-131 | in every reachable state of every interleaving: no continuation without a deploy of the function ever gives it a runtime exactly when it has none, is not registered and no handler that looked it up may still enter |
| ControlPlane.DeleteIsFinalIff | control-plane/src/main.cpp:120-124 | the function a delete has taken from the registry is without a runtime afterwards exactly when the request's name holds no NUL or it had none, and for good exactly when, besides, it was not deployed again meanwhile and no invoke that looked it up before may still enter |
| ControlPlane.SerialDeleteIsFinal | control-plane/src/main.cpp:120-124 | after requests that overlapped no other, an unregistered function with no delete pending has no runtime until it is deployed again, whatever overlaps later, exactly when it has none; and it has none if no delete with a NUL in its name hit a function with a runtime |
| ControlPlane.OverlapLeavesUnregisteredRuntime | control-plane/src/main.cpp:126-131 | a concrete run in which an overlapping invoke starts a runtime for a deleted function |
| ControlPlane.NulDeleteLeavesRuntime | control-plane/src/main.cpp:120-124 | a concrete run without overlap: a DELETE of `hello`, NUL, `x` unregisters `hello` and leaves its runtime |
| History.HistoryAgreesWithMetrics | control-plane/src/main.cpp:126-134 | at every moment the metrics log and the rows written since start plus the handlers between their two records are the same multiset of observations |
| History.HandlersGetTheirOwnId | control-plane/src/invocation_store.cpp:24-66 | each handler answers with the id of its own row, no two with the same, although deploys move the last insert id too; looking the printed id up at any later time returns that row with its texts up to their first NUL, the whole row exactly when they hold none |
| History.LookupIs | control-plane/src/invocation_store.cpp:42-66 | a printed id looks up the row of an earlier run of the process or of this one, and nothing else |
| History.NulInputIsCut | control-plane/src/database.cpp:48-67 | a concrete invocation whose input comes back cut |
| History.SomebodyGoesOn | control-plane/src/database.cpp:38-46 | the lock never keeps everybody waiting: until a handler has answered, it, the handler that owns the lock or the deploy that does can go on |
| History.StepKeepsHandlers | control-plane/src/database.cpp:36-46 | from construction to destruction of its statement a handler holds the lock, and the last insert id is its own row from insert until it is read |
| Accounting.RowsAccountForRuntimes | control-plane/src/main.cpp:126-134 | with manager and store run together, in every reachable state: runtimes_created equals the cold rows written + handlers between metrics and row with a cold result + cold starts not yet recorded; the metrics log is the rows and those handlers; the handlers are the recorded calls |
| Accounting.RecordIsNeverBlocked | control-plane/src/main.cpp:126-134 | the store adds no condition of its own to recording a result: the handler of a call is always new |
| Accounting.RowReportsCall | control-plane/src/main.cpp:126-134 | the row an answered handler names holds status, flag and duration its call ended with |
| Accounting.RowHoldsInvocation | control-plane/src/main.cpp:126-134 | the row an answered handler names holds the function, input and output it was given, each up to its first NUL, and the result of its call, whatever came in between |
| Accounting.StepKeepsMatched | control-plane/src/runtime_manager.cpp:223-224 | every step keeps the metrics log equal for manager and store, and each handler the result of its own call |
| Text.UpToNulIs | control-plane/src/database.cpp:48-67 | what the database sees of a text is its longest prefix without a NUL, the whole text exactly when it holds none |
| Text.DecimalRoundTrip | common/src/http_client.cpp:75-75 | decimal printing is inverted by reading the digits |
| Text.DecimalIsShortest | common/src/http_client.cpp:75-75 | no leading zeros |
| Text.ScanPrinted | common/src/http_client.cpp:118-118 | a printed integer, of any sign, is read back whatever white space precedes and whatever non-digit follows it |
| Text.StoulIs | common/src/http_server.cpp:146-146 | the value of the digits, modulo 2^64 if negative, an exception if too long |
| Text.ExtractIntIs | common/src/http_client.cpp:118-118 | the value of the digits, or the nearest int |
| Text.BlankLineEndsHeader | common/src/http_server.cpp:57-64 | the first blank line of a message is the one after its header lines, whatever the body holds |
| HttpHeaders.ParseHeaderLine | common/src/http_server.cpp:134-141 | one header line: carriage return, colon, leading blanks |
| HttpHeaders.AddHeaderIs | common/src/http_server.cpp:134-141 | the key is what precedes the first colon, the value what follows without leading blanks; a line without a colon adds nothing |
| HttpHeaders.ParseHeaderLines | common/src/http_client.cpp:120-129 | the getline loop computes the header map of the block |
| HttpHeaders.MessageParses | common/src/http_server.cpp:122-142 | any printed message splits into its first line, the map of its headers and its body |
| HttpRequest.HeadRoundTrip | common/src/http_client.cpp:69-77 | the printed header block parses to the same method and path, the printed headers and the body's length |
| HttpRequest.RequestHeaders | common/src/http_client.cpp:69-77 | the headers that arrive: host and connection, and with a body its type and length |
| HttpRequest.PrintedBare | common/src/http_client.cpp:69-77 | a request without a body, to the letter |
| HttpServer.ReadHeaders | common/src/http_server.cpp:53-66 | succeeds exactly when the header block arrives while the buffer is within 2^20 bytes, returns it and the leftover, and stops after at most 2^20 + 1 reads whatever the peer sends |
| HttpServer.ReadBody | common/src/http_server.cpp:148-155 | the announced number of bytes, or all there are when the peer is gone |
| HttpServer.ReadRequest | common/src/http_server.cpp:115-155 | dropped exactly when no header block arrives; otherwise the request the received bytes spell, or the exception of a bad Content-Length |
| HttpServer.ReceiveRequest | common/src/http_server.cpp:115-155 | for every printable request that fits and every way of splitting it into chunks of 1 to 4096 bytes, the server recovers method, path, headers and body |
| HttpServer.SplitTolerance | common/src/http_server.cpp:57-62 | a header block of h bytes gets through under every split exactly when the message is at most 2^20 bytes or h + 4095 is |
| HttpServer.LargeHeaderIsDropped | common/src/http_server.cpp:57-62 | a concrete request whose header block is exactly 2^20 bytes and a split of it that is never accepted |
| HttpClient.PrintResponse | common/src/http_server.cpp:177-185 | the printing loop emits status line, headers in map order with the two added ones, blank line and body |
| HttpClient.ReceiveResponse | common/src/http_client.cpp:86-133 | the receive loop and parser: timed out, empty, malformed or the parsed response, independent of the chunking |
| HttpClient.ClassifyIff | common/src/http_client.cpp:34-114 | which exchange the manager takes as timed out, unreachable before or after the request went out, or answered: only a stalled recv is a timeout |
| HttpClient.ResponseRoundTrip | common/src/http_client.cpp:101-132 | the client reads back status, body and headers of any printed response; unchanged exactly when no header value starts with a blank |
| HttpClient.ReceivedHeaders | common/src/http_server.cpp:177-178 | the headers that arrive: the handler's without leading blanks, length and connection as the server sets them |
| HttpClient.ReportedStatus | control-plane/src/runtime_manager.cpp:188-201 | a printed response ends as success exactly for a status from 200 to 299 and as error for any other |
| HttpClient.ConcatOfParts | common/src/http_client.cpp:86-91 | chunks are put together in the order they came |
| Router.SplitPath | common/src/http_server.cpp:17-34 | the splitting loop computes `Split` |
| Router.SplitOfPath | common/src/http_server.cpp:17-34 | splitting any path for a list of segments, with repeated slashes and a query string, returns the list |
| Router.SplitOfJoined | common/src/http_server.cpp:92-98 | a route pattern written the usual way splits into its segments |
| Router.Match | common/src/http_server.cpp:100-113 | matches exactly when lengths agree and every segment fits; as many parameters as placeholders, and the pattern filled with them is the path |
| Router.RequestReachesRoute | control-plane/src/main.cpp:85-212 | a request for any route of the table filled with any values, however its path is written, reaches exactly that route, whose handler gets those values |
| Router.DeleteHelloIsRouted | control-plane/src/main.cpp:120-122 | a concrete request and its parameter |
| Router.ParamIsBraced | common/src/http_server.cpp:106-106 | a placeholder is any text in braces |
| Router.Dispatch | common/src/http_server.cpp:157-175 | a route that serves the request, 405 when only the method is wrong, 404 when no pattern matches |
| Router.RoutesAreUnambiguous | control-plane/src/main.cpp:85-212 | no request is served by two routes of the control plane's table |
| Router.DispatchIgnoresOrder | common/src/http_server.cpp:162-175 | any two tables with the same unambiguous routes answer every request alike; 405 and 404 exactly as stated |
| Kubernetes.PodNamesDistinct | control-plane/src/kubernetes_client.cpp:15-21 | equal names have equal counters, whatever the clock read |
| Kubernetes.PodNamesAreSafe | control-plane/src/shell_exec.cpp:41-50 | a generated name passes the token check that guards removal |
| Kubernetes.TokensArePlain | control-plane/src/shell_exec.cpp:41-50 | a token is not empty and holds nothing the shell gives a meaning to; letters, digits and the punctuation of image names are admitted |
| Kubernetes.PodNameOf | control-plane/src/kubernetes_client.cpp:15-21 | the last seven digits of the clock and the counter |
| Kubernetes.ExecuteKeepsNumbered | control-plane/src/kubernetes_client.cpp:25-82 | every call, on every failure path, keeps pods, services and ids generated names, and ids unused before |
| Kubernetes.RunEffect | control-plane/src/kubernetes_client.cpp:25-62 | with an id, exactly a new pod and service of that name; without one, nothing but the pod the clean-up failed on, whose name is in no other use |
| KubernetesManager.RefinesAbstractBackend | control-plane/src/runtime_manager.cpp:34-204 | every run of the manager on this backend, any command failing, is a run of the protocol: the ids it assumes to be new are new, so all results over those runs hold |
| KubernetesManager.StepKeepsAccounts | control-plane/src/kubernetes_client.cpp:25-82 | every step of the manager, with any of its commands failing, keeps pods and services the disjoint union of those tracked and those a delete failed on |
| KubernetesManager.ClusterMirrorsTable | control-plane/src/kubernetes_client.cpp:25-82 | in every reachable state: started containers are the issued ids, all distinct; pods are exactly the tracked ones and those whose delete failed, likewise services; so the cluster mirrors the table exactly when every delete worked |
| KubernetesManager.FailedCleanupLeavesPod | control-plane/src/kubernetes_client.cpp:43-48 | a concrete run that leaves a pod nobody tracks or will remove |
| Kubernetes.Client.RunContainer | control-plane/src/kubernetes_client.cpp:25-62 | an id exactly when image and all commands are fine, new and with pod and service up; otherwise no service and no pod is left unless the clean-up fails |
| Kubernetes.Client.RemoveContainer | control-plane/src/kubernetes_client.cpp:77-82 | reports exactly whether the pod went; the service goes exactly when its own delete works; others untouched |
| Percentiles.ComputePercentiles | benchmarks/common.py:60-73 | for any percentages: raises exactly when the sample is not empty and some percentage is out of its range; otherwise exactly the requested keys, each with its interpolated percentile, none for an empty sample |
| Percentiles.RaisesIff | benchmarks/common.py:66-72 | an IndexError exactly when (n-1)p is at least 100n or at most -100(n+1) |
| Percentiles.OutsideTheScale | benchmarks/common.py:66-72 | concrete inputs: one that raises, one below zero that leaves the sample, one far above 100 that does not matter |
| Percentiles.SortedCorrect | benchmarks/common.py:63-63 | ordered and a permutation |
| Percentiles.OrderedIsUnique | benchmarks/common.py:63-63 | two ordered arrangements of the same values are equal, so any correct sort gives the same percentiles |
| Percentiles.PercentileLaws | benchmarks/common.py:60-73 | from 0 to where it raises: within the sample, nondecreasing in the percentage, independent of the input order |
| Percentiles.PercentileBetween | benchmarks/common.py:66-72 | at position i + w of the sorted sample the percentile is s[i](1-w) + s[i+1]w, whatever sorted it |
| Percentiles.PercentileReflects | benchmarks/common.py:60-73 | the p-th percentile is the negated (100-p)-th of the negated sample |
| Percentiles.PercentileEnds | benchmarks/common.py:60-73 | 0 gives the minimum; 100, and more until it raises, the maximum |
| Percentiles.PercentileDominates | benchmarks/common.py:60-73 | from 0 to where it raises: replacing every sample by one at least as large never lowers a percentile |

## Left out

- Sockets, process execution, Docker and SQLite internals: foreign calls, modelled by their possible outcomes.
- Sleeping, thread creation and shutdown: steps of the transition system may happen at any time.
- Message texts in results (`output`, `error`) outside the HTTP client: strings that decide nothing.
- JSON parsing and building, Prometheus text rendering, CLI, Docker output parsing: library calls or string formatting.
- `FunctionRegistry` beyond a table keyed by name, and its result under a concurrent delete.
- Statements that fail and throw: every database statement succeeds here.
- A scrape of `/metrics` reads the gauge and the counters under different locks; accounting is stated per state of the manager, not per scrape.
- Containers orphaned by a restart: conservation is per process lifetime.
- Integer overflow of counters, ids and clock values.
- Floating point rounding in percentiles and histogram sums: exact reals.
- HttpClient.ReceiveResponse: takes the whole stream as it arrived; the program does not compare it with Content-Length either.
- A `kubectl` command that reports failure but took effect: failed commands change nothing here.
- RuntimeManager.Manager.Invoke: with no other thread between its lock regions; interleavings are in `Protocol.dfy`.
- Percentiles.PercentileLaws: below 0 the program extrapolates or counts from the end of the sample; there `ComputePercentiles` says what it returns and no law is claimed.
