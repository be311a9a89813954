# Verification model of the Isabelle bridge for Zed

This project models the message path between the Zed editor and Isabelle, and proves what it keeps:
the language server (`isabelle-lsp`), the NDJSON bridge (`bridge`) and the adapter (`scala-adapter`),
together with the text transformations of the extension and of the shortcut installer. It needs
nothing but Dafny 4.11: `dafny verify dfyconfig.toml` checks all of it.

## How it is built

Each component that changes state is a state machine with histories (lines read, lines written,
notifications sent) and, beside it, a class whose methods run the component's own loops and are proved
to follow the machine. Two are tied otherwise: `StreamLoop` numbers the requests of one connection
itself and agrees with the loops of `AdapterPool` step by step (`StreamLoop.PoolLoopAgrees`), and
`Pipeline` has no class of its own but is the parts put together (`PipelineRefinement`). What the environment decides (time, the order in which a hash map is walked,
whether a write or a connection succeeds, which replies arrive and when) is part of each event, so a
theorem over runs holds for every such choice. Hash-map iteration is an arbitrary order (`HashOrder`).

| file | component | main result |
|---|---|---|
| Debounce | the discipline both debouncers share | what waits is the winner of the pushes since the entry last left; nothing is lost |
| BridgeQueue, BridgeSession, BridgeTransparency | bridge queue and session loop | the debounced bridge shows checks what an undebounced one would, exactly when no checked push was ignored as stale |
| PushWorker | the language server's debouncer | a flush is a barrier, and pushes the latest update exactly when that was not ignored as stale |
| Publishing, DiagnosticsView, DiagnosticsServer | diagnostics publication | what the editor shows, over all runs |
| MessageIds, Transport, TransportRuns | requests and replies | correlation against late, repeated and foreign replies, exactly up to 2^64 requests |
| Pipeline, PipelineOrder, PipelineChecks, PipelineExample | worker, transport, bridge and adapter together | a check reads the last edit accepted before its command or a later one; exactly when that is as recent as every edit sent |
| PipelineRefinement | the pipeline against its parts | the worker's part of a pipeline run is a run of the push worker |
| AdapterPool, AdapterReplies, StreamLoop | the adapter's thread pool and connection loops | progress exactly below four loops; a reachable standstill at four |
| Supervisor | adapter process supervision | retry, backoff and success bounds |
| RootFile, LogicSelection, Environment, Text | the Zed extension | parsing inverts printing; choices do not depend on order |
| KeymapMarkers, KeymapKeys, Keymap | the shortcut installer | when installing twice is installing once |

## Where the code falls short of what one would expect

These are properties that fail; for each the exact condition is proved, and a concrete run or input is
given.

- A check can see text other than the last one pushed: when the last push for its document carried a
  lower version than the one still waiting, the queue ignores it (`BridgeTransparency.TransparentIff`,
  `BridgeTransparency.StaleExample`).
- A check can read text older than the editor's last edit before the command: a document that is closed
  and opened again restarts its versions, closing does not cancel the waiting push, and the worker then
  ignores the reopened text while the old one waits (`PipelineChecks.ChecksReadRecentIff`,
  `PipelineChecks.IgnoredByGuard`, `PipelineExample.ReopenedExample`). For the worker alone this is
  `PushWorker.FlushedLatestIff` and `PushWorker.IgnoredExample`. Versions that fall after the waiting
  push has left, or of other documents, do no harm.
- Diagnostics of one document can disappear when another document that reported about the same URI is
  published again or closed (`DiagnosticsView.AgreesIff`, `DiagnosticsView.SharedTargetExample`).
- The change log says that the adapter bounds in-flight concurrency safely; four connections that each
  reach the bound before any request has run stop the whole adapter for good
  (`AdapterPool.PoolStuckIff`, `AdapterReplies.DeadlockReachable`).
- Reinstalling the shortcuts is not idempotent for a keymap that holds an unclosed start marker before
  its last bracket: the text from that marker on is removed (`Keymap.InstallTwiceIff`,
  `Keymap.UnclosedMarkerExample`).
- Replies are correlated exactly up to 2^64 requests (`TransportRuns.CorrelatedIff`,
  `TransportRuns.LateReplyRun`).

## Conventions

Integers are unbounded except where width matters: the identifier counter wraps at 2^64, LSP indices
saturate at 2^32 - 1 and versions at the 32-bit signed bounds. Messages are values with an abstract
payload instead of JSON text; a payload that does not decode is a case of its own. URL parsing, Python's
lower-casing and digit tables are parameters; of lower-casing `Keymap` assumes only that a closing
bracket stays one. Keymap text is what the script reads, with line ends already turned into newlines.
`DebounceQueue` takes the clock as an argument. Fields marked ghost and ghost results record histories;
no value a program would compute depends on them.

## Model

| member | source | states |
|---|---|---|
| `Debounce.WinnerUnique` | bridge/src/queue.rs:41-52 | A group of pushes has one winner, the latest-arrived among those of greatest version |
| `Debounce.EpochWinner` | bridge/src/queue.rs:41-81 | The specification of both debouncers, over any log of arrivals and departures: what waits for a URI is the latest-arrived among the pushes of greatest version since its entry last left, with the time that push arrived; nothing waits exactly if none arrived since |
| `Debounce.EpochsExplain` | bridge/src/queue.rs:41-81 | All pushes that arrived for a URI are its finished epochs, each of which left as exactly its winner, followed by the current one |
| `Debounce.RecordedTakeAll` | bridge/src/queue.rs:57-81 | Taking out any list of waiting entries is so many departures of what waits; the log goes on accounting for queue, arrivals and departures |
| `Debounce.EpochsTaken` | bridge/src/queue.rs:57-81 | It finishes the current epoch of each URI in the list, as the next finished one, and of no other |
| `Debounce.NothingLost` | bridge/src/queue.rs:41-81 | The epoch of a push ends at the first departure of its URI after it arrived, or has not ended; the entry that leaves there, or waits, is the winner of that epoch, to which the push belongs, and has at least its version |
| `Debounce.LetOutLater` | bridge/src/queue.rs:41-81 | So the first entry of its URI to leave after a push arrived has at least its version, and if none has left, one waits that has |
| `Debounce.LetOutInOrder` | bridge/src/queue.rs:41-81 | Per URI, what was let out followed by what waits is a subsequence of what arrived; no push is let out twice |
| `Debounce.LatestLetOutIff` | bridge/src/queue.rs:41-81 | Once nothing waits for a URI the last push let out is the last that arrived, if and only if no push of its epoch had a greater version |
| `BridgeQueue.DebounceQueue.Enqueue` | bridge/src/queue.rs:32-55 | The whole new queue: a push replaces the waiting entry unless that entry's version is strictly greater (then its timer stays too); a push whose payload does not decode is refused and nothing changes; other messages change nothing |
| `BridgeQueue.DebounceQueue.DrainReady` | bridge/src/queue.rs:57-68 | Returns each entry that has waited at least the window exactly once, in some order, and leaves exactly the others |
| `BridgeQueue.DebounceQueue.DrainAll` | bridge/src/queue.rs:70-75 | Returns each waiting entry exactly once, in some order, and leaves the queue empty |
| `BridgeQueue.DebounceQueue.DrainForUri` | bridge/src/queue.rs:77-81 | Returns and removes the entry of one URI and leaves the others untouched |
| `BridgeSession.Session.Send` | bridge/src/main.rs:219-252 | The messages of a batch are written in order up to the first failing write, which ends the session |
| `BridgeSession.Session.HandleLine` | bridge/src/main.rs:212-231 | One decoded line changes queue, output and status as the transition relation says: pushes wait, a check first flushes its URI, everything else passes through |
| `BridgeSession.Session.Handle` | bridge/src/main.rs:203-264 | Every stimulus (line, blank line, read error, end of input, tick, adapter output, adapter closed) is one possible step of the state machine |
| `BridgeSession.Session.Run` | bridge/src/main.rs:202-265 | The event loop over any input follows a run of the state machine, consuming the input in order until the session ends |
| `BridgeTransparency.CurrentStep` | bridge/src/main.rs:212-252 | The inductive step: only a push that is read and not ignored changes what the session vouches for, namely the waiting push or else the last one written |
| `BridgeTransparency.CurrentIsLatest` | bridge/src/main.rs:202-265 | On every run without a failed send, what the session vouches for is the last push read; when that push was ignored as stale, it is one of strictly greater version |
| `BridgeTransparency.TransparentIff` | bridge/src/main.rs:214-227 | At its checks the adapter sees exactly what a router without a debouncer would show it, if and only if no check is read for a URI whose last push had been ignored in favour of a waiting newer version |
| `BridgeTransparency.FinalTextIff` | bridge/src/main.rs:237-241 | After the editor closes, the adapter's last text of a URI is the last one read, under the same condition |
| `BridgeTransparency.AscendingNeverStale` | bridge/src/queue.rs:41-47 | With per-URI non-decreasing versions no push is ever ignored |
| `BridgeTransparency.PendingWasRead` | bridge/src/queue.rs:41-52 | Whatever waits was read, and its waiting time counts from when exactly that push was read |
| `BridgeTransparency.TickLeavesYoung` | bridge/src/main.rs:243-252 | On every run, right after a tick whatever still waits was read less than the window ago |
| `BridgeTransparency.TickTakesDue` | bridge/src/queue.rs:57-68 | On every run a tick takes out an entry exactly if it has waited for the window or longer, and leaves the others unchanged |
| `BridgeTransparency.RefinesForwardAtOnce` | bridge/src/main.rs:202-265 | With non-decreasing versions the session refines the router that forwards every line at once: equal observations while no send fails, a prefix of them otherwise, and equal final texts after end of input |
| `BridgeTransparency.StaleExample` | bridge/src/queue.rs:42-47 | Without non-decreasing versions transparency fails: a run in which a check sees the older-arrived, higher version |
| `BridgeTransparency.StaleCheckDiffers` | bridge/src/main.rs:214-227 | The other way round: on any run, a check of a document whose last push was ignored is observed differently from the router that forwards at once |
| `BridgeTransparency.RunLogged` | bridge/src/main.rs:207-252 | On every run the queue is what the log of the run leaves: the pushes read and the entries drained, in the order of the events that read and drained them |
| `BridgeTransparency.EpochStep` | bridge/src/main.rs:207-252 | What each event does to the epoch of a URI: reading a push for it extends the epoch, and the epoch ends exactly when the entry leaves the queue |
| `BridgeTransparency.WaitingIsWinner` | bridge/src/queue.rs:41-81 | On every run, what waits for a URI is the winner of the pushes read since its entry last left, and each earlier epoch was drained as its winner |
| `BridgeTransparency.PushAnswered` | bridge/src/main.rs:212-241 | No push read is lost: the first entry of its URI drained after it was read has at least its version, or one that has still waits |
| `BridgeTransparency.Conservation` | bridge/src/main.rs:207-258 | On every run the log accounts for the queue and its epochs for every push read; without a failed send the pushes written are exactly those drained, and the other messages exactly those read, in order; the editor gets the adapter lines delivered; after end of input nothing waits |
| `BridgeTransparency.RepliesForwarded` | bridge/src/main.rs:253-264 | The other direction, on every run: the editor gets exactly the adapter lines it takes, each once and in order; unless the session has failed these are all that met it running, and if it has, all but at most one |
| `BridgeTransparency.EndsIff` | bridge/src/main.rs:203-267 | A session runs exactly as long as no event ends it: it fails exactly at a push that does not decode, a read error, a line the editor does not take or a write the adapter does not take, closes at the end of input, and stops when the adapter goes |
| `BridgeTransparency.ClosedIsEmpty` | bridge/src/main.rs:237-241 | End of input leaves nothing waiting |
| `PushWorker.Worker.Drain` | isabelle-lsp/src/main.rs:536-553 | Visiting a list of URIs removes and attempts each waiting push once, and makes a request only where the session is seen running |
| `PushWorker.Worker.VisitOne` | isabelle-lsp/src/main.rs:589-621 | One attempt: removed from the map in any case, requested only if the session runs |
| `PushWorker.Worker.Handle` | isabelle-lsp/src/main.rs:517-583 | Every worker event (update, flush, tick, channel closed) is one possible step of the state machine |
| `PushWorker.Worker.Run` | isabelle-lsp/src/main.rs:511-587 | The worker loop over any input follows a run of the state machine, event by event on that input, each attempt meeting the session flag and the answer that the environment had for it; and each event requests exactly the pushes attempted while the session runs |
| `PushWorker.RequestsFollow` | isabelle-lsp/src/main.rs:589-621 | Event by event, the requests made are exactly the pushes attempted at the positions where the session is seen running, in order; none while it is stopped |
| `PushWorker.EndsWhenClosed` | isabelle-lsp/src/main.rs:511-556 | The worker ends exactly when its channel is closed |
| `PushWorker.WorkerLedger` | isabelle-lsp/src/main.rs:519-569 | On every run the log of updates and attempts accounts for what waits, its epochs divide the updates received, and requests are exactly the attempts not stopped by the session flag |
| `PushWorker.EpochStep` | isabelle-lsp/src/main.rs:519-569 | What each event does to the epoch of a URI: an update extends it, and it ends exactly when the entry leaves |
| `PushWorker.WaitingIsWinner` | isabelle-lsp/src/main.rs:519-569 | On every run, what waits for a URI is the winner of the updates received since the last attempt for it, and every attempt was for the winner of the updates since the one before |
| `PushWorker.UpdateAnswered` | isabelle-lsp/src/main.rs:519-569 | No update is lost: the first attempt for its URI made after it was received is for one of at least its version, or such a one still waits |
| `PushWorker.FlushEmpties` | isabelle-lsp/src/main.rs:533-555 | After a flush nothing waits for a flushed URI |
| `PushWorker.FlushAcknowledged` | isabelle-lsp/src/main.rs:330-341 | When a flush is acknowledged, nothing waits for a flushed URI, and every update received before the flush for it has been followed by an attempt, the first of which is for an update of at least its version |
| `PushWorker.NewestIsLatest` | isabelle-lsp/src/main.rs:519-532 | On every run, what waits for a URI, or else was attempted last, is the latest update received for it, unless that update was ignored; then it is one of strictly greater version |
| `PushWorker.FlushedLatestIff` | isabelle-lsp/src/main.rs:533-555 | After a flush the last attempt for a flushed URI is the latest update received for it, if and only if that update was not ignored because a strictly newer version was waiting |
| `PushWorker.IgnoredExample` | isabelle-lsp/src/main.rs:519-532 | A run in which it was: version 2, then version 1 within the window, then a flush |
| `PushWorker.TickLeavesYoung` | isabelle-lsp/src/main.rs:556-583 | On every run, right after a tick whatever still waits was received less than the window ago |
| `PushWorker.TickTakesDue` | isabelle-lsp/src/main.rs:556-583 | On every run a tick attempts an entry exactly if it has waited for 200 ms or longer |
| `Publishing.PositionOrderKept` | isabelle-lsp/src/main.rs:867-894 | For lines and columns in 1..2^32 the conversion to zero-based positions is injective and keeps line-then-column order both ways |
| `Publishing.IndexCollides` | isabelle-lsp/src/main.rs:888-894 | Exactly which indices the conversion merges: equal ones, those at most 1, and those beyond 2^32 - 1 |
| `Publishing.PositionsExact` | isabelle-lsp/src/main.rs:640-660 | The positions gathered for a target are exactly those whose URI resolves to it, unparsable URIs counting as the request URI |
| `Publishing.PositionsAscend` | isabelle-lsp/src/main.rs:640-660 | They are gathered in payload order |
| `Publishing.GroupIsStable` | isabelle-lsp/src/main.rs:640-660 | A group is the subsequence of the payload at those positions, converted, in order |
| `Publishing.GroupingConserves` | isabelle-lsp/src/main.rs:640-700 | Whatever the order of publication, the groups together are the whole payload converted, nothing lost, repeated or invented |
| `DiagnosticsServer.Group` | isabelle-lsp/src/main.rs:640-660 | The grouping loop builds the partition, with an entry for the request URI even when it has no diagnostics |
| `DiagnosticsServer.Server.PublishDiagnosticsFor` | isabelle-lsp/src/main.rs:623-703 | A decodable response performs one publish step of the state machine; any other response changes nothing and is refused |
| `DiagnosticsServer.Server.ClearDiagnosticsForUri` | isabelle-lsp/src/main.rs:479-492 | Closing performs one close step |
| `DiagnosticsServer.Server.ClearDiagnostics` | isabelle-lsp/src/main.rs:454-477 | Stopping performs one stop step |
| `DiagnosticsView.StepVisible` | isabelle-lsp/src/main.rs:454-703 | What any URI shows after any call, whatever the order of its notifications, by the replace rule of the Language Server Protocol 3.17, section "PublishDiagnostics Notification" |
| `DiagnosticsView.PublishShows` | isabelle-lsp/src/main.rs:640-700 | After a publish each target shows, in payload order, one diagnostic for each that resolves to it: error as error, warning as warning, information as information, the same message, the source isabelle, and every line and column one lower, held within 0 and 2^32 - 1 |
| `DiagnosticsView.VersionsTold` | isabelle-lsp/src/main.rs:673-700 | Only a publish tells a version, to its request URI alone: the response version, or the largest 32-bit one if it does not fit |
| `DiagnosticsView.VisibleIsRegistered` | isabelle-lsp/src/main.rs:663-700 | On every run a URI with a non-empty list is registered as a target of some request URI |
| `DiagnosticsView.DocumentsAreOpen` | isabelle-lsp/src/main.rs:454-492 | On every run the documents that a stop blanks besides the targets are exactly those opened and not closed since |
| `DiagnosticsView.StopClearsEverything` | isabelle-lsp/src/main.rs:454-477 | After a stop no URI shows diagnostics |
| `DiagnosticsView.CloseClears` | isabelle-lsp/src/main.rs:479-492 | After a close neither the document nor any target of its latest response shows diagnostics |
| `DiagnosticsView.StaleIsForeign` | isabelle-lsp/src/main.rs:673-684 | The branch that blanks a stale target with the request's version is unreachable: a stale target is never the request URI |
| `DiagnosticsView.StepAgrees` | isabelle-lsp/src/main.rs:640-700 | One call keeps the screen in agreement with the latest responses if and only if it changes nothing that another request URI's response is showing |
| `DiagnosticsView.AgreesIff` | isabelle-lsp/src/main.rs:454-703 | Over whole runs: the screen always shows every target's latest response if and only if no call of the run does that |
| `DiagnosticsView.UnsharedAgrees` | isabelle-lsp/src/main.rs:640-700 | When no URI is ever shared between request URIs, every target shows its owner's latest response and nothing else is shown |
| `DiagnosticsView.SharedTargetExample` | isabelle-lsp/src/main.rs:479-492 | With a shared target agreement fails, for any diagnostic about a third document: two payloads report it, the first document is closed, and what the second response reports is hidden |
| `MessageIds.PaddedRoundTrip` | isabelle-lsp/src/main.rs:97-100 | The number can be read back from its identifier, padded or not |
| `MessageIds.IdForm` | isabelle-lsp/src/main.rs:97-100 | An identifier is msg- and at least four digits, more than four only without leading zeros |
| `MessageIds.IdsCollideIff` | isabelle-lsp/src/main.rs:97-100 | Two requests get the same identifier exactly when their numbers agree modulo 2^64 |
| `Transport.BridgeTransport.NextMessageId` | isabelle-lsp/src/main.rs:97-100 | The k-th request gets the identifier of counter value 1 + k modulo 2^64 |
| `Transport.BridgeTransport.Talk` | isabelle-lsp/src/main.rs:130-170 | Writing and reading until a matching reply, garbage, end of file, error or timeout computes the exchange specification |
| `Transport.BridgeTransport.AttemptOnce` | isabelle-lsp/src/main.rs:122-206 | One locked attempt: connect if there is no connection, talk, and keep or drop the connection |
| `Transport.BridgeTransport.Request` | isabelle-lsp/src/main.rs:102-207 | A request is one attempt, and exactly when that breaks a second one, each on the state that any number of attempts of other tasks have left; the final fall-through error is never reached |
| `TransportRuns.ScanFindsFirst` | isabelle-lsp/src/main.rs:136-153 | An accepted reply is the first line carrying the identifier, with only foreign replies before it; garbage before it is an error |
| `TransportRuns.AttemptSlot` | isabelle-lsp/src/main.rs:122-206 | The connection slot is kept exactly after a reply or an invalid response and emptied otherwise; a second attempt always settles; a retry means that the line was written and the connection dropped |
| `TransportRuns.AttemptVerdict` | isabelle-lsp/src/main.rs:122-206 | What an attempt comes to, from what the bridge does: the first matching reply is the answer, garbage before it an invalid response; otherwise a first attempt is retried and a second reports a timeout, an end of file or an I/O error, whichever it was |
| `TransportRuns.RequestInRun` | isabelle-lsp/src/main.rs:102-207 | What `BridgeTransport.Request` returns is what its two attempts come to in a run, with the attempts of other requests between them |
| `TransportRuns.RunInv` | isabelle-lsp/src/main.rs:102-207 | The invariant over all interleavings of any number of requests on the shared connection |
| `TransportRuns.WrittenAtMostTwice` | isabelle-lsp/src/main.rs:122-206 | Over any run a request is written at most twice, the second time on a later connection |
| `TransportRuns.AnswersModuloWrap` | isabelle-lsp/src/main.rs:119-153 | Against late, repeated, reordered or missing replies, an accepted answer belongs to a request whose number agrees modulo 2^64 |
| `TransportRuns.AnswersOwnRequest` | isabelle-lsp/src/main.rs:119-153 | With at most 2^64 requests every accepted answer was produced for exactly that request |
| `TransportRuns.CorrelatedIff` | isabelle-lsp/src/main.rs:97-153 | Exactly: on all runs of n requests every accepted answer was produced for the request that accepted it, if and only if n is at most 2^64; and so on the runs in which every reply comes over a connection its request was written to |
| `TransportRuns.LateReplyRun` | isabelle-lsp/src/main.rs:97-153 | The failing run: request 0 meets garbage, its connection is kept, and over the same connection request 2^64 accepts its late reply |
| `TransportRuns.EveryAttemptProgresses` | isabelle-lsp/src/main.rs:122-206 | Every attempt, whatever the environment does, decreases the number of attempts left |
| `Pipeline.SerialStep` | isabelle-lsp/src/main.rs:102-207 | The request in flight is on the wire, waiting in the bridge, or the adapter's last line; otherwise the bridge is empty and the adapter has done every line |
| `Pipeline.AtMostOneWaits` | bridge/src/main.rs:212-227 | A bridge session fed only by one transport never has more than one push waiting |
| `Pipeline.SerialAnswer` | isabelle-lsp/src/main.rs:130-153 | A reply that ends a request answers exactly that request, and the adapter had by then carried out every line written to it |
| `PipelineChecks.EveryCheckIsOwned` | isabelle-lsp/src/main.rs:343-362 | Every check the adapter carried out carries the identifier of the request of some acknowledged command that covers its document |
| `PipelineChecks.ChecksReadAccepted` | isabelle-lsp/src/main.rs:421-452 | End to end, on every run: a check reads the text of the last edit of its document that the worker accepted among those sent before the check command, or of an edit sent after it; it reads nothing only if there was neither |
| `PipelineChecks.IgnoredByGuard` | isabelle-lsp/src/main.rs:519-532 | An edit counts as ignored exactly if at some step of the run its turn came while a strictly newer version was waiting |
| `PipelineChecks.ChecksReadRecentIff` | isabelle-lsp/src/main.rs:421-452 | A check is at least as recent as every edit sent for its document before the command, if and only if the last of them was not ignored or the check reads an edit sent after the command |
| `PipelineChecks.ChecksReadLastIff` | isabelle-lsp/src/main.rs:421-452 | With no edit of the document sent after the command: the check is recent, and reads the last edit sent, if and only if that one was not ignored |
| `PipelineChecks.OlderIsGreater` | isabelle-lsp/src/main.rs:519-532 | Where the last edit was ignored, the one accepted before it is older and of strictly greater version |
| `PipelineChecks.ChecksReadRecentText` | isabelle-lsp/src/main.rs:421-452 | So with versions of that one document that do not fall before the command, whatever other documents and later edits do, the check is recent |
| `PipelineExample.ReopenedExample` | isabelle-lsp/src/main.rs:740-791 | The failing run: version 7 is waiting when the document is closed and reopened at version 1, and the check reads version 7 |
| `PipelineChecks.AcknowledgedExactly` | isabelle-lsp/src/main.rs:330-341 | When a flush is acknowledged the last push answered for a covered document is the last edit accepted before the command; it is the last one sent if and only if that one was not ignored |
| `PipelineChecks.AcknowledgedMeansDelivered` | isabelle-lsp/src/main.rs:330-341 | From then on the adapter holds the text of that edit, or of one sent after the command |
| `PipelineRefinement.WorkerSimulated` | isabelle-lsp/src/main.rs:511-587 | In every run of the pipeline the worker's receptions and ticks, in their order, are a run of `PushWorker` in which every attempt succeeds; the two agree on the updates received, what waits, the pushes requested, which are those given to the transport, and the flushes acknowledged; a batch under way is a partly visited flush or tick |
| `PipelineRefinement.SkipsLikeScan` | isabelle-lsp/src/main.rs:136-153 | Replies end the request in flight exactly when the scan of `Transport` matches, and otherwise change nothing |
| `StreamLoop.Connection.PruneCompleted` | scala-adapter/src/main/scala/AdapterMain.scala:386-388 | Drops exactly the completed requests and keeps the order of the others |
| `StreamLoop.Connection.WaitForCapacity` | scala-adapter/src/main/scala/AdapterMain.scala:390-399 | Returns with fewer than 64 in flight, waits only when there is no room, and drops only completed requests |
| `StreamLoop.PoolLoopAgrees` | scala-adapter/src/main/scala/AdapterMain.scala:386-408 | A loop inside the pool submits exactly when pruning leaves room, waits exactly when it does not, and keeps in flight what this object's methods keep |
| `StreamLoop.Connection.ReadAll` | scala-adapter/src/main/scala/AdapterMain.scala:401-410 | Every line is submitted once, in order, never with more than 64 in flight, and exactly the uncompleted requests stay in flight |
| `StreamLoop.Connection.Run` | scala-adapter/src/main/scala/AdapterMain.scala:401-423 | At the end of input the requests in flight are waited for, unless there are none; if the wait neither times out nor meets a failure every request has completed when the loop returns |
| `AdapterPool.RunInv` | scala-adapter/src/main/scala/AdapterMain.scala:298-301 | In every reachable state at most four tasks run, no connection has more than 64 requests in flight, and no stage is lost or run twice |
| `AdapterPool.PoolStuckIff` | scala-adapter/src/main/scala/AdapterMain.scala:359-423 | With a stage or handler unfinished the pool can move if and only if connection loops hold fewer than four threads |
| `AdapterPool.LoopsHoldThreads` | scala-adapter/src/main/scala/AdapterMain.scala:364-366 | Loops hold at most as many threads as there are open socket connections; standard input holds none |
| `AdapterPool.PoolMoveDescends` | scala-adapter/src/main/scala/AdapterMain.scala:298-301 | Every move of the pool strictly decreases a measure on stages left, handlers registered and tasks waiting |
| `AdapterPool.PoolRunsEnd` | scala-adapter/src/main/scala/AdapterMain.scala:298-301 | However threads are scheduled, the pool makes only finitely many moves on its own |
| `AdapterPool.PoolFinishesAll` | scala-adapter/src/main/scala/AdapterMain.scala:383-408 | With fewer than four open socket connections, from every state the invariant allows, even with every loop blocked, the pool alone finishes every stage and handler, after which no loop waits any more and every loop has capacity |
| `AdapterReplies.RepliesAccounted` | scala-adapter/src/main/scala/AdapterMain.scala:262-296 | On every run the replies handed to writers, as a multiset, are one for each decoded request whose stages have all run without failure |
| `AdapterPool.StagesCounted` | scala-adapter/src/main/scala/AdapterMain.scala:262-296 | On every run a request has as many stages left as have not ended, and counts as failed exactly if one of them failed |
| `AdapterPool.ConnectionEnds` | scala-adapter/src/main/scala/AdapterMain.scala:401-423 | A loop at its reading can always be ended by its peer, in order or by breaking the connection |
| `AdapterReplies.OpenConnectionsServed` | scala-adapter/src/main/scala/AdapterMain.scala:262-296 | Every reply of a connection that is still open was delivered; only a closed socket drops replies |
| `AdapterReplies.NoUnaskedReply` | scala-adapter/src/main/scala/AdapterMain.scala:262-296 | No reply appears more often than it was asked for; rejected lines get none |
| `AdapterReplies.DeadlockIsFinal` | scala-adapter/src/main/scala/AdapterMain.scala:383-408 | Once four saturated connection loops hold the pool, however the server goes on only new socket connections are opened: no request progresses and no reply is written |
| `AdapterReplies.DeadlockReachable` | scala-adapter/src/main/scala/AdapterMain.scala:364-366 | That standstill is reachable from the start, with requests unfinished |
| `Supervisor.ProcessManager.Start` | bridge/src/process.rs:112-136 | Starting replaces child and writer as the mode says, or leaves neither when it fails |
| `Supervisor.ProcessManager.WriteLine` | bridge/src/process.rs:410-433 | A dead child, an unknown status or a missing writer refuses the line; otherwise the line goes to the current writer |
| `Supervisor.ProcessManager.Send` | bridge/src/process.rs:138-166 | The retry loop computes the send specification for any failure pattern |
| `Supervisor.SendBound` | bridge/src/process.rs:138-173 | At most four writes, each on a newer adapter generation and only the last complete; success exactly when the last is complete and on the writer in use; sleep 250*(2^a - 1) ms after a restarts, at most 1750; a child pipe always has its child |
| `Supervisor.SendSucceedsIff` | bridge/src/process.rs:138-166 | A send succeeds exactly when some attempt up to the fourth can write and every restart before it succeeds |
| `Supervisor.SendFailsHow` | bridge/src/process.rs:138-173 | A send reports a failed restart exactly if one of the first three restarts failed before any attempt could write; otherwise, unless it succeeds, that its retries are used up |
| `Supervisor.StartMeans` | bridge/src/process.rs:112-136 | What a start leaves, mode by mode: the next generation, a pipe into the child exactly for a plain command, a child unless it connects to a running adapter; nothing if it fails |
| `Supervisor.StartStopSound` | bridge/src/process.rs:112-173 | Starting and stopping keep child, writer and generations consistent; a writer is present exactly after a successful start |
| `Supervisor.TriesMeans` | bridge/src/process.rs:138-166 | Reads off any record of a send: its line, its generation bound, and that an earlier record is incomplete and older than its successor |
| `RootFile.StripUnquotedHashComment` | zed-extension/src/lib.rs:323-338 | The loop computes the stripping specification |
| `RootFile.StripCuts` | zed-extension/src/lib.rs:323-338 | Stripping cuts exactly at the first # outside quotes, and is the whole line if there is none |
| `RootFile.StripIdempotent` | zed-extension/src/lib.rs:323-338 | Stripping twice is stripping once |
| `RootFile.TokenizeRootLine` | zed-extension/src/lib.rs:340-371 | The peeking loop computes the token specification, with quoted tokens closed or not |
| `RootFile.ParseSessionFromLine` | zed-extension/src/lib.rs:262-297 | The line parser computes the declaration its tokens make, with the source's early exits |
| `RootFile.TokenizeInvertsPrint` | zed-extension/src/lib.rs:323-371 | Stripping and tokenizing a printed line gives back exactly its tokens, quoted or bare, whatever the comment |
| `RootFile.ParseInvertsPrint` | zed-extension/src/lib.rs:262-297 | Parsing a printed line that starts with session gives what its tokens declare, with any leading whitespace and any comment |
| `RootFile.SessionIff` | zed-extension/src/lib.rs:262-297 | A printed line, under any leading whitespace and comment, declares a session if and only if its first token is session and a second token follows that is not empty |
| `RootFile.DeclaredExactly` | zed-extension/src/lib.rs:262-297 | Which session: its name is the second token; it has a parent exactly if some = has a token behind it and the one behind the first such = is not empty, and that token is the parent |
| `RootFile.SpaceTable` | zed-extension/src/lib.rs:323-371 | The whitespace characters, one by one: those with the Unicode property White_Space |
| `RootFile.DeclarationRecovered` | zed-extension/src/lib.rs:262-297 | The declared name and parent are recovered when no token before the intended = is itself = |
| `RootFile.OrphanRecovered` | zed-extension/src/lib.rs:262-297 | Without such an = there is no parent; an = in last place does not count |
| `LogicSelection.UniqueSessionNames` | zed-extension/src/lib.rs:228-239 | The loop keeps each name of the filtered sessions once, in order of first appearance |
| `LogicSelection.PickAutoLogic` | zed-extension/src/lib.rs:206-226 | The choice is computed from the two unique-name lists |
| `LogicSelection.UniqueNamesExact` | zed-extension/src/lib.rs:228-239 | The names are pairwise different and exactly those of the sessions that pass |
| `LogicSelection.PickMeetsSpec` | zed-extension/src/lib.rs:206-226 | The choice is the one and only answer of the cardinality specification on the set of sessions |
| `LogicSelection.PickIgnoresOrder` | zed-extension/src/lib.rs:206-226 | Order and repetition of the sessions do not matter |
| `Environment.Variables.Upsert` | zed-extension/src/lib.rs:428-435 | In place: the first entry for the key gets the value, or a new entry is appended |
| `Environment.Variables.Ensure` | zed-extension/src/lib.rs:437-443 | Appends only when the key has no entry |
| `Environment.Variables.Merge` | zed-extension/src/lib.rs:408-422 | Applies each unrestricted override once, in the order of some walk of the table |
| `Environment.Variables.Resolve` | zed-extension/src/lib.rs:373-398 | Merges, and in bridge mode supplies the two bridge variables |
| `Environment.ResolvedLookup` | zed-extension/src/lib.rs:373-443 | For every key and every walk order, the value read is the override, else the shell's, else the bridge default; the two autostart variables are never overridden |
| `Environment.OptionalLookup` | zed-extension/src/lib.rs:373-422 | The same for settings without an override table, where every key reads as the shell's or the bridge default |
| `Environment.MergeIgnoresOrder` | zed-extension/src/lib.rs:408-422 | Any two walk orders give the same entries, each as often, and the same sequence of entries for every key, whatever the shell environment |
| `Environment.ResolvedDistinct` | zed-extension/src/lib.rs:408-443 | A shell environment in which no key is repeated is handed on without a repeated key |
| `Environment.LastReaderIff` | zed-extension/src/lib.rs:428-435 | A reader that takes the last entry sees an override exactly when the environment has no second entry for the key, or already ends on that value |
| `KeymapMarkers.StripLeavesNoBlock` | scripts/install_zed_shortcuts.sh:74-79 | After stripping no start marker has an end marker behind it |
| `KeymapMarkers.StripsBlocks` | scripts/install_zed_shortcuts.sh:74-79 | Stripping is the substitution of the pattern: its first match, from the whitespace before the first start marker to the optional comma and newline behind the first end marker after it, becomes one newline, and it goes on behind the match |
| `KeymapMarkers.FirstBlockExists` | scripts/install_zed_shortcuts.sh:74-79 | A text that has an end marker behind a start marker has such a first match; otherwise stripping changes nothing (`StripNothing`) |
| `KeymapMarkers.SpaceTable` | scripts/install_zed_shortcuts.sh:74-79 | The characters that the pattern and str.strip take for whitespace, one by one |
| `KeymapMarkers.StripAssembled` | scripts/install_zed_shortcuts.sh:74-79 | Stripping a text with a fresh block removes everything from its first start marker to the end of the block |
| `KeymapKeys.ExtractUsedBindingKeys` | scripts/install_zed_shortcuts.sh:91-100 | The loop collects the keys of all lines that match the binding pattern |
| `KeymapKeys.UsedKeysIff` | scripts/install_zed_shortcuts.sh:82-100 | A key counts as used if and only if some line of the text matches the binding pattern and its quoted name, trimmed and in lower case, is that key, and looks like one: f and digits, or with -, + or a space in it |
| `KeymapKeys.BreakTable` | scripts/install_zed_shortcuts.sh:91-100 | The characters that end a line, one by one |
| `KeymapKeys.ChooseKeys` | scripts/install_zed_shortcuts.sh:103-112 | The loop with its early exit computes the selection |
| `KeymapKeys.ChosenAreFree` | scripts/install_zed_shortcuts.sh:103-112 | At most two candidates, pairwise different, unused and unreserved; a free candidate is passed over only when two others were taken |
| `KeymapKeys.ChosenComeFirst` | scripts/install_zed_shortcuts.sh:103-112 | The chosen keys are in candidate order, and a free candidate that is not chosen comes after all that are |
| `KeymapKeys.CutText` | scripts/install_zed_shortcuts.sh:91-100 | Cutting a keymap before whitespace and its closing bracket, or before an added comma, changes no used key that could matter |
| `Keymap.BuildBlock` | scripts/install_zed_shortcuts.sh:131-149 | The loop builds the block's lines, with a comma after all but the last binding |
| `Keymap.BindingWritten` | scripts/install_zed_shortcuts.sh:115-149 | Each binding stands in the block on lines of its own: its key, the action of its task (spawning the named task in the dock, or running the last again), and a comma unless it is the last |
| `Keymap.BlockFramed` | scripts/install_zed_shortcuts.sh:131-149 | The lines around the bindings: an object for the whole workspace between the two marker comments |
| `Keymap.InstallShortcuts` | scripts/install_zed_shortcuts.sh:151-197 | The whole script computes the installation, with both error exits in the source's order |
| `Keymap.InstallEndsIff` | scripts/install_zed_shortcuts.sh:156-188 | The script installs if and only if some candidate key is neither used nor reserved and the stripped text has a closing bracket; without a free key it gives up, and only then does it look for the bracket |
| `Keymap.InstalledKeysFree` | scripts/install_zed_shortcuts.sh:156-173 | What it installs binds no key that any line of the stripped keymap binds |
| `Keymap.BindingsMeant` | scripts/install_zed_shortcuts.sh:160-173 | Every task gets keys from its own three candidates, at most two |
| `Keymap.BindingsConflictFree` | scripts/install_zed_shortcuts.sh:160-173 | No two installed bindings share a key and none takes a used or reserved one |
| `Keymap.StripUndoesInsert` | scripts/install_zed_shortcuts.sh:74-79 | Stripping what was inserted gives the old text back up to the comma, the whitespace before the bracket and a final newline |
| `Keymap.InstallTwiceIff` | scripts/install_zed_shortcuts.sh:151-197 | Installing twice gives exactly the text of installing once, if and only if the stripped keymap has no start marker before its last closing bracket |
| `Keymap.UnclosedMarkerExample` | scripts/install_zed_shortcuts.sh:74-79 | A concrete keymap, an unclosed start marker above an empty array, for which the second installation does not reproduce the first |

## Left out

- Sockets, process spawning, task scheduling, temporary files, logging, command lines, settings lookup and autostart polling: each is a success, failure, end of file or timeout chosen by the environment.
- JSON text and URL syntax: serialisation and parsing belong to libraries; messages are values and `UrlParser` is any function.
- The finer interleavings of publish, close and stop calls: each call is one step, although the code awaits between updating its map and sending its notifications.
- PipelineChecks.ChecksReadRecentIff: covers undisturbed runs only, with the session running, no failing or timed-out request, no reconnect and no restart, because the adapter forgets its documents when restarted; failures of the single parts are covered by BridgeTransparency, TransportRuns and Supervisor.
- Pipeline: only `document.push`, `document.check` and uninterpreted other requests; hover requests pass as the latter and their positions are not converted.
- Delivery after failure or shutdown: a malformed push ends the session, a failed send abandons the rest of its batch, the worker drops what waits when its channel closes, and nothing is proved to arrive then.
- Push latency: every accepted push restarts the timer, so no bound is claimed.
- Version monotonicity across drains: an older version is accepted once nothing waits, so none is claimed.
- Text edited while the session is stopped is not sent again by starting it; nothing is claimed about it.
- A closed document's waiting push is not cancelled, so diagnostics may return after a close; CloseClears speaks of the moment of closing.
- Adapter requests run concurrently: AdapterPool does not order a push before a later check; Pipeline needs no such order because the transport sends one request at a time.
- The contents of diagnostics: running Isabelle, `parseProcessTheoriesDiagnostics`, theory-name extraction and reading files are not part of this model.
- AdapterPool: a request's work is a number of stages known when its line is read; the handlers that the final wait of a draining connection registers are not counted, and its 30 seconds are a choice of the environment.
- StreamLoop.Connection.Run: which way the final wait ends is chosen by the environment; the clock is not modelled.
- Supervisor: error texts, the adapter's output readers and the 45-second startup poll inside one start are one success or failure.
- Environment: `setting_*` readers and the default socket and session names are parameters.
- RootFile: `parse_roots_line` and reading ROOTS files: they choose which directories to read, which is input and output, and decide nothing about a declaration.
- Keymap: reading `ISABELLE_ZED_RESERVED_KEYS` is a parameter; the uninstall scripts and the Windows script are not modelled.
- KeymapKeys.CutText: assumes of lower-casing that a closing bracket stays one, which Unicode case mapping gives.
