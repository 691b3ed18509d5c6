# Verified model of the node worker, the console's session state and the launcher's configuration

This project models, in Dafny, the parts of the repository whose correctness depends on what may
happen between two awaits, between two tabs, or between writing a file and reading it back. Each
module holds one component.

| module | component |
|---|---|
| ChannelLeases | the worker's per-session channel leases and their idle collector |
| TaskPermits | the worker's semaphore, running tasks and table of tasks by id |
| TaskStream | the websocket task stream with its HTTP polling fallback |
| DiagnosticsQueue | the bounded queue of unsent diagnostics, flushed while producers append |
| PairingFile, PairingRequests | pairing requests and the line merge that persists them |
| DiagnosticsWindow | the window of 200 events against its log and snapshot files |
| ChannelAssessment | the escalating concurrency search of the node |
| EnvCodec, EnvFile, NodeConfig | the launcher's env-file codec, reader, writer and updates |
| ResponseCache | the launcher's TTL cache with two checks around a lock |
| MessageMerge, SessionMessageCache | the console's message merge and per-session cache |
| PollOwnerLease | the polling lease that tabs share through local storage |
| SessionThreads | the grouping of sessions into threads |
| PythonText, OrderedDict, BoundedDeque, StableSort | string, dict, deque and sort semantics of the host languages |

Code that changes fields is a class whose methods equate the new fields with a function of the old
ones. For the concurrent components the same functions are the steps of a state machine; one step
is one stretch of code between two suspension points, so a run is any interleaving the event loop
allows. Logs, `marked`, `segments`, `spawned`, `finished`, `enqueued`, `sent` and `evicted` are history that
the code does not keep.

Strings are full `seq<char>`; whitespace and line breaks are the complete sets of Python's
`str.strip` and `str.splitlines`. Integers are unbounded, as in Python; message times are integers.

## Assumptions

- Leases: the clock does not run backwards and the timeout is at least 60 seconds
  (`services/claw-node/claw_node/config.py:49`).
- Message cache: the transcript is append-only with distinct ids and increasing times; each response
  carries a slice of it. A snapshot or increment ends at its `next_cursor`. An increment onto a
  cached window may state any start, because the code does not look at it.
- Older pages: the gateway's message count is the length of its transcript.
- Polling lease: distinct tab ids, one clock shared by all tabs, and a claim whose read and write of
  local storage are not torn apart.
- Pairing runs: configured values and trimmed request fields are on one line, the hostname and the
  four credentials in memory are trimmed at the start, and
  the existing file has no updated key on two lines.

## Where the code does less than one would expect

- A quoted value with a tab at its edge loses it when any other key is updated
  (`NodeConfig.TabbedValueIsTrimmed`); a value with a literal backslash-n or backslash-r never
  survives a write (`EnvCodec.RoundTrip`, `EnvCodec.BackslashNBecomesFeed`).
- In the pairing merge a key that stands on two lines keeps reading as its last, old value
  (`PairingFile.DuplicateKeepsOldValue`, exactly when by `PairingFile.UpdateTakesEffect`).
- A pairing whose file write failed is answered `already_paired` when repeated, and the file stays
  stale (`PairingRequests.RetryLeavesNoFile`, exactly when by `PairingRequests.FailedWriteIsNotRetried`).
- The completion of a task clears the lease marker of any other task of the session, and a handler
  that is cancelled or fails while winding down marks completion a second time. A lease can then be
  dropped under a running handler (`ChannelLeases.SecondTaskLosesLease`,
  `ChannelLeases.SecondMarkLosesLease`, exactly when by `ChannelLeases.LeaseSurvivesIff`).
- A stop that reaches the task stream while it waits for a cancelled helper task is swallowed: the
  loop runs on and the stop does not return (`TaskStream.StopEndsLoopIff`).
- A replacing response without `history_start` gets a wrong start when the cached cursor is not the
  new one (exactly when by `SessionMessageCache.UnstatedStartIff`).
- A page of older messages moves the cached cursor to the gateway's message count; messages that
  arrived meanwhile are skipped by all increments that follow (`SessionMessageCache.SkippedForGood`).
- A cache build that is in flight during an invalidation stores its stale value afterwards
  (`ResponseCache.StaleBuildServed`, exactly when by `ResponseCache.ServedBuildStartedAfter`).
- A diagnostics window restored from the snapshot alone is lost at the next restart once some but
  fewer than 200 events were logged (`DiagnosticsWindow.SnapshotOnlyIsLost`, exactly when by
  `DiagnosticsWindow.RestartRestoresIff`).
- With more than 29 rounds an assessment tries concurrencies the node cannot be configured to
  (`ChannelAssessment.FastNodeRecommendation`).

## Model

| member | source | states |
|---|---|---|
| ChannelLeases.ChannelLeaseTable.MarkChannelTaskStarted | services/claw-node/claw_node/worker.py:1354-1368 | a task with a session and a slot overwrites that session's lease, marked in flight under its id; any other task leaves the table alone |
| ChannelLeases.ChannelLeaseTable.MarkChannelTaskCompleted | services/claw-node/claw_node/worker.py:1370-1379 | a present lease keeps slot and user, is stamped now and loses its marker whichever task set it |
| ChannelLeases.ChannelLeaseTable.CollectIdle | services/claw-node/claw_node/worker.py:1389-1409 | the snapshot holds each lease without marker whose last_active_at lies at least the timeout back exactly once, and nothing else |
| ChannelLeases.ChannelLeaseTable.DropIfUnchanged | services/claw-node/claw_node/worker.py:1427-1434 | the lease goes only if slot, stamp and missing marker are those of the snapshot |
| ChannelLeases.RecheckIffUntouched | services/claw-node/claw_node/worker.py:1427-1434 | after the submit, the re-check drops a lease if and only if no start or completion touched its session since the snapshot |
| ChannelLeases.EveryDropJustified | services/claw-node/claw_node/worker.py:1389-1434 | in every interleaving, each dropped lease was in the latest snapshot, unmarked and idle for the timeout; its release was submitted after that; and nothing touched the session from snapshot to drop |
| ChannelLeases.DroppedAfterTimeout | services/claw-node/claw_node/worker.py:1394-1399 | in every run a dropped lease bore no marker and, at an earlier scan, had last_active_at at least the timeout back, with nothing touching the session in between |
| ChannelLeases.LeaseIsHistory | services/claw-node/claw_node/worker.py:1354-1379 | in every run from an empty table without recovery a lease holds slot and user of the last task started on its session, the instant of the last start or completion, and that task's id exactly when nothing completed since |
| ChannelLeases.DroppedSessionsWereIdle | services/claw-node/claw_node/worker.py:1389-1434 | in every such run, when a lease is dropped, all starts and completions of its session lie at least the timeout before the scan |
| ChannelLeases.RunningLeaseKept | services/claw-node/claw_node/worker.py:1354-1434 | with one handler per session until it ends (each task with an id, and recovery keeping the markers of running handlers), no step removes the lease of a handler that has not marked completion |
| ChannelLeases.MarkedIffLastStart | services/claw-node/claw_node/worker.py:1354-1379 | in every run without recovery whose tasks have ids, a lease bears a marker if and only if the last task event of its session is a start |
| ChannelLeases.LeaseGoesIff | services/claw-node/claw_node/worker.py:1389-1434 | in every run a step takes a lease away if and only if it re-checks that lease and nothing touched the session since the scan; without recovery its last task event is then no start |
| ChannelLeases.LeaseSurvivesIff | services/claw-node/claw_node/worker.py:1354-1434 | in every reachable state of such a run, a lease outlasts everything short of another task event of its session if and only if the last such event was a start |
| ChannelLeases.SecondMarkLosesLease | services/claw-node/claw_node/worker.py:850-910 | a run in which every start finds no handler short of its first completion mark, and a second mark by the first handler still costs the second task its lease |
| ChannelLeases.SecondTaskLosesLease | services/claw-node/claw_node/worker.py:1370-1379 | a run in which two tasks share a session and the lease of the one still running is dropped |
| DiagnosticsQueue.PendingDiagnostics.Enqueue | services/claw-node/claw_node/worker.py:1206-1212 | an append past 100 entries evicts the oldest one |
| BoundedDeque.LastIsSuffix | services/claw-node/claw_node/worker.py:45 | a bounded deque keeps the end of what was appended, in order and as long as fits |
| DiagnosticsQueue.PendingDiagnostics.FinishFlush | services/claw-node/claw_node/worker.py:1346-1347 | as many entries leave on the left as were sent, or all if fewer remain |
| DiagnosticsQueue.FlushLeavesArrivals | services/claw-node/claw_node/worker.py:1310-1352 | a successful flush of n events leaves exactly the newest arrivals that fit in 100 - n places, in order |
| DiagnosticsQueue.RunLosslessIffNoEviction | services/claw-node/claw_node/worker.py:1310-1352 | over any run, sent batches followed by the queue are everything enqueued if and only if no append met a full queue; the shortfall is the number of evictions |
| DiagnosticsQueue.FailedFlushKeepsBatch | services/claw-node/claw_node/worker.py:1329-1344 | a failed send marks nothing as sent and leaves batch and arrivals queued up to the bound |
| TaskStream.TaskStreamFields.OnOpened | services/claw-node/claw_node/worker.py:285-289 | a connection resets the failure count and degraded mode and opens a new segment of the history |
| TaskStream.TaskStreamFields.HandleTaskStreamDisconnect | services/claw-node/claw_node/worker.py:1214-1255 | one more failure in a row, one more disconnect, charged to the current segment |
| TaskStream.TaskStreamFields.MaybeRunTaskStreamFallback | services/claw-node/claw_node/worker.py:1257-1308 | below three failures nothing changes; from three on the node is degraded, counts a fallback and polls |
| TaskStream.FallbackOnlyWhenDegraded | services/claw-node/claw_node/worker.py:281-372 | in every run degraded means at least three failures in a row, and at every await running fallback polling means degraded without a socket, except where a fresh connection waits for the cancelled polling task |
| TaskStream.FieldsAreHistory | services/claw-node/claw_node/worker.py:1214-1308 | failures are the disconnects since the last connect, degraded means at least three of them, and one fallback is counted for each disconnect from the third |
| TaskStream.ThirdFailurePolls | services/claw-node/claw_node/worker.py:1257-1308 | a disconnect leaves the node polling over HTTP if and only if it is at least the third since a connect, and polling goes on until it ends by itself, a connect or a stop |
| TaskStream.CountersAgree | services/claw-node/claw_node/worker.py:1214-1308 | disconnects minus fallbacks is the sum over connection segments of at most two each, so at most 2 * (connects + 1) |
| TaskStream.ConnectOverlapsUntilStopped | services/claw-node/claw_node/worker.py:566-574 | that exception is reached by every connect while polling runs, and the polling task is gone at the next await |
| TaskStream.StopEndsLoopIff | services/claw-node/claw_node/worker.py:531-555 | in every run, and whatever follows short of another stop or a 4401 close, a stop has ended the loop if and only if it did not land in an await that swallows cancellation |
| TaskStream.StopCanMiss | services/claw-node/claw_node/worker.py:365-370 | a run in which a stop lands behind a plain disconnect and misses |
| TaskPermits.WorkerTasks.StartAcquired | services/claw-node/claw_node/worker.py:270-279 | an acquired permit becomes one running task, indexed by its id unless that is empty |
| TaskPermits.WorkerTasks.OnTaskDone | services/claw-node/claw_node/worker.py:379-384 | the task leaves the running set and the table, and one permit comes back |
| TaskPermits.PermitsConserved | services/claw-node/claw_node/worker.py:256-279 | free permits, permits on their way to a woken dispatcher and running tasks always add up to max_concurrency; the heartbeat load is full exactly when none is free or on its way |
| TaskPermits.PermitReturnedOnce | services/claw-node/claw_node/worker.py:379-384 | no task returns its permit twice in a run |
| TaskPermits.AllReturned | services/claw-node/claw_node/worker.py:379-384 | when every started task has ended, however it ended, no permit is missing |
| TaskPermits.TableIsBijection | services/claw-node/claw_node/worker.py:272-278 | with distinct non-empty ids the table by id and the running set name each other one to one |
| TaskPermits.WorkerTasks.CurrentStatus | services/claw-node/claw_node/gateway_client.py:80 | the heartbeat says busy when the running tasks reach max_concurrency |
| PairingFile.PersistRuntimePairing | services/claw-node/claw_node/worker.py:704-720 | the loop that pops pending keys writes the merge described by the lemmas below |
| PairingFile.ViewsAgree | apps/desktop-launcher/launcher/process_manager.py:487-492 | the merger and the reader take the same lines for assignments and see the same key in them, for every line |
| PairingFile.PersistReadsBack | services/claw-node/claw_node/worker.py:685-721 | for every existing file: an updated key that stood on at most one line reads back as its new value, one that stood on several keeps the value of its last line, any other key reads as before |
| PairingFile.ReadIsLast | apps/desktop-launcher/launcher/process_manager.py:483-493 | for every reader, a key reads as the text of its last line |
| PairingFile.UpdateTakesEffect | services/claw-node/claw_node/worker.py:685-721 | an update is visible to the reader if and only if its key stood on at most one line or already had that value |
| PairingFile.DuplicateKeepsOldValue | services/claw-node/claw_node/worker.py:704-719 | the failing side: a key on two lines still reads as its second value after the update |
| PairingFile.DuplicateInstance | services/claw-node/claw_node/worker.py:704-719 | with K=a and K=b on file, the update K=c leaves K reading b |
| PairingFile.MergeKeepsLines | services/claw-node/claw_node/worker.py:704-719 | every line stays in its place verbatim except the first line of each updated key, and exactly the updates that met no line are appended |
| PairingFile.MergeTwice | services/claw-node/claw_node/worker.py:704-719 | merging the same updates again changes no line |
| PairingFile.PersistTwice | services/claw-node/claw_node/worker.py:685-721 | persisting twice writes the same file as persisting once |
| PairingRequests.PairingService.HandlePairRequest | services/claw-node/claw_node/worker.py:576-683 | reply, settings and file after a request, on every branch, for a failed write, a failed registration and a success |
| PairingRequests.RefusedIff | services/claw-node/claw_node/worker.py:576-635 | auth_failed exactly without the configured non-blank key; already_paired exactly for a keyed request to a node with a token that repeats its credentials or lacks some; incomplete exactly for one that lacks some to a node without token; and refusals change nothing |
| PairingRequests.AcceptedFields | services/claw-node/claw_node/worker.py:636-642 | an accepted request sets exactly the four credentials to its trimmed fields, a blank node id falling back to the current one and then to the host name |
| PairingRequests.KeyIsNeeded | services/claw-node/claw_node/worker.py:594-604 | over every run, requests without the node's key change nothing in memory or on file |
| PairingRequests.LastAcceptedWins | services/claw-node/claw_node/worker.py:636-642 | after every run address, token and trace are those of the last accepted request |
| PairingRequests.WriteStoresDiscovery | services/claw-node/claw_node/worker.py:685-702 | a written pairing makes key, direct auth, discovery and label readable, each under its own key |
| PairingRequests.WriteStoresService | services/claw-node/claw_node/worker.py:685-702 | and node kind, env file, diagnostics directory and service, each under its own key |
| PairingRequests.PairingService.EnsureGatewayLoopsStarted | services/claw-node/claw_node/worker.py:386-455 | the heartbeat runs afterwards if and only if token or local auth, address and node id are there and the gateway registers the node |
| PairingRequests.PairedIff | services/claw-node/claw_node/worker.py:664-683 | an accepted request is answered paired if and only if the write and the registration succeed and some node id or host name is not blank |
| PairingRequests.StepConsistent | services/claw-node/claw_node/worker.py:576-683 | one request keeps the settings trimmed, the file free of duplicate keys, and file and memory equal unless the last write failed |
| PairingRequests.RunConsistent | services/claw-node/claw_node/worker.py:576-683 | the same over every run of single-line requests, with writes succeeding or failing |
| PairingRequests.RunAllWritten | services/claw-node/claw_node/worker.py:576-683 | if every write succeeds the env file always holds the credentials in memory |
| PairingRequests.RepeatIsAlreadyPaired | services/claw-node/claw_node/worker.py:612-622 | an accepted request, repeated, is answered already_paired and changes nothing |
| PairingRequests.FailedWriteIsNotRetried | services/claw-node/claw_node/worker.py:643-664 | after a request and its repetition, whatever their outcomes, the file holds the credentials if and only if the first write succeeded or it held them before |
| PairingRequests.RetryLeavesNoFile | services/claw-node/claw_node/worker.py:643-664 | an instance: a node without env file whose first write fails still has none after the retry, which is answered already_paired |
| PairingRequests.MergedOccurrences | services/claw-node/claw_node/worker.py:704-719 | a merge leaves each key on as many lines as before, or on one if it was missing and is updated |
| EnvCodec.QuotedRoundTrip | apps/desktop-launcher/launcher/app.py:1963-1973 | the two replaces of the reader invert the two of the writer, for every string and every run of backslashes before a quote |
| EnvCodec.DenormalizeNormalize | apps/desktop-launcher/launcher/app.py:1961-1974 | escaping CR and LF before decoding them changes the decoded text not at all, literal escapes included |
| EnvCodec.UnescapeImage | apps/desktop-launcher/launcher/app.py:1968-1974 | no value a reader returns contains a literal backslash-r or backslash-n |
| EnvCodec.UnquotedRoundTrip | apps/desktop-launcher/launcher/app.py:1960-1974 | an unquoted value survives if and only if it has no literal escape and no strippable whitespace at its ends |
| EnvCodec.RoundTrip | apps/desktop-launcher/launcher/app.py:1960-1974 | for every string, reading the written value gives it back if and only if it has no literal backslash-r or backslash-n and either contains a double quote, single quote, space or hash or has no other whitespace at its ends that stripping removes |
| EnvCodec.QuotedIff | apps/desktop-launcher/launcher/app.py:1961-1964 | a value is written in quotes if and only if it contains a double quote, a single quote, a space or a hash |
| EnvCodec.ReadBack | apps/desktop-launcher/launcher/app.py:1960-1974 | what comes back for every string: the decoded value, of an unquoted one without its edges |
| EnvCodec.SingleQuoted | apps/desktop-launcher/launcher/app.py:1968-1974 | text in single quotes, as in a hand-written file, is decoded but not unescaped |
| EnvCodec.LostAtEdges | apps/desktop-launcher/launcher/app.py:1969 | the whitespace a bare value loses, character by character |
| EnvCodec.BackslashNBecomesFeed | apps/desktop-launcher/launcher/app.py:1960-1974 | the value backslash-n comes back as a line feed |
| EnvCodec.EscapeStaysOnOneLine | apps/desktop-launcher/launcher/app.py:1960-1965 | a value whose only line breaks are CR and LF is written on one line |
| EnvFile.ReadEnvFile | apps/desktop-launcher/launcher/app.py:1511-1522 | the loop gives the dictionary in which the last assignment of each key wins; a missing file is empty |
| PythonText.SplitAtBreak | apps/desktop-launcher/launcher/app.py:1516 | a line of the file ends at its first break |
| PythonText.SplitAtCrLf | apps/desktop-launcher/launcher/app.py:1516 | CR LF is one break |
| EnvFile.ReadImage | apps/desktop-launcher/launcher/app.py:1511-1522 | whatever the file, the keys read are distinct and safe to write and no value holds a literal escape or an unprotected line break |
| EnvFile.FileRoundTrip | apps/desktop-launcher/launcher/app.py:1954-1957 | a written dictionary reads back identically, order included, if and only if all its keys are safe and all its values are preserved by the codec |
| EnvFile.RewriteFrame | apps/desktop-launcher/launcher/app.py:2037-2046 | for every existing file, read-modify-write changes exactly the targeted keys if and only if the new entries are storable and no untouched value loses unquoted edge whitespace |
| EnvFile.RewriteLookup | apps/desktop-launcher/launcher/app.py:2037-2046 | the same key by key: a targeted key reads its new value, any other its old one |
| EnvFile.TargetTakes | apps/desktop-launcher/launcher/app.py:2037-2046 | for every existing file a storable update makes each targeted key read as its new value, whatever becomes of the others |
| NodeConfig.UpdateCapacityConfig | apps/desktop-launcher/launcher/app.py:2037-2046 | the file written is the read-modify-write of the two capacity keys, also when no file existed |
| NodeConfig.UpdateModelConfig | apps/desktop-launcher/launcher/app.py:2008-2034 | the file written is the read-modify-write of the model keys, with blank secrets left out |
| NodeConfig.CapacityFrame | apps/desktop-launcher/launcher/app.py:2037-2046 | a capacity update touches nothing else if and only if every other value keeps its edges |
| NodeConfig.CapacityStored | apps/desktop-launcher/launcher/app.py:2044-2045 | for every existing file the two capacity keys read back as the submitted numbers, or 1 if smaller |
| NodeConfig.DecimalValue | apps/desktop-launcher/launcher/app.py:2044-2045 | a number is written in decimal digits of its value, without a leading zero |
| NodeConfig.TabbedValueIsTrimmed | apps/desktop-launcher/launcher/app.py:2037-2046 | a concrete file that fails: a quoted value with a leading tab comes back without it after a capacity update |
| NodeConfig.ModelFrame | apps/desktop-launcher/launcher/app.py:2008-2034 | a model update touches exactly its own keys if and only if the submitted values are storable and every other value keeps its edges |
| NodeConfig.BlankSecretKept | apps/desktop-launcher/launcher/app.py:2012-2015 | saving the form with a blank API key keeps the stored key |
| NodeConfig.BlankDifyKept | apps/desktop-launcher/launcher/app.py:2030-2033 | saving the form with a blank Dify key keeps the stored key |
| NodeConfig.ModelStored | apps/desktop-launcher/launcher/app.py:2008-2034 | for every existing file a storable model update reads back as itself |
| NodeConfig.ModelTexts | apps/desktop-launcher/launcher/app.py:2011-2029 | each text field of the request stands under its own key |
| NodeConfig.ModelSwitches | apps/desktop-launcher/launcher/app.py:2017-2028 | each switch stands under its own key as true or false |
| NodeConfig.ModelDefaults | apps/desktop-launcher/launcher/app.py:2010-2026 | a blank provider is stored as auto, a blank search strategy as turbo |
| NodeConfig.ModelSecrets | apps/desktop-launcher/launcher/app.py:2012-2033 | a secret is emptied when clearing is asked for and otherwise set when its field is not blank |
| NodeConfig.DecimalInjective | apps/desktop-launcher/launcher/app.py:2044-2045 | different numbers are written differently |
| MessageMerge.SetAll | apps/agent-console/src/hooks/useSessionConsoleController.ts:153-156 | one loop of map writes extends what the map was built from by the messages written |
| MessageMerge.MergeMessages | apps/agent-console/src/hooks/useSessionConsoleController.ts:151-158 | the map filled from both lists and sorted by time, or the current list when nothing comes in |
| MessageMerge.MergeContents | apps/agent-console/src/hooks/useSessionConsoleController.ts:151-158 | merging ordered, id-distinct lists gives such a list, holding every incoming message and exactly the current ones whose id is not incoming |
| MessageMerge.MergeIds | apps/agent-console/src/hooks/useSessionConsoleController.ts:151-158 | the ids of a merge are the union of the ids |
| MessageMerge.MergeIdempotent | apps/agent-console/src/hooks/useSessionConsoleController.ts:151-158 | merging the same batch again changes nothing |
| MessageMerge.MergeOfKnown | apps/agent-console/src/hooks/useSessionConsoleController.ts:151-158 | merging messages that are all there changes nothing, the order of equal timestamps included |
| MessageMerge.MergeCommutes | apps/agent-console/src/hooks/useSessionConsoleController.ts:151-158 | on immutable messages with distinct timestamps the order of two merges does not matter |
| MessageMerge.MergeAssociates | apps/agent-console/src/hooks/useSessionConsoleController.ts:151-158 | nor does their grouping |
| MessageMerge.MergeSlices | apps/agent-console/src/hooks/useSessionConsoleController.ts:151-158 | two slices of one transcript that overlap or touch merge into the slice they span |
| SessionMessageCache.MessageCache.SyncSessionMessageCache | apps/agent-console/src/hooks/useSessionConsoleController.ts:174-220 | the entry stored and returned, on every branch; entries of other sessions stay |
| SessionMessageCache.StepKeepsWindow | apps/agent-console/src/hooks/useSessionConsoleController.ts:174-220 | one honest response that touches the window keeps it a gap-free slice ending at the cursor |
| SessionMessageCache.CacheIsWindow | apps/agent-console/src/hooks/useSessionConsoleController.ts:174-220 | after any sequence of such responses the cached messages are exactly a slice of the transcript that ends at the cursor and begins at or before historyStart, and the cursor never moved back |
| SessionMessageCache.StepKeepsStart | apps/agent-console/src/hooks/useSessionConsoleController.ts:165-172 | when merge mode and replace flag agree, the window begins exactly at historyStart and the length test of the preserve check is implied by its start test |
| SessionMessageCache.StartIsExact | apps/agent-console/src/hooks/useSessionConsoleController.ts:195-206 | over whole runs of agreeing responses the window begins exactly at historyStart |
| SessionMessageCache.HistoryNeverLost | apps/agent-console/src/hooks/useSessionConsoleController.ts:165-206 | over whole runs of agreeing responses the cached window only grows and no cached message is lost |
| SessionMessageCache.ResponseWins | apps/agent-console/src/hooks/useSessionConsoleController.ts:174-192 | when messages can change, a response that is no older page wins on shared ids, and an increment keeps the rest of the cache |
| SessionMessageCache.CacheWinsOverOlder | apps/agent-console/src/hooks/useSessionConsoleController.ts:174-192 | an older page adds what is missing and leaves cached messages as they are |
| SessionMessageCache.MoreBeforeIff | apps/agent-console/src/hooks/useSessionConsoleController.ts:193-208 | over whole runs of honest responses with truthful flags, older messages are offered exactly while the recorded start is not 0 |
| SessionMessageCache.MoreBeforeIsTrue | apps/agent-console/src/hooks/useSessionConsoleController.ts:193-208 | with agreeing responses, exactly while the transcript has messages before the cached ones |
| SessionMessageCache.GivenFlagIsTaken | apps/agent-console/src/hooks/useSessionConsoleController.ts:193-208 | a given flag is stored, truthful or not, unless start and flag stay as they were |
| SessionMessageCache.UnstatedStartIff | apps/agent-console/src/hooks/useSessionConsoleController.ts:107-113 | a response without history_start resolves to its true start if and only if nothing is cached, the cached cursor is the new one, or both reach the beginning |
| SessionMessageCache.GapBreaksWindow | apps/agent-console/src/hooks/useSessionConsoleController.ts:174-220 | an increment leaves a slice if and only if it overlaps or touches what is cached |
| SessionMessageCache.BeforePageNeedsCursor | apps/agent-console/src/hooks/useSessionConsoleController.ts:174-220 | an older page leaves a slice if and only if its next_cursor equals the cached cursor |
| SessionMessageCache.OlderPageKeepsWindowIff | apps/gateway/app/services/session_manager.py:320-339 | loading older messages from the gateway, which sends its message count as next_cursor, leaves a slice if and only if no message arrived since the cached cursor |
| SessionMessageCache.SkippedForGood | apps/agent-console/src/hooks/useSessionConsoleController.ts:233-270 | the messages that arrived before such a page and were not cached are missing for good: after any increments the cache is exactly the transcript without the stretch from the old cursor to the reported count |
| SessionMessageCache.OlderPageSkipsThird | apps/agent-console/src/hooks/useSessionConsoleController.ts:233-270 | an instance with three messages: the older page brings the first and the cursor passes the third, which is not cached |
| PollOwnerLease.PollingTab.ClaimPollingOwnership | apps/agent-console/src/hooks/useSessionWorkspaceEffects.ts:429-443 | a hidden tab never claims; a visible one succeeds unless another tab's record is still valid, and then owns a record valid for 15000 ms |
| PollOwnerLease.PollingTab.ScheduleOwnerHeartbeat | apps/agent-console/src/hooks/useSessionWorkspaceEffects.ts:445-456 | the heartbeat is armed exactly when the claim succeeded |
| PollOwnerLease.PollingTab.CanRunTimerPolling | apps/agent-console/src/hooks/useSessionWorkspaceEffects.ts:458-467 | permission to poll is a successful claim, after which the heartbeat is armed |
| PollOwnerLease.PollingTab.ScheduleHttpPolling | apps/agent-console/src/hooks/useSessionWorkspaceEffects.ts:476-486 | a poll timer is armed only by a live tab that holds the record |
| PollOwnerLease.PollingTab.Cleanup | apps/agent-console/src/hooks/useSessionWorkspaceEffects.ts:642-654 | all timers stop and only the tab's own record is removed |
| PollOwnerLease.PollsAreExclusive | apps/agent-console/src/hooks/useSessionWorkspaceEffects.ts:429-486 | over any number of tabs and interleavings, timer polls of different tabs are at least 15000 ms apart unless the earlier tab released in between |
| PollOwnerLease.ClaimsAreExclusive | apps/agent-console/src/hooks/useSessionWorkspaceEffects.ts:429-443 | the same for successful claims, and every timer poll stands at the instant of a successful claim by its tab |
| PollOwnerLease.CleanupIsOwn | apps/agent-console/src/hooks/useSessionWorkspaceEffects.ts:67-77 | unmounting never removes another tab's record, and an unmounted tab never owns the record |
| PollOwnerLease.OwnerKeepsLease | apps/agent-console/src/hooks/useSessionWorkspaceEffects.ts:433-441 | another tab can take over exactly from the moment the record expires; the owner itself can renew at any time |
| PollOwnerLease.TimelyOwnerStays | apps/agent-console/src/hooks/useSessionWorkspaceEffects.ts:445-456 | in every run a tab whose heartbeat is less than 10000 ms late owns an unexpired record, so it is never displaced |
| PollOwnerLease.VisibleTabClaims | apps/agent-console/src/hooks/useSessionWorkspaceEffects.ts:429-456 | a tab that is mounted visible, becomes visible or beats owns the record for 15000 ms, with the next beat in 5000 ms, if and only if no other tab holds it |
| PollOwnerLease.NextPollArmed | apps/agent-console/src/hooks/useSessionWorkspaceEffects.ts:476-486 | a response or a closed socket arms the next poll of a visible tab, after the given delay, if and only if no other tab holds the record |
| PollOwnerLease.FiredTimerPolls | apps/agent-console/src/hooks/useSessionWorkspaceEffects.ts:480-500 | a poll timer that fires leads to a poll if and only if no other tab holds the record, no request is under way and no socket is ready |
| ChannelAssessment.RunRound | services/claw-node/claw_node/channel_assessment.py:212-325 | the shared counters, updated as probes complete, give the round the lemmas speak of |
| ChannelAssessment.RoundAccounting | services/claw-node/claw_node/channel_assessment.py:212-325 | for every completion order: successes and failures add up to the requests, timeouts are failures, the capacity is twice the concurrency, at most five details are kept, the average lies between 1 and the maximum, and stable means no stop reason, no failure and an average within the growth limit |
| ChannelAssessment.AverageWithin | services/claw-node/claw_node/channel_assessment.py:277-280 | the average lies within any bounds that hold the latencies of the answers |
| ChannelAssessment.AverageIsExact | services/claw-node/claw_node/channel_assessment.py:277-280 | the average of an answered round is the sum of its latencies over their number, rounded down |
| ChannelAssessment.VerdictOf | services/claw-node/claw_node/channel_assessment.py:283-303 | stability and each stop reason by its exact condition on the probes; the reason for an average above 20000 ms is never given |
| ChannelAssessment.SlowAndFast | services/claw-node/claw_node/channel_assessment.py:283-303 | a round whose answers all took more than 6000 ms is unstable, one whose answers all took at most 5000 ms is stable, whatever the baseline |
| ChannelAssessment.MaximumIsSlowest | services/claw-node/claw_node/channel_assessment.py:279-280 | the reported maximum is the slowest answer, at least 1 ms, and 0 without an answer |
| ChannelAssessment.DetailsAreFirst | services/claw-node/claw_node/channel_assessment.py:225-227 | the kept failure details are the first five in order of completion |
| ChannelAssessment.GrowthLimitExact | services/claw-node/claw_node/channel_assessment.py:352-358 | the growth limit is 3.5 times the baseline rounded down, kept within 5000..6000 ms, and 6000 without one |
| ChannelAssessment.StableInSearch | services/claw-node/claw_node/channel_assessment.py:77-118 | a round of the search is stable if and only if all its probes answered within 6000 ms on average and, behind the first round, within 5000 ms or 3.5 times the first average |
| ChannelAssessment.OrderIrrelevant | services/claw-node/claw_node/channel_assessment.py:229-277 | the same probes completing in another order give the same round apart from the kept failure details |
| ChannelAssessment.GrowthLimitRange | services/claw-node/claw_node/channel_assessment.py:352-358 | the growth limit lies in 5000..6000 ms, with or without a baseline |
| ChannelAssessment.ResolveRoundSteps | services/claw-node/claw_node/channel_assessment.py:339-349 | exactly clamp(max_rounds, 1, 999) steps: the table, then eight more each |
| ChannelAssessment.StepsIncrease | services/claw-node/claw_node/channel_assessment.py:339-349 | the steps are positive and strictly increasing |
| ChannelAssessment.StepSizes | services/claw-node/claw_node/channel_assessment.py:339-349 | the search starts with one probe and rises by one up to 6, by two up to 20, by four up to 40 and by eight from there |
| ChannelAssessment.StepsFitRanges | services/claw-node/claw_node/config.py:48-69 | all steps fit max_concurrency up to 128 and channel_capacity up to 512 if and only if max_rounds is at most 29 |
| ChannelAssessment.RunChannelAssessment | services/claw-node/claw_node/channel_assessment.py:77-204 | rounds follow the steps, every round but possibly the last is stable, an early stop means the last is not, and both recommendations are functions of the rounds |
| ChannelAssessment.ChoicesAreBest | services/claw-node/claw_node/channel_assessment.py:361-372 | the recommendation is the largest stable concurrency tried; the balanced choice is the largest stable one averaging at most 5000 ms, or the smallest stable one if there is none |
| ChannelAssessment.RecommendationFits | services/claw-node/claw_node/config.py:48-69 | up to 29 rounds every round tried fits the configured ranges |
| ChannelAssessment.FastNodeRecommendation | services/claw-node/claw_node/channel_assessment.py:77-204 | on a node that always answers at once all steps are tried, the last is recommended, and it fits the ranges if and only if max_rounds is at most 29 |
| DiagnosticsWindow.NodeDiagnostics.constructor | services/claw-node/claw_node/diagnostics.py:417-452 | a start loads the window and flushes it to the snapshot |
| DiagnosticsWindow.NodeDiagnostics.RecordEvent | services/claw-node/claw_node/diagnostics.py:277-308 | an event enters the bounded window, the log and the snapshot |
| DiagnosticsWindow.LoadRecentEvents | services/claw-node/claw_node/diagnostics.py:417-452 | the last 200 valid log entries, or else the valid ones among the last 200 of the snapshot |
| DiagnosticsWindow.WindowSurvives | services/claw-node/claw_node/diagnostics.py:277-308 | from a log with a valid entry, or nothing valid anywhere, after any events and restarts: memory, last 200 valid log entries and snapshot are the same window, and a restart from either file restores it |
| DiagnosticsWindow.RestartRestoresIff | services/claw-node/claw_node/diagnostics.py:417-422 | for every pair of files: a restart after some events keeps the window if and only if the start was such a one, nothing was recorded, or at least 200 events were |
| DiagnosticsWindow.SnapshotOnlyIsLost | services/claw-node/claw_node/diagnostics.py:417-422 | an instance: with only a snapshot left, one recorded event makes the next restart forget the snapshot's event |
| ResponseCache.CacheSlot.Check | apps/desktop-launcher/launcher/app.py:92-95 | a value is served only while present and unexpired |
| ResponseCache.CacheSlot.Store | apps/desktop-launcher/launcher/app.py:103-105 | the built value is stored with an expiry the TTL after the build ended |
| ResponseCache.CacheSlot.Invalidate | apps/desktop-launcher/launcher/app.py:108-112 | the value and its expiry are gone, whoever holds the lock |
| ResponseCache.CacheIsCoherent | apps/desktop-launcher/launcher/app.py:84-112 | in every interleaving builds never overlap, and a served value is the latest built, completed less than the TTL before, with no invalidation since |
| ResponseCache.FreshIsServed | apps/desktop-launcher/launcher/app.py:84-106 | in every interleaving a reader that arrives or gets the lock is served a build completed less than the TTL ago and not invalidated, and only without one does it wait or build |
| ResponseCache.ServedBuildStartedAfter | apps/desktop-launcher/launcher/app.py:84-112 | a value served after an invalidation was completed after it, and its build also started after it if and only if none was in flight at the invalidation or another build ended in between |
| ResponseCache.StaleBuildServed | apps/desktop-launcher/launcher/app.py:102-105 | the failing side is reachable: a build begun before an invalidation stores its value after it, and the next reader gets that value |
| SessionThreads.BuildSessionThreadGroups | apps/agent-console/src/selectors/consoleSelectors.ts:85-108 | the map filled in a loop gives the groups the lemmas speak of |
| SessionThreads.GroupedMembers | apps/agent-console/src/selectors/consoleSelectors.ts:86-90 | a key maps to all sessions of its thread in input order, and is absent if there is none |
| SessionThreads.EachSessionInOneGroup | apps/agent-console/src/selectors/consoleSelectors.ts:85-108 | every session is in exactly one group |
| SessionThreads.GroupKeysDistinct | apps/agent-console/src/selectors/consoleSelectors.ts:85-108 | no two groups share a key |
| SessionThreads.GroupsOrdered | apps/agent-console/src/selectors/consoleSelectors.ts:74-108 | each group is a chronological permutation of its thread whose latest session has the maximal last-message time; groups come in descending order of it |
| SessionThreads.SessionsInOrder | apps/agent-console/src/selectors/consoleSelectors.ts:74-83 | in a group sessions stand by creation, or by last message without one, those created together by id |
| SessionThreads.GroupsInOrder | apps/agent-console/src/selectors/consoleSelectors.ts:107 | groups stand by last message, the latest first |
| SessionThreads.LatestIsFirstOfTies | apps/agent-console/src/selectors/consoleSelectors.ts:94 | the latest session is, of those with the maximal last message, the first in the group |
| SessionThreads.GroupTotalsAddUp | apps/agent-console/src/selectors/consoleSelectors.ts:102 | the totals add up to the plain sum of the message counts, negative ones left out |
| SessionThreads.MessageCountConserved | apps/agent-console/src/selectors/consoleSelectors.ts:102 | the groups' totals add up to the messages of all sessions |
| SessionThreads.SelectionIsUnique | apps/agent-console/src/selectors/consoleSelectors.ts:123-126 | with distinct ids, selecting a session returns the one group that holds it |
| StableSort.SortStable | apps/agent-console/src/selectors/consoleSelectors.ts:74-83 | elements that compare equal keep their order |

## Left out

- HTTP, WebSocket, Redis, UDP and file-system mechanics: they appear as steps that succeed or fail.
- Text decoding: a byte-order mark, invalid bytes and platform newline translation.
- JSON, ISO timestamps and validation: an undecodable line is `Junk`, everything else is injective.
- The diagnostics queue's filter for events that are not dictionaries: every producer in the worker
  enqueues a dictionary, so the filter never drops one.
- The diagnostics snapshot sent beside the events, and the other fields of the snapshot file.
- A directory or file write that fails in the diagnostics module: files change only at quiescent points.
- Recovery of leases from the gateway while the collector is between snapshot and re-check: the model
  lets it happen only while the collector is idle.
- The worker's shutdown flag, which the task-stream loop also tests by itself between two awaits.
- The order in which the semaphore serves its waiters: any waiting dispatcher may be woken.
- What registration exchanges with the gateway and its retries: only whether it succeeds decides the
  reply to a pairing. The refresh of diagnostics settings after a write is assumed to succeed.
- The wait of a pairing request for the old loops to stop, and requests that overlap in it.
- An env-file write that fails half-way: a failed write leaves the file as it was.
- The pull loop, task handling, cancellation of single tasks and result submission.
- Connect and retry delays, polling delays and backoff: any delay is allowed.
- Storage failures in the polling lease: without storage each tab polls alone.
- The console's `session` and `lastLoadedAt` cache fields, scroll restoration, notices and sockets.
- Thread keys (normalization of user ids) and the collation of session ids: supplied by the caller,
  the latter as a rank. Display fields of a group and the derived thread counts.
- Sessions with unparsable dates: a comparator that is no preorder has no defined sort result.
- The wording of probe failures and its cut to 240 characters: a probe carries its detail text.
- Float rounding in the assessment: latencies are whole milliseconds and averages exact quotients;
  success rate, risk level, localized summaries and progress callbacks.
- The launcher's deep copies of served cache values: a value stands for the build that produced it.
- `str` of floating-point model settings: the request carries their text.
- Windows services, process control and port probing, launcher roles, model clients, the gateway's
  scheduler and routes.
