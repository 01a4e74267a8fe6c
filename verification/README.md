# Election stream monitor: a verified model of the live monitoring core

This Dafny project models how the local monitoring runtime ingests a live HLS stream, turns it into
slices, runs analyzers over them, raises alerts with hysteresis, settles the session, and groups the
alerts afterwards. It proves what those parts promise over every run, for every answer the server,
the disk, the clock and other processes may give.

`dafny verify dfyconfig.toml` checks the whole project.

## How it is organised

| module | what it models |
|---|---|
| `StreamContracts`, `Decimal`, `Rounding`, `Prelude` | segments, slices, identity keys, number text and rounding |
| `HlsPlaylist`, `PlaylistDocuments` | parsing media and master playlists, line by line; playlists as documents that are written and read back |
| `HlsPolicy` | the pending queue, the queued and emitted key sets, the offset map, pruning and gaps |
| `LoaderMachine` | one iteration of the live loader as a function of its state and of everything the world may answer |
| `HlsLoader` | the loader as a class: cancel throttle, fetches with retries, playlist resolution, temp files, `next_slice`, connect and close |
| `CancelCache` | the throttled view of cancel intent as a function over a history of checks |
| `DedupLog`, `FacadeMachine`, `StreamFacade` | the write-ahead de-duplication log with appends that may be cut, and the generator with its failure budgets and sequence validation; first as functions over runs, then as a class |
| `IngestSystem`, `IngestTermination`, `ExactlyOnce`, `IngestDelivery`, `IngestOutcomes` | loader and facade together with a history of merges, attempts, gaps and yields, and the theorems about whole runs and successive ones: that they end, how, what they deliver, and where its slices stand |
| `SessionModels`, `SessionProgress`, `SessionStorage`, `TempStorage` | statuses, snapshots, the durable store and the temp directory |
| `SessionOutcomes`, `SessionRunner` | how a session ends as a function of what the world answered, and one session from its first pending write to its terminal one, for local files and live streams |
| `BlackRule`, `BlackMilliseconds`, `BlackVerdicts`, `BlurRule`, `BlurVerdicts`, `RuleState` | the alert rules, their rolling windows, their verdicts read off the rows alone, and the keyed rule state updated in place |
| `Statistics`, `BlurSummary` | medians and the blur detector's verdict |
| `RateLimit`, `RoutePolicy` | the fixed-window limiter and the two budgets of session start and cancellation |
| `SessionAlerts`, `Incidents` | raw alert summaries and incident grouping |

Each class method is proved against a function of the old state, so that the theorems about the
functions hold of the methods: `Loader.NextSlice` is a pull of `LoaderMachine`, `SliceStream.Next` a run
of `IngestSystem`, `RuleStateStore` steps by `RuleState.Apply`, the limiter by `RateLimit.Serve`.
Histories (what was ever queued, yielded, reported or written) are ghost state only.

## Where the code, its documentation and natural expectations part

- **Two clock readings per start.** Each limiter check reads the clock for itself, so a start reads it
  twice. With one reading per request at most eleven starts can be charged to one control window, and
  starts alone never refuse a cancellation. With two, a start that opens its guard window at an earlier reading
  than the one that opens the control window lets twelve starts in, and the first cancellation is
  refused. `ReserveIff` says exactly when; `TwoReadingsExhaustControl` gives the schedule.
- **Half of the control budget is not reserved.** `docs/fastapi-boundary.md` line 297 promises at least
  half of the twelve requests for cancellation. `HalfIsNotReserved` charges eleven to starts, with one
  reading per request; only one is left. `HalfReserveIff` says exactly when half stays: the call that
  opens the control window is a start whose two readings are both where its guard window begins, or a
  cancellation that finds no guard window, an expired one, one that begins now, or an exhausted one.
- **An unreadable de-duplication log is taken for an empty one** (`src/session_io.py` lines 142-154), so
  no-replay across restarts holds exactly when the log can be read or is empty
  (`ReplayFreeIffLogReadable`).
- **An append cut in the middle loses the next key too**: the next line is glued to it and cannot be
  read. A run can read back whatever it yields exactly when no append before it was cut
  (`NeverForgetsIffNoTail`).
- **Keys of earlier runs count as accepted slices**, so a completed live session whose log held keys
  and that processed a slice cannot write its completed snapshot: the metadata says completed and the
  write of the progress is rejected. `RunApiStreamSession` states this as an if-and-only-if.
- **A finalizer that stores its status and then fails to write its snapshot**, with an error the handler
  takes, is followed inside the handler by a second one that stores `failed` after a terminal status. The
  statuses leave the transition table exactly in that case (`LawfulStatuses`);
  `SecondFinalizationLeavesTable` gives it.
- **A session may stay `pending` or `running` for good.** The runs record what the world answered: the
  writes before the loop, the input, connect, every look for cancel intent, the end of the stream, and for
  each slice the analyzers' reply and what its writes were answered. `Broke` computes from the answers
  alone the error that broke the session off, and `Handled` whether a handler was in charge of it: not in
  the writes and checks before the loop nor in the last look after it, and nowhere for an error that is
  neither an `OSError` nor a `ValueError`, such as cancel intent seen while connecting, which surfaces as
  a runtime error, or an unexpected error of the stream, a look, an analyzer or a store. The session is
  left without a terminal status exactly if it broke off with an error nothing handles, or the flush or
  the status write of every finalizer called failed (`LeftOpenIff`). A connection reset while a body is
  read is an `OSError` and settles the session as failed; a chunked body cut short is not, and the session
  stays `running` (`EscapeLeavesOpen`).
- **One slice may be analyzed with intent durable.** Another process may store intent between the look
  before a slice and its analysis. `LooksHeeded` says that no more than the last analysis can begin so.

- **Two frames may be blurry a little below the threshold.** A window of two frames counts by their mean,
  rounded to six decimals, so a sum that misses twice the threshold by a millionth still reaches it
  (`BlurryWindow`); windows of an odd size count by the majority of their frames alone.

## Model

| member | source | states |
|---|---|---|
| HlsPolicy.EnqueueKeepsInvariant | src/stream_loader_http_hls_policy.py:58-87 | queueing a segment keeps the queue invariant: pending keys distinct, the queued set exactly theirs and disjoint from the emitted one, the offset map keyed by them, spans tiling the stream clock |
| HlsPolicy.FinalizeKeepsInvariant | src/stream_loader_http_hls_policy.py:90-104 | taking the head off keeps the queue invariant, the tiling included |
| HlsPolicy.PruneKeepsInvariant | src/stream_loader_http_hls_policy.py:32-42 | forgetting emitted keys older than the window keeps the queue invariant |
| HlsPolicy.EnqueueAllKeepsInvariant | src/stream_loader_http_hls_policy.py:58-87 | a whole playlist keeps the queue invariant, duplicates inside it included |
| HlsPolicy.EnqueueAllAppends | src/stream_loader_http_hls_policy.py:58-87 | a playlist appends exactly its unseen entries, in order, and touches nothing emitted |
| HlsPolicy.WindowAdvanceGap | src/stream_loader_http_hls_policy.py:45-55 | a gap is reported exactly when some number lies between the highest seen and the first visible, and counts those numbers |
| HlsPolicy.SegmentQueue.QueueUnseenSegments | src/stream_loader_http_hls_policy.py:58-87 | the loop over a playlist leaves the queue the fold over its entries gives, and counts new and replayed ones |
| HlsPolicy.SegmentQueue.FinalizePending | src/stream_loader_http_hls_policy.py:90-104 | removing the head in place changes list, sets and map as one finalization |
| HlsPolicy.SegmentQueue.PruneEmittedKeys | src/stream_loader_http_hls_policy.py:32-42 | only emitted keys below the window's first sequence number go |
| HlsPlaylist.ParseMediaPlaylist | src/stream_loader_http_hls_playlist.py:47-108 | the parsing loop computes the meaning of the document as a fold over its tags, and fails exactly when a value cannot be read |
| HlsPlaylist.ParseMasterVariants | src/stream_loader_http_hls_playlist.py:29-44 | the variant loop collects the URI after each stream-info tag, in order |
| HlsPlaylist.SelectsFirstUsable | src/stream_loader_contracts.py:394-401 | the variant followed is the first that is not blank |
| HlsPlaylist.SelectsNothingIff | src/stream_loader_contracts.py:394-401 | no variant is followed exactly when all of them are blank |
| PlaylistDocuments.MasterRoundTrip | src/stream_loader_http_hls_playlist.py:29-44 | the variants of a master playlist's text are exactly the addresses its stream-info lines announce, in order, whatever blank lines, comments and stray addresses stand around them |
| PlaylistDocuments.MediaRoundTrip | src/stream_loader_http_hls_playlist.py:47-108 | printing a playlist with the tags of RFC 8216 sections 4.3.1.1, 4.3.2.1, 4.3.3.1, 4.3.3.2 and 4.3.3.4, durations with any number of decimals and any titles, and parsing it gives back the same consecutively numbered segments, target duration and end flag |
| PlaylistDocuments.MeaninglessLinesAreIgnored | src/stream_loader_http_hls_playlist.py:61-102 | inserting a blank or unrecognised line anywhere changes nothing, unless it brings in the header the text lacks |
| PlaylistDocuments.ReadExtinf | src/stream_loader_http_hls_playlist.py:80-86 | a duration line means the number before its comma, whatever the number's text and the title after it |
| PlaylistDocuments.KindFollowsLines | src/stream_loader_http_hls_playlist.py:19-26 | a text is a master playlist exactly if some line has the header and some a stream-info tag, and a media playlist exactly if none has that and some has a duration or target tag |
| PlaylistDocuments.WrittenIsMedia | src/stream_loader_http_hls_playlist.py:19-26 | a written media playlist with a segment or a target is taken for one unless a line of it names a stream |
| Decimal.ReadDecimal | src/stream_loader_http_hls_playlist.py:73-86 | a decimal with any number of digits after the point, or none, is read back as all its digits over the power of ten |
| LoaderMachine.PollInterval | src/stream_loader_http_hls_playlist.py:115-125 | the poll interval is never negative, exceeds neither the configured one nor the target duration of at least a tenth of a second, and is shorter than the configured one only to equal the latter |
| IngestSystem.StepIsOneOf | src/stream_loader_http_hls.py:219-280 | an iteration merges one playlist, takes one head off the queue with one fate, or leaves queue and history alone |
| IngestSystem.RunKeepsAccount | src/stream_loader_http_hls.py:219-336 | for every server, after any run, the queue invariant holds and what was ever queued is what was attempted, in order, followed by what is pending |
| IngestSystem.SeenCountsYields | src/stream_loader.py:193-209 | the set of seen keys grows by exactly one per yielded slice |
| IngestTermination.StepSpends | src/stream_loader_http_hls.py:219-280 | every iteration that does not end the run spends a retry, a refresh or a pending segment, lexicographically |
| IngestTermination.EveryScriptEnds | src/stream_loader.py:99-193 | for every infinite sequence of answers the loop ends, without help from the runtime limit |
| IngestTermination.RunLength | src/stream_loader_http_hls.py:406-423 | a running loop has spent its iterations exactly on attempts, further refreshes and malformed refreshes, which bounds them by the budgets and the segments ever queued |
| IngestTermination.WholeRunLength | src/stream_loader.py:99-193 | a whole run, its last iteration included, has no more iterations than segments ever queued, further refreshes and retries allow |
| IngestTermination.EndlistOnlyDrains | src/stream_loader_http_hls.py:255-280 | after a refresh with ENDLIST no snapshot is merged any more and the queue only shrinks |
| IngestTermination.StopsAreEarned | src/stream_loader_http_hls.py:255-276 | an idle stop comes only after the budgeted number of merges in a row without a new segment, an end-of-list stop only with ENDLIST seen and nothing pending |
| ExactlyOnce.MergeQueuesSuffix | src/stream_loader_http_hls.py:282-336 | against a compliant server a merge queues exactly the part of the window beyond the highest sequence number seen |
| ExactlyOnce.MergeRemembers | src/stream_loader_http_hls_policy.py:32-42 | pruning never forgets a key the current window can still show |
| ExactlyOnce.ExactlyOnceInOrder | src/stream_loader_http_hls.py:282-336 | against a compliant server and an empty log every visible segment is queued exactly once and in order, each attempt is yielded once or lost to one temporary failure, and every number up to the highest seen is queued or lies in exactly one reported gap |
| ExactlyOnce.DrainedRunDeliversAll | src/stream_loader.py:165-209 | a run that drains its queue has attempted every visible segment and yielded all but the lost ones, in sequence order |
| ExactlyOnce.HeadIsAccepted | src/stream_loader.py:165-193 | the slice of the head is never judged out of order or a replay by the facade |
| FacadeMachine.YieldsAreOrdered | src/stream_loader_contracts.py:370-384 | within one run indexes strictly increase and the source group never changes, for any loader |
| FacadeMachine.RunIsFresh | src/stream_loader.py:179-193 | a run yields no key it had seen and none twice, for any loader |
| FacadeMachine.RunIsLogged | src/stream_loader.py:206-209 | on a log whose last append was not cut every key stays readable and every yielded key becomes so |
| FacadeMachine.AtMostOnce | src/stream_loader.py:165-209 | over any number of successive runs, each cut off anywhere, no identity key is yielded twice, as long as every run can read the log and no append before it was cut |
| DedupLog.AppendKeepsKeysIff | src/session_io.py:274-278 | an append keeps every key readable, its own included, exactly when the log does not end in a cut one |
| FacadeMachine.NeverForgetsIffNoTail | src/session_io.py:274-278 | a run can read back whatever it yields exactly when the log it was opened on does not end in a cut append |
| IngestDelivery.RunYields | src/stream_loader.py:97-209 | a run of loader and facade yields what the facade yields of what the loader offers, and leaves the log it leaves |
| IngestDelivery.DeliveredAtMostOnce | src/stream_loader.py:61-211 | over any number of successive connections of a session, whatever server, disk and clock answer and wherever each is cut off, no identity key is yielded twice, under the same two conditions |
| IngestDelivery.SessionLeaves | src/stream_loader.py:61-211 | the log a run of a connected session ends with, and what it yielded, are those its connection determines from the log it found |
| IngestDelivery.SessionsDeliverAtMostOnce | src/stream_loader.py:61-211 | over any number of successive sessions on one log, connected or not, no identity key is yielded twice or although the log held it, as long as each that connects can read the log and finds it without a cut append |
| IngestOutcomes.RunEndsAsMet | src/stream_loader.py:97-209 | the next iteration of any run fails it exactly for a terminal failure or one malformed refresh more than the budget has, breaks it off exactly for an error or an append that failed, stops it exactly for intent, ENDLIST or idleness, all told from the history and the answers alone, and yields exactly the slice it meets if that is accepted and its key written |
| IngestOutcomes.LossGoesOn | src/stream_loader.py:102-116 | a temporary failure of a segment never ends a run: the next segment queued takes its place |
| IngestOutcomes.SlicesStand | src/stream_loader_http_hls.py:352-372 | over any run each yielded slice is that of one segment, in the order they were queued; it carries its number, file and source, starts where all segments queued before it end on a clock that begins at zero, and lasts as long as the segment, at least a tenth of a second, both rounded to milliseconds |
| IngestOutcomes.MergeLeaves | src/stream_loader_http_hls.py:282-336 | a merge forgets exactly the emitted keys that lie before the whole window, remembers the highest number ever seen, takes over the end flag, and waits as configured or for a shorter target duration |
| IngestOutcomes.EntriesAreCounted | src/stream_loader_http_hls_policy.py:58-87 | over any run every entry of every merged playlist was queued or counted as a skipped replay |
| FacadeMachine.ReplayFreeIffLogReadable | src/session_io.py:142-154 | a run opened on a log never replays it exactly when the log was readable or empty |
| CancelCache.AnswersAgreeWithStore | src/stream_loader_http_hls.py:596-612 | with monotone intent a positive answer is never wrong and a forced check is exact |
| CancelCache.IntentSurfacesSoon | src/stream_loader_http_hls.py:596-612 | once intent is durable at most eight checks deny it, and after the first that admits it none does |
| CancelCache.ReadsAreRare | src/stream_loader_http_hls.py:596-612 | two unforced checks whose answers depend on the store are nine checks apart |
| HlsLoader.ClassifyFault | src/stream_loader_http_hls_fetch.py:66-87 | a caught fetch failure is terminal exactly for an HTTP status outside the six retryable ones, and retryable otherwise |
| HlsLoader.Loader.IsCancelRequested | src/stream_loader_http_hls.py:596-612 | the throttled check answers and updates its cache as the cache function does of what the store held when it was read; a read that fails escapes and leaves the cache alone |
| HlsLoader.Loader.StopIfCancelRequested | src/stream_loader_http_hls.py:579-594 | a positive check records explicit cancellation as the stop reason and nothing else does, a failing read included |
| HlsLoader.Loader.ReadResponse | src/stream_loader_http_hls_fetch.py:42-63 | a body is all the chunks read, in order, and never exceeds the byte budget; once intent is durable at most nine further chunks are read, one of them between a check and the read it let pass, and any error, an escaping one included, may end it |
| HlsLoader.Loader.FetchUrlBytes | src/stream_loader_http_hls.py:538-564 | a fetch asks for the given address at most once, not at all if intent was durable before it, its payload is the body read, within the budget, and an error of another kind than the three caught ones escapes |
| HlsLoader.Loader.FetchPlaylistText | src/stream_loader_http_hls.py:374-404 | a playlist fetch asks for its address once for each failure and once more for the text; every failure before the last was retryable or a 404, and it fails with the last one exactly when that is neither, or one too many |
| HlsLoader.Loader.ResolveMediaPlaylist | src/stream_loader_http_hls.py:425-461 | the first address asked is the one given, each text before the last is a master playlist whose first usable variant is asked next, and the last text decides: a media playlist is the result, the fourth master exceeds the nesting, anything else fails; at most (3+1)*(max_reconnect_attempts+1) requests |
| HlsLoader.Loader.NextHop | src/stream_loader_http_hls.py:437-461 | a text resolves exactly when it is a media playlist, a master leads within the depth to the first usable variant of its meaning and beyond it or without one to its failure, anything else fails, retryably only where that is allowed |
| HlsLoader.Loader.SelectMasterVariant | src/stream_loader_http_hls.py:481-505 | the variant followed is the first usable one of those the parser's meaning gives |
| HlsLoader.Loader.RefreshFromText | src/stream_loader_http_hls.py:282-350 | a text is merged as one refresh of its meaning under the address it came from; one that cannot be parsed changes nothing |
| HlsLoader.Loader.MergeSnapshot | src/stream_loader_http_hls.py:290-336 | prune, queue, count, note the highest sequence and the idle polls: the new state is one refresh of the old |
| HlsLoader.Loader.MaterializeHead | src/stream_loader_http_hls.py:352-372 | an attempt asks for the head's address and meets exactly one reply, an escaping error included; only a produced slice leaves one more file, of the size of the body read, within the fetch budget |
| HlsLoader.Loader.AttemptHead | src/stream_loader_http_hls.py:232-253 | the head leaves the queue after a slice or a temporary failure and stays after anything else |
| HlsLoader.Loader.PollPlaylist | src/stream_loader_http_hls.py:406-423 | one poll is one poll of the machine, refresh limit and malformed refresh included; its requests follow the variants from the current playlist's address, what it merges is the meaning of the last text, and that text's address becomes the current one exactly then |
| HlsLoader.Loader.Turn | src/stream_loader_http_hls.py:219-280 | one turn of the loop is one iteration of the machine under some environment, with the stop reason recorded; with segments pending it asks for the head's address at most, otherwise as a poll does |
| HlsLoader.Loader.NextSlice | src/stream_loader_http_hls.py:219-280 | a call ends and is one pull of the machine, with at most one poll's requests for each iteration; if intent was durable before it, it produces nothing and requests nothing |
| HlsLoader.Loader.Connect | src/stream_loader_http_hls.py:147-177 | a connection starts from an empty state with the keys of the log and merges the meaning of the text the source leads to, within one poll's requests; intent seen here ends in a bare stop signal |
| HlsLoader.Loader.Close | src/stream_loader_http_hls.py:184-191 | closing forgets the run but its telemetry, stop reason included, survives |
| HlsLoader.Loader.PersistIdentityKey | src/stream_loader_http_hls.py:196-200 | a key reaches the log before the set, and not twice; an append that fails, cut or not, adds no key to the set |
| StreamContracts.BuildSlice | src/stream_loader_contracts.py:345-367 | a segment gives a slice exactly when its sequence number is not negative, at the path its bytes were written to |
| StreamContracts.SliceOfSegment | src/stream_loader_http_hls.py:364-372 | the slice is named after the segment's file and stands and lasts as the segment does on the stream clock, to half a millisecond, and never less than a tenth of a second |
| TempStorage.TempDirectory.CountBytes | src/stream_loader_http_hls_materialize.py:33-35 | the count is the sum over all files, whatever their order |
| TempStorage.TempDirectory.Write | src/stream_loader_http_hls_materialize.py:17-30 | a write replaces the file of that name or, on an error, leaves neither the old nor the new one |
| StreamFacade.PullRuns | src/stream_loader.py:99-209 | a pull of the loader followed by the facade's reaction is a run of the system, and one that goes on leaves less work |
| StreamFacade.WholeRunRequests | src/stream_loader_http_hls.py:406-423 | the requests of a connection, one poll's to connect and one poll's for each iteration, are bounded by the budgets and the segments ever queued |
| StreamFacade.SliceStream.Open | src/stream_loader.py:73-96 | opening connects and takes over the persisted keys; a stop signal out of connect is a runtime error, and only with intent durable |
| StreamFacade.SliceStream.Digest | src/stream_loader.py:102-209 | the reaction to one outcome is the facade's function of it, which `IngestOutcomes.RunEndsAsMet` characterises, and a rejected slice's file is deleted |
| StreamFacade.SliceStream.PullOnce | src/stream_loader_http_hls.py:566-572 | out of a clean directory a pull leaves at most the produced slice's file, and never meets a full temp storage when the fetch limit fits it |
| StreamFacade.SliceStream.Next | src/stream_loader.py:97-211 | an advance is a run of the system from where the last one stopped; it ends, closes on every end, keeps the stop reason, leaves the log of the run in the store, makes at most one poll's requests for each iteration, and if intent was durable before it yields and requests nothing |
| SessionProgress.UpdateValidity | src/session_runner_progress.py:21-41 | a status change keeps a valid snapshot valid exactly when the new status allows its counts |
| SessionProgress.StopReasonReachesProgress | src/session_runner_progress.py:154-178 | different stop reasons of the loader give different completed snapshots |
| SessionStorage.Storage.ReadSeenKeys | src/session_io.py:142-179 | the loop over the log lines collects the keys of exactly the readable lines, a last line without its end included |
| SessionStorage.Storage.AppendSeenKey | src/session_io.py:182-195 | an append is done, refused or cut in the middle, and a line after a cut one is glued to it |
| SessionStorage.Storage.WriteProgress | src/session_models.py:124-153 | exactly the snapshots that break an invariant are rejected, and a stored one replaces the last |
| SessionOutcomes.PathGrows | src/session_models.py:29-36 | a path of statuses extends exactly along an allowed transition |
| SessionRunner.SessionRun.InitializePending | src/session_runner_lifecycle.py:58-77 | a session starts with pending metadata and a snapshot without counts, in that order |
| SessionRunner.SessionRun.PersistIfChanged | src/session_runner_progress.py:44-59 | a snapshot is written exactly when it says something new |
| SessionRunner.SessionRun.StartRunning | src/session_runner_lifecycle.py:80-109 | promotion writes a fresh snapshot with its total, then the status, then a running snapshot, and follows the table whatever fails |
| SessionOutcomes.EndValidity | src/session_runner_terminal.py:118-134 | the terminal snapshot of a valid one is valid exactly if the status allows the counts it ends with |
| SessionOutcomes.SecondFinalizationLeavesTable | src/session_runner_execution.py:143-199 | a cancellation whose snapshot cannot be written is finalized again as failed, and the statuses leave the table, for every running snapshot |
| SessionOutcomes.UnevenSnapshotIsRefused | src/session_models.py:124-153 | a valid running snapshot with one of two slices processed cannot be completed, though all stores work |
| SessionOutcomes.FinalizedIff | src/session_runner_terminal.py:98-146 | the first finalization of a running session holds exactly if flush, status write and snapshot write all work and the snapshot is valid |
| SessionOutcomes.UncaughtIff | src/session_runner_execution.py:286-304 | a run ends uncaught exactly if the error the answers break it off with is one that no handler is in charge of, and then with that error |
| SessionOutcomes.UncaughtInAnalyzerIff | src/session_runner_execution.py:256-279 | out of an analyzer it ends uncaught exactly if the last reply was an error nothing handles and nothing broke the session off earlier |
| SessionOutcomes.LeftOpenIff | src/session_runner_terminal.py:98-146 | a session is left without a terminal status exactly if it broke off with such an error, or the flush or the status write of every finalizer called failed |
| SessionOutcomes.EscapeLeavesOpen | src/stream_loader_http_hls_fetch.py:66-87 | a body cut short in an unexpected way on the first attempt at a head leaves the session open, one reset does not, whatever the playlist, the log and the time |
| SessionOutcomes.StoreErrorLeavesOpen | src/session_runner_execution.py:94-108 | so does an append out of which an unexpected error comes, after anything |
| SessionOutcomes.HandlerKeepsLaw | src/session_runner_execution.py:286-304 | the handler's finalizer leaves lawful statuses: outside the table exactly if both finalizers stored one, and none terminal exactly if every flush or status write failed |
| SessionOutcomes.RowsGrow | src/session_runner_execution.py:94-108 | appending some of a slice's results and, after all of them, some of its alerts keeps the logs the rows of the analyzed slices in order, up to the last |
| SessionRunner.SessionRun.Finalize | src/session_runner_terminal.py:98-146 | the finalizer ends as the function of the stores' answers says: flush, then the status if the table allows it, then the snapshot if it is valid and says something new; each answer is recorded |
| SessionRunner.SessionRun.Fail | src/session_runner_execution.py:286-304 | the handler stores failed and raises the error again; it breaks the path exactly when a terminal status was stored before |
| SessionRunner.SessionRun.SettleOrFail | src/session_runner_execution.py:143-199 | settling inside the handler settles as the looks for intent say, exactly if all stores work for its finalizer; if that raises it is followed by one that stores failed |
| SessionRunner.SessionRun.PersistBundle | src/session_runner_execution.py:94-108 | the rows of a slice are stored in order, results before alerts, up to the first failure |
| SessionRunner.SessionRun.ProcessSlice | src/session_runner_execution.py:256-279 | a slice is reported only after all its rows are stored, with counts equal to what is durable; what comes out of it is the analyzers' error or that of the first failing write, and the logs hold the rows of the analyzed slices in order, up to that write |
| SessionRunner.SessionRun.ProcessDiscovered | src/session_runner_execution.py:124-199 | a local run completes exactly if nothing broke it off, no look saw intent and all stores worked for its finalizer, and is cancelled exactly if a look saw intent and they did; a completed one analyzed every slice in order and the logs hold exactly their rows; no slice is analyzed whose look saw intent, and none at all if intent was durable before |
| SessionRunner.SessionRun.RecordCleanup | src/session_runner_terminal.py:46-70 | a processed slice's file is deleted and the outcome counted, whatever became of the slice |
| SessionRunner.SessionRun.HandleSlice | src/session_runner_execution.py:237-285 | a yielded slice is cancelled or processed, and its file goes unless the look itself failed; intent durable before it keeps the slice from the analyzers |
| SessionRunner.SessionRun.ConsumeStream | src/session_runner_execution.py:233-285 | the loop over the stream ends and is one run of the ingest system, whose log is the store's; the slices analyzed are the first of those yielded, and all of them when it drains; no look that saw intent was ignored, and at most the last analysis began with intent durable |
| SessionRunner.SessionRun.ConcludeStream | src/session_runner_execution.py:286-339 | after the loop: expected errors fail the session and unexpected ones leave it, a last look that fails leaves it, intent cancels it, and otherwise it completes, exactly if all stores work and the counts agree |
| SessionRunner.SessionRun.RunApiStreamSession | src/session_runner_execution.py:202-339 | the session completes exactly if nothing broke it off, no look saw intent, all stores worked for its finalizer, and no slice was processed or no earlier keys were read; it is cancelled exactly if a look saw intent and the stores worked; completed means every accepted slice was analyzed, the logs hold exactly their rows and processed equals total; the end is uncaught exactly if the answers contain an error nothing handles; the log left is that of the connection's run and the requests are bounded by its iterations |
| SessionRunner.SessionRun.RunLocalSession | src/session_runner.py:66-128 | whatever fails, every snapshot written was accurate, the statuses are lawful, each finalizer was asked for the status the answers make it, the rows stored are those of the analyzed slices in order, up to the last, and the session completes, is cancelled, fails or ends uncaught exactly as the answers say; it lacks a terminal status exactly if it is uncaught or every finalizer's flush or status write failed; intent known at the start keeps every slice from the analyzers, later intent all but one; as long as deletions succeed there was never more than one temp file and none is left behind |
| BlackRule.TrimDropsSeconds | src/alert_rules.py:915-927 | trimming drops no more black seconds than seconds, adds none, and stops at the window length up to its slack |
| BlackRule.TrimIsLast | src/alert_rules.py:915-927 | trimming leaves exactly the last seconds of the window it is given |
| BlackRule.WindowIsLatestHistory | src/alert_rules.py:891-927 | after any rows the window is exactly the last seconds of the whole history: all of it while it fits, the window length otherwise |
| BlackRule.SwitchingTakesTime | src/alert_rules.py:441-527 | at least (enter - recover) * window seconds are sampled between a rolling-ratio alert and a recovery, either way round |
| BlackRule.AlertsAlternate | src/alert_rules.py:453-524 | between two alerts lies a recovery, and between two recoveries an alert |
| BlackRule.RollingAlertsAreApart | src/alert_rules.py:441-527 | two rolling-ratio alerts of a stream are at least twice that apart |
| BlackRule.ConfiguredHysteresis | src/config.py:47-49 | with the configured thresholds that is 1.8 seconds |
| BlackMilliseconds.TrimKeepsLatest | src/alert_rules.py:915-927 | on whole milliseconds trimming keeps exactly the latest ones and its slack never matters |
| BlackMilliseconds.RatioIsMeanOfLatest | src/alert_rules.py:891-935 | the rolling ratio is the plain mean over the latest milliseconds of the whole history, and the observed length is the window's exactly as soon as that much was seen |
| BlackMilliseconds.DecisionsReadOffHistory | src/alert_rules.py:441-527 | every decision equals the one made from the whole history instead of the trimmed window |
| BlackVerdicts.VerdictsFollowRows | src/alert_rules.py:441-527 | an alert opens exactly when none is open and the row has a long black stretch, or the latest window of milliseconds, each with the black ratio of its row, is whole and black enough on average; it closes exactly when one is open, the row has none, and the whole window is clear enough |
| BlurRule.BlurStepsAgree | src/alert_rules.py:530-588 | stepping row by row walks through the states and decisions defined over the whole stream |
| BlurRule.BlurWindowIsLatest | src/alert_rules.py:871-888 | the window holds exactly the latest samples, as many as it takes |
| BlurRule.StandardEntryIsMajority | src/alert_rules.py:827-832 | in a full window of odd size the median test is a majority test, so both standard entry tests coincide |
| BlurRule.ConfiguredEntry | src/alert_rules.py:775-840 | with the configured policy an idle rule enters exactly on counts over the last three of at least five samples |
| BlurRule.BlurAlertsNeedRecovery | src/alert_rules.py:545-577 | no blur alert repeats before a recovery |
| BlurVerdicts.VerdictsFollowRows | src/alert_rules.py:530-588 | with an odd window an alert opens exactly when none is open, enough rows were seen, most of the latest move little and none by far, and most are blurred, all where motion is ambiguous; it closes exactly when one is open and most are sharp |
| BlurVerdicts.ReasonsFollowRows | src/alert_rules.py:775-840 | an idle rule that does not alert says not ready, too much motion or ambiguous motion exactly as the latest rows do |
| RuleState.StreamsAreIsolated | src/alert_rules.py:650-656 | in any interleaving a stream gets exactly the verdicts its own rows and resets would get alone |
| RuleState.AlwaysCovered | src/alert_rules.py:132-148 | the active and count maps never hold a key the window map lacks |
| RuleState.ResetIsComplete | src/alert_rules.py:278-281 | after a reset a session's streams behave as in a fresh store and all others as if nothing happened |
| RuleState.VerdictsAreDecisions | src/alert_rules.py:284-297 | the verdicts of a black stream alone are the black rule's decisions, so its bounds apply |
| RuleState.StoredBlackVerdicts | src/alert_rules.py:284-297 | in any interleaving of rows without a reset of its session a black stream gets the decisions of the black rule over its own rows |
| RuleState.StoredRollingAlertsAreApart | src/alert_rules.py:441-527 | there two rolling-ratio alerts of a stream are at least two hysteresis times of its own rows apart, and such an alert and a later recovery one |
| RuleState.StoredBlackFollowsRows | src/alert_rules.py:441-527 | in any interleaving without a reset a black stream alerts and recovers exactly where its own rows show black and picture again |
| RuleState.StoredBlurVerdicts | src/alert_rules.py:321-334 | in any interleaving without a reset a blur stream gets the decisions of the blur rule over its own rows |
| RuleState.StoredBlurFollowsRows | src/alert_rules.py:530-588 | there it alerts and recovers exactly where its own latest rows look blurred and sharp again |
| RuleState.BlurVerdictsAreDecisions | src/alert_rules.py:321-334 | the verdicts of a blur stream alone are the blur rule's decisions over all its rows |
| RuleState.StoredBlurAlertsNeedRecovery | src/alert_rules.py:545-577 | in any interleaving of rows without a reset of its session no blur alert of a stream repeats before a recovery |
| RuleState.RuleStateStore.TrimBlackWindow | src/alert_rules.py:915-927 | the trimming loop computes the trimmed window |
| RuleState.RuleStateStore.EvaluateVideoBlackRule | src/alert_rules.py:441-527 | evaluating a row in place is one step of that stream and of no other |
| RuleState.RuleStateStore.EvaluateVideoBlurRule | src/alert_rules.py:530-588 | evaluating a row in place is one step of that stream and of no other |
| RuleState.RuleStateStore.ResetSessionRuleState | src/alert_rules.py:854-868 | the reset loops drop exactly the session's window keys from every map |
| Statistics.OddMedian | src/alert_rules.py:749-766 | the median of an odd number of values reaches a threshold exactly when a majority does |
| Statistics.OddMedianAtMost | src/alert_rules.py:749-766 | it stays within a threshold exactly when a majority does |
| Statistics.SortSorts | src/detectors/blur.py:388-397 | the sort behind the median orders its values and keeps each of them |
| BlurSummary.LongestRunIsLongest | src/detectors/blur.py:400-410 | there is a run of every length up to the longest and of none beyond |
| BlurSummary.LongestThresholdRun | src/detectors/blur.py:400-410 | the counting loop computes the longest run |
| BlurSummary.DetectBlur | src/detectors/contracts.py:68-74 | blur is reported exactly when some run of the required number of rolling medians reaches the threshold, that is, when so many windows of frames in a row are blurry; the rounded score never decides |
| BlurSummary.RunsAreStretches | src/detectors/blur.py:388-410 | over scores with six decimals, a run of rolling medians is a stretch of windows each with most of its frames at the threshold, or of two frames whose sum misses its double by a millionth at most |
| Rounding.Round3KeepsThreshold | src/detectors/blur.py:164 | rounding to three decimals never carries a value below a threshold with three decimals |
| RateLimit.WindowAdmitsAtMostBudget | src/api_rate_limit.py:84-116 | a window admits at most the budget, its opening request included |
| RateLimit.AnyStretchIsBounded | src/api_rate_limit.py:84-140 | any half-open stretch of window length admits at most twice the budget less one |
| RateLimit.AnyStretchOfSubjectIsBounded | src/api_rate_limit.py:84-140 | so does the limiter for a subject, among any requests of others |
| RateLimit.SubjectsAreIndependent | src/api_rate_limit.py:99-116 | requests of other subjects never change a subject's decisions |
| RateLimit.BudgetsAreSeparate | src/api_rate_limit.py:239-244 | subjects under different budget names never share a counter |
| RateLimit.InMemoryFixedWindowRateLimiter.CheckAndIncrement | src/api_rate_limit.py:84-116 | one request in place is one step of its subject; a refused one changes nothing |
| RoutePolicy.RefusedStartCostsNothing | src/api/session_route_policy.py:28-46 | a start the guard refuses leaves both counters as they were |
| RoutePolicy.ChargesWithinIff | src/api/session_route_policy.py:24-61 | the starts charged to a control window stay within a number, whatever follows, exactly when a bound computed from its opening call does |
| RoutePolicy.ReserveIff | src/api/session_route_policy.py:24-61 | twice the start budget less one bounds the charges exactly unless the opening start read its guard window's beginning earlier; one more always does |
| RoutePolicy.HalfReserveIff | src/api/session_route_policy.py:24-61 | the start budget itself bounds the charges exactly when the opening call finds the guard aligned with the control window or with nothing left to let through |
| RoutePolicy.CancelsKeepReserve | src/api/session_route_policy.py:49-61 | with one reading per call a cancellation is refused only after so many others in its window that starts fill the rest |
| RoutePolicy.StartsNeverRefuseCancel | src/api_boundary_config.py:45-46 | with the configured budgets and one reading per call starts alone never refuse a cancellation |
| RoutePolicy.TwoReadingsExhaustControl | src/api/session_route_policy.py:34-45 | with two readings per start there is a schedule of starts alone after which the first cancellation is refused |
| RoutePolicy.HalfIsNotReserved | src/api_boundary_config.py:45-46 | a schedule with one reading per call charges twice the start budget less one |
| RoutePolicy.ExhaustingScheduleAdvances | src/api_rate_limit.py:99 | no reading of that schedule goes back |
| RoutePolicy.UnevenScheduleAdvances | src/api_rate_limit.py:99 | no reading of the uneven schedule goes back, and each call reads once |
| RoutePolicy.RequireSessionStart | src/api/session_route_policy.py:24-46 | the guard is checked first and the shared budget only if it admits, and no other counter changes |
| RoutePolicy.RequireSessionCancel | src/api/session_route_policy.py:49-61 | a cancellation is charged to the shared budget alone |
| SessionAlerts.TallyCounts | src/session_alerts.py:164-184 | a counter holds exactly the keys that occur, each with the number of its occurrences |
| SessionAlerts.BuildAlertSummary | src/session_alerts.py:143-196 | one pass gives the counts, which add up to the total, and the earliest and latest usable time |
| SessionAlerts.FilteredKeepsMatches | src/session_alerts.py:247-277 | a query keeps exactly the alerts that match it, each as often as it occurs, time bounds inclusive and unusable times outside any of them |
| SessionAlerts.FilteredMeans | src/session_alerts.py:247-277 | the alerts kept are those of the detector and severity asked for, at a usable time no earlier than the start and no later than the end |
| SessionAlerts.FilteredInOrder | src/session_alerts.py:247-277 | a query keeps the order: of two stretches it keeps what it keeps of the first and then of the second |
| Incidents.CollectSortableAlerts | src/session_alert_incidents.py:204-212 | the loop keeps exactly the alerts with a usable time, with their places |
| Incidents.SortRowsSorts | src/session_alert_incidents.py:175-176 | the sort keeps every row and orders by time, then by place |
| Incidents.GroupAlertsIntoIncidents | src/session_alert_incidents.py:168-201 | the grouping loop computes the grouping of the sorted alerts |
| Incidents.GroupedPartitions | src/session_alert_incidents.py:178-229 | the groups make up the sorted alerts, neighbours inside one belong together, and no two neighbouring groups could be joined |
| Incidents.GroupedIsUnique | src/session_alert_incidents.py:168-229 | there is no other such partition |
| Incidents.GroupedIsCoarsest | src/session_alert_incidents.py:168-229 | no partition into compatible groups has fewer groups |
| Incidents.EntriesAreOrdered | src/session_alert_incidents.py:232-245 | the entries of a timeline do not overlap |
| Incidents.TimelineTellsAll | src/session_alert_incidents.py:232-245 | the entries tell of all ordered alerts, one stretch after the other: each counts its alerts, no more than a minute apart, which share its detector, severity and title, and carries their first and last time and their first message |
| Incidents.EntriesStayApart | src/session_alert_incidents.py:215-229 | neighbouring entries differ in detector, severity or title or lie more than a minute apart |
| Incidents.CountIncidentCategories | src/session_alert_incidents.py:265-273 | the categories count the incidents by title and add up to their number |
| Incidents.InputOrderDoesNotMatter | src/session_alert_incidents.py:168-201 | with distinct times the incidents do not depend on the order of the input |
| Incidents.SummaryMatchesTimeline | src/session_alerts.py:187-196 | the summary's first and last times are where the timeline starts and ends |

## Left out

- Sockets, `urlopen`, ffmpeg and ffprobe, JSON and CSV encoding, PostgreSQL: replies are arbitrary, stores are values and append-only logs that succeed or fail.
- Joining and splitting URLs: two arbitrary functions, one that resolves a line against a base and one that names a URI's file.
- URL trust checks, DNS and host allowlists, API keys, request routing and schemas, all frontend code, the experimental detectors, and the legacy collection modules.
- Payload bytes and decoded playlist text are unrelated, and so is the URL a response came from; a payload matters only by its length.
- A file name or a fetch error is text; non-ASCII digits are not read as numbers, and only the common line breaks and spaces are known.
- The wall-clock runtime limit: it may strike at any iteration, and no termination proof relies on it.
- Retry delays, log records, the telemetry's URL class, and the timestamps of snapshots; the rule that skips unchanged snapshots ignores those timestamps too.
- Floating-point rounding: durations, ratios and scores are reals, and only rounding to decimals is modelled.
- The frame metrics behind a blur score, black-frame filtering, and alert message text.
- Exceptions inside a rule evaluation, which the runtime turns into a value error: the rules are total here.
- Threads in the limiter: its lock makes every check a step of its own, which is how checks are modelled.
- Several sessions sharing one store: the session runner's storage is that of one session, and its row logs hold what the current run stored.
- Rule-state resets around a session: `RuleState` models the reset, and the session runner does not call it.
- HlsLoader.Loader.constructor: the dataclass that holds the runtime state is flattened into the loader, so that swapping it for a fresh one is a reset of its fields.
- HlsPlaylist.ParseMediaPlaylist: infinities and NaN are not read as numbers and exponents know no limits, because durations are reals here, and a value that cannot be read ends in one failure without the detail of its message.
- TempStorage.TempDirectory.Write: the deletions in its error handler are assumed to succeed; a partial file they leave behind, and the error they then raise, are not modelled.
- SessionStorage.StoreMeets: a write of the store that fails stores nothing; only appends to the de-duplication log may be cut in the middle.
- SessionRunner.SessionRun.RunLocalSession: analyzers are arbitrary and never touch the slice's file, the store or the clock.
- Narrative sentences, dominant keys, and the lists of source names in timeline entries.
