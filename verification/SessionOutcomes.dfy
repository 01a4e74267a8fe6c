/**
 How a session ends, as functions of what the stores, the input, the stream, the analyzers and the
 looks for cancel intent answered: the finalizer, the statuses it leaves, and who handles an error.
 */
module SessionOutcomes {
  import opened Prelude
  import opened StreamContracts
  import opened LoaderMachine
  import opened DedupLog
  import opened IngestSystem
  import opened SessionModels
  import opened SessionStorage
  import opened SessionProgress
  import opened StreamFacade

  // ---- Finalizing --------------------------------------------------------------------

  // How an attempt to persist a terminal outcome went.
  datatype Finalization =
    | Finalized
    | NotFlushed(crash: Crash)
    | IllegalTransition
    | StatusNotStored(crash: Crash)
    | SnapshotRejected
    | SnapshotNotStored(crash: Crash)

  predicate StoresStatus(f: Finalization) {
    f.Finalized? || f.SnapshotRejected? || f.SnapshotNotStored?
  }

  function CrashOf(f: Finalization): Option<Crash> {
    match f
    case Finalized => None
    case NotFlushed(crash) => Some(crash)
    case IllegalTransition => Some(ValueError)
    case StatusNotStored(crash) => Some(crash)
    case SnapshotRejected => Some(ValueError)
    case SnapshotNotStored(crash) => Some(crash)
  }

  function CrashOfWrite(result: WriteResult): Option<Crash> {
    match result
    case Stored => None
    case Rejected => Some(ValueError)
    case StoreError(crash) => Some(crash)
  }

  // The terminal snapshot for a status: only the status and its reason change.
  function EndSnapshot(mode: InputMode, current: Progress, status: SessionStatus, error: Option<string>,
                       fields: EndFields): (next: Progress)
    ensures next.status == status
    ensures next.(status := current.status, statusReason := current.statusReason, statusDetail := current.statusDetail)
            == current
  {
    var (reason, detail) := TerminalReason(status, mode, error, fields);
    ProgressUpdate(current, status, reason, detail)
  }

  /** It is valid exactly if the status allows the counts it ends with. */
  lemma EndValidity(mode: InputMode, current: Progress, status: SessionStatus, error: Option<string>, fields: EndFields)
    requires ValidProgress(current) && IsTerminal(status)
    ensures ValidProgress(EndSnapshot(mode, current, status, error, fields))
            <==> (status == Completed ==> current.processedCount == current.totalCount)
  {
    var next := EndSnapshot(mode, current, status, error, fields);
    assert next.processedCount == current.processedCount && next.totalCount == current.totalCount;
  }

  // A completed snapshot carries the reason and detail that go with the loader's stop reason.
  predicate ReportsStop(progress: Progress, mode: InputMode, reason: StopReason, failure: Option<string>) {
    progress.statusReason.Some?
    && (progress.statusReason.value, progress.statusDetail) == CompletedWith(mode, reason, failure)
  }

  lemma CompletedReportsStop(mode: InputMode, current: Progress, fields: EndFields, reason: StopReason)
    requires fields.sessionEndReason == Some(StopReasonName(reason))
    ensures ReportsStop(EndSnapshot(mode, current, Completed, None, fields), mode, reason, fields.terminalFailureReason)
  {
  }

  // What the stores raised for a finalizer, nothing where they worked or were not asked.
  datatype StoreReplies = StoreReplies(flush: Option<Crash>, status: Option<Crash>, snapshot: Option<Crash>)

  const ALL_WORK := StoreReplies(None, None, None)

  // How the finalizer ends: flush, change the status, write the snapshot if it says something new.
  function FinalizationOf(from: SessionStatus, status: SessionStatus, flush: bool, current: Progress, next: Progress,
                          replies: StoreReplies): Finalization
  {
    if flush && replies.flush.Some? then NotFlushed(replies.flush.value)
    else if status !in AllowedTargets(from) then IllegalTransition
    else if replies.status.Some? then StatusNotStored(replies.status.value)
    else if next == current then Finalized
    else if !ValidProgress(next) then SnapshotRejected
    else if replies.snapshot.Some? then SnapshotNotStored(replies.snapshot.value)
    else Finalized
  }

  function StatusesAfter(statuses: seq<SessionStatus>, status: SessionStatus, f: Finalization): seq<SessionStatus> {
    statuses + if StoresStatus(f) then [status] else []
  }

  // One call of the finalizer: the status it was asked for, whether it had to flush, what the stores
  // raised, how it ended.
  datatype FinalCall = FinalCall(status: SessionStatus, flush: bool, replies: StoreReplies, outcome: Finalization)

  // The flush or the write of the status failed.
  predicate StatusFailed(call: FinalCall) {
    (call.flush && call.replies.flush.Some?) || call.replies.status.Some?
  }

  // Unless the transition is illegal, the status is stored exactly if neither of the two failed.
  predicate Legal(call: FinalCall) {
    StoresStatus(call.outcome) <==> !StatusFailed(call)
  }

  lemma AllowedIsLegal(from: SessionStatus, status: SessionStatus, flush: bool, current: Progress, next: Progress,
                       replies: StoreReplies)
    requires status in AllowedTargets(from)
    ensures Legal(FinalCall(status, flush, replies, FinalizationOf(from, status, flush, current, next, replies)))
  {
  }

  // From a running session it holds exactly if all stores work and the snapshot is valid.
  lemma FinalizedIff(status: SessionStatus, current: Progress, next: Progress, replies: StoreReplies)
    requires IsTerminal(status) && current.status == Running && next.status == status
    ensures FinalizationOf(Running, status, true, current, next, replies).Finalized?
            <==> replies == ALL_WORK && ValidProgress(next)
  {
  }

  /**
   A cancellation whose snapshot cannot be written is finalized once more as failed, and that
   leaves the transition table: for every running snapshot, error text and reasons.
   */
  lemma SecondFinalizationLeavesTable(mode: InputMode, current: Progress, text: string, fields: EndFields,
                                      failFields: EndFields)
    requires ValidProgress(current) && current.status == Running
    ensures var first := FinalizationOf(Running, Cancelled, true, current,
                                        EndSnapshot(mode, current, Cancelled, None, fields),
                                        StoreReplies(None, None, Some(OsError)));
            var second := FinalizationOf(Running, Failed, false, current,
                                         EndSnapshot(mode, current, Failed, Some(text), failFields), ALL_WORK);
            var statuses := StatusesAfter(StatusesAfter([Pending, Running], Cancelled, first), Failed, second);
            && first == SnapshotNotStored(OsError) && second == Finalized
            && statuses == [Pending, Running, Cancelled, Failed]
            && !StatusPath(statuses) && !TerminalIsLast(statuses)
  {
    FinalizedTwice(current, EndSnapshot(mode, current, Cancelled, None, fields),
                   EndSnapshot(mode, current, Failed, Some(text), failFields));
  }

  lemma FinalizedTwice(current: Progress, cancelled: Progress, failed: Progress)
    requires current.status == Running && cancelled.status == Cancelled && failed.status == Failed
    requires ValidProgress(cancelled) && ValidProgress(failed)
    ensures FinalizationOf(Running, Cancelled, true, current, cancelled, StoreReplies(None, None, Some(OsError)))
            == SnapshotNotStored(OsError)
    ensures FinalizationOf(Running, Failed, false, current, failed, ALL_WORK) == Finalized
    ensures !StatusPath([Pending, Running, Cancelled, Failed]) && !TerminalIsLast([Pending, Running, Cancelled, Failed])
  {
    var statuses := [Pending, Running, Cancelled, Failed];
    assert statuses[3] !in AllowedTargets(statuses[2]) && IsTerminal(statuses[2]);
  }

  /** A running snapshot with fewer slices processed than counted cannot be completed, though all stores work. */
  lemma UnevenSnapshotIsRefused(mode: InputMode, sessionId: string, fields: EndFields)
    ensures var current := ProgressUpdate(InitialProgress(sessionId, 2), Running, "", None).(processedCount := 1);
            && ValidProgress(current)
            && FinalizationOf(Running, Completed, true, current,
                              EndSnapshot(mode, current, Completed, None, fields), ALL_WORK) == SnapshotRejected
  {
  }

  // ---- Slices ------------------------------------------------------------------------

  datatype AnalyzerReply = AnalyzerBundle(bundle: Bundle) | AnalyzerCrash(crash: Crash)

  // A slice handed to the analyzers: what the look before it answered, whether intent was durable by
  // then, what the analyzers replied, and how storing the rows and the snapshot ended, as far as it
  // came to that.
  datatype Analyzed = Analyzed(
    slice: Slice,
    look: Look,
    late: bool,
    reply: AnalyzerReply,
    rows: WriteResult,
    snapshot: WriteResult)

  // The slices analyzed are the first of these, in order.
  ghost predicate Analyzes(analyzed: seq<Analyzed>, slices: seq<Slice>) {
    && |analyzed| <= |slices|
    && forall i :: 0 <= i < |analyzed| ==> analyzed[i].slice == slices[i]
  }

  // This slice comes next, and is the last of these.
  ghost predicate IsNext(analyzed: seq<Analyzed>, slice: Slice, slices: seq<Slice>) {
    |slices| == |analyzed| + 1 && Analyzes(analyzed, slices) && slices[|analyzed|] == slice
  }

  // They are all of these, in order.
  ghost predicate AnalyzesAll(analyzed: seq<Analyzed>, slices: seq<Slice>) {
    |analyzed| == |slices| && Analyzes(analyzed, slices)
  }

  lemma AnalyzesOneMore(analyzed: seq<Analyzed>, slices: seq<Slice>, slice: Slice)
    requires AnalyzesAll(analyzed, slices)
    ensures IsNext(analyzed, slice, slices + [slice])
  {
  }

  lemma AnalyzedNext(analyzed: seq<Analyzed>, a: Analyzed, slices: seq<Slice>)
    requires Analyzes(analyzed, slices) && |analyzed| < |slices| && slices[|analyzed|] == a.slice
    ensures Analyzes(analyzed + [a], slices)
  {
  }

  // No look before an analysis saw intent, and no analysis but the last began with intent durable.
  ghost predicate LooksHeeded(analyzed: seq<Analyzed>) {
    && (forall i :: 0 <= i < |analyzed| ==> analyzed[i].look.NoIntent?)
    && (forall i :: 0 <= i < |analyzed| - 1 ==> !analyzed[i].late)
  }

  // No analysis at all began with intent durable.
  ghost predicate NoneLate(analyzed: seq<Analyzed>) {
    forall i :: 0 <= i < |analyzed| ==> !analyzed[i].late
  }

  lemma OneMoreHeeded(analyzed: seq<Analyzed>, a: Analyzed)
    requires LooksHeeded(analyzed) && NoneLate(analyzed) && a.look.NoIntent?
    ensures LooksHeeded(analyzed + [a])
    ensures !a.late ==> NoneLate(analyzed + [a])
  {
  }

  function ResultsOf(a: Analyzed): seq<string> {
    if a.reply.AnalyzerBundle? then a.reply.bundle.resultDetectors else []
  }

  function AlertsOf(a: Analyzed): seq<string> {
    if a.reply.AnalyzerBundle? then a.reply.bundle.alerts else []
  }

  // The rows of the first n slices, in order.
  function ResultRows(analyzed: seq<Analyzed>, n: nat): seq<string>
    requires n <= |analyzed|
  {
    if n == 0 then [] else ResultRows(analyzed, n - 1) + ResultsOf(analyzed[n - 1])
  }

  function AlertRows(analyzed: seq<Analyzed>, n: nat): seq<string>
    requires n <= |analyzed|
  {
    if n == 0 then [] else AlertRows(analyzed, n - 1) + AlertsOf(analyzed[n - 1])
  }

  // The logs hold the rows of the slices in order, and nothing else.
  ghost predicate HoldsRows(results: seq<string>, alerts: seq<string>, analyzed: seq<Analyzed>) {
    forall n :: 0 <= n <= |analyzed| ==>
      && ResultRows(analyzed, n) <= results && AlertRows(analyzed, n) <= alerts
      && (n == |analyzed| ==> results == ResultRows(analyzed, n) && alerts == AlertRows(analyzed, n))
  }

  // The logs hold the rows of all slices but the last, and a stretch of its results and then alerts.
  ghost predicate HoldsRowsUpToLast(results: seq<string>, alerts: seq<string>, analyzed: seq<Analyzed>) {
    forall n :: 0 <= n <= |analyzed| ==>
      if n < |analyzed| then ResultRows(analyzed, n) <= results && AlertRows(analyzed, n) <= alerts
      else
        && results <= ResultRows(analyzed, n) && alerts <= AlertRows(analyzed, n)
        && (n > 0 && alerts != AlertRows(analyzed, n - 1) ==> results == ResultRows(analyzed, n))
  }

  lemma {:induction false} RowsKeep(analyzed: seq<Analyzed>, a: Analyzed, n: nat)
    requires n <= |analyzed|
    ensures ResultRows(analyzed + [a], n) == ResultRows(analyzed, n)
    ensures AlertRows(analyzed + [a], n) == AlertRows(analyzed, n)
  {
    if n > 0 {
      RowsKeep(analyzed, a, n - 1);
    }
  }

  // What the rows of one more slice make of the logs, stored up to some place or altogether.
  lemma RowsGrow(analyzed: seq<Analyzed>, a: Analyzed, results: seq<string>, alerts: seq<string>,
                 results': seq<string>, alerts': seq<string>)
    requires HoldsRows(results, alerts, analyzed)
    requires results <= results' <= results + ResultsOf(a) && alerts <= alerts' <= alerts + AlertsOf(a)
    requires alerts' != alerts ==> results' == results + ResultsOf(a)
    ensures HoldsRowsUpToLast(results', alerts', analyzed + [a])
    ensures results' == results + ResultsOf(a) && alerts' == alerts + AlertsOf(a) ==>
              HoldsRows(results', alerts', analyzed + [a])
  {
    var longer, all := analyzed + [a], |analyzed|;
    assert results == ResultRows(analyzed, all) && alerts == AlertRows(analyzed, all);
    RowsKeep(analyzed, a, all);
    assert longer[all] == a;
    forall n | 0 <= n <= |longer|
      ensures n <= all ==> ResultRows(longer, n) <= results' && AlertRows(longer, n) <= alerts'
      ensures n == |longer| ==>
                ResultRows(longer, n) == results + ResultsOf(a) && AlertRows(longer, n) == alerts + AlertsOf(a)
    {
      if n <= all {
        RowsKeep(analyzed, a, n);
      }
    }
  }

  // ---- Errors and who handles them ----------------------------------------------------

  // The error that breaks a session off, and where it was raised: in the writes and checks before the
  // loop, the input, connect, the stream, a look for intent before a slice, an analyzer, the store
  // of a slice's rows and snapshot, or the last look after the loop.
  datatype Break =
    | InStart(crash: Crash)
    | InInput(crash: Crash)
    | InConnect(opening: OpenResult)
    | InStream(end: End)
    | InLook(crash: Crash)
    | InAnalyzer(crash: Crash)
    | InStore(crash: Crash)
    | InLastLook(crash: Crash)

  // What it is to a handler; the stop signal out of connect is a runtime error.
  function CrashOfBreak(b: Break): Crash {
    match b
    case InStart(crash) => crash
    case InInput(crash) => crash
    case InConnect(opening) =>
      if opening.OpenFailed? then ValueError else if opening.OpenCrashed? then opening.crash else Unhandled
    case InStream(end) =>
      if end.GaveUp? then ValueError else if end.Escaped? then end.crash else Unhandled
    case InLook(crash) => crash
    case InAnalyzer(crash) => crash
    case InStore(crash) => crash
    case InLastLook(crash) => crash
  }

  // A handler finalizes the session as failed: it is in charge from connect to the end of the loop,
  // and of the input, and takes the expected kinds.
  predicate Handled(b: Break) {
    !b.InStart? && !b.InLastLook? && CrashOfBreak(b) != Unhandled
  }

  // What the world answered a session, apart from the slices: the writes before the loop, what
  // validation or discovery raised, whether a second look refused the source, how connect ended,
  // the looks for intent, how the stream ended, and the last look.
  datatype Answers = Answers(
    writes: seq<WriteResult>,
    input: Option<Crash>,
    sourceRefused: bool,
    opening: Option<OpenResult>,
    looks: seq<Look>,
    streamEnd: Option<End>,
    lastLook: Look)

  const NO_ANSWERS := Answers([], None, false, None, [], None, NoIntent)

  function SliceBreak(a: Analyzed): Option<Break> {
    match a.reply
    case AnalyzerCrash(crash) => Some(InAnalyzer(crash))
    case AnalyzerBundle(_) =>
      if CrashOfWrite(a.rows).Some? then Some(InStore(CrashOfWrite(a.rows).value))
      else if CrashOfWrite(a.snapshot).Some? then Some(InStore(CrashOfWrite(a.snapshot).value))
      else None
  }

  function StartBreak(w: Answers): Option<Break> {
    if w.writes != [] && w.writes[|w.writes| - 1] != Stored then
      Some(InStart(CrashOfWrite(w.writes[|w.writes| - 1]).value))
    else if w.input.Some? then Some(InInput(w.input.value))
    else if w.sourceRefused then Some(InStart(ValueError))
    else if w.opening.Some? && !w.opening.value.Opened? then Some(InConnect(w.opening.value))
    else None
  }

  function LoopBreak(w: Answers, analyzed: seq<Analyzed>): Option<Break> {
    if w.streamEnd.Some? && !w.streamEnd.value.Drained? then Some(InStream(w.streamEnd.value))
    else if w.looks != [] && w.looks[|w.looks| - 1].LookFailed? then Some(InLook(w.looks[|w.looks| - 1].crash))
    else if analyzed != [] then SliceBreak(analyzed[|analyzed| - 1])
    else None
  }

  // The error the world broke the session off with, if any.
  function Broke(w: Answers, analyzed: seq<Analyzed>): Option<Break> {
    if StartBreak(w).Some? then StartBreak(w)
    else if LoopBreak(w, analyzed).Some? then LoopBreak(w, analyzed)
    else if w.lastLook.LookFailed? then Some(InLastLook(w.lastLook.crash))
    else None
  }

  predicate Breaks(error: Break, w: Answers, analyzed: seq<Analyzed>) {
    Broke(w, analyzed) == Some(error)
  }

  // Exactly this error broke the session off, or none did.
  ghost predicate Tells(met: Option<Break>, w: Answers, analyzed: seq<Analyzed>) {
    forall error {:trigger Breaks(error, w, analyzed)} :: Breaks(error, w, analyzed) <==> met == Some(error)
  }

  lemma TellsIff(met: Option<Break>, w: Answers, analyzed: seq<Analyzed>)
    ensures Tells(met, w, analyzed) <==> met == Broke(w, analyzed)
  {
    assert met.Some? ==> (Breaks(met.value, w, analyzed) <==> Broke(w, analyzed) == met);
    assert Broke(w, analyzed).Some? ==> Breaks(Broke(w, analyzed).value, w, analyzed);
  }

  lemma BrokeInSlice(w: Answers, analyzed: seq<Analyzed>, a: Analyzed)
    requires Tells(None, w, analyzed)
    ensures Tells(SliceBreak(a), w, analyzed + [a])
  {
    TellsIff(None, w, analyzed);
    TellsIff(SliceBreak(a), w, analyzed + [a]);
    assert (analyzed + [a])[|analyzed|] == a;
  }

  lemma BrokeInLook(w: Answers, analyzed: seq<Analyzed>, look: Look)
    requires Tells(None, w, analyzed)
    ensures Tells(if look.LookFailed? then Some(InLook(look.crash)) else None, w.(looks := w.looks + [look]), analyzed)
  {
    TellsIff(None, w, analyzed);
    TellsIff(if look.LookFailed? then Some(InLook(look.crash)) else None, w.(looks := w.looks + [look]), analyzed);
  }

  lemma BrokeInWrite(w: Answers, analyzed: seq<Analyzed>, result: WriteResult)
    requires Tells(None, w, analyzed)
    ensures Tells(if result == Stored then None else Some(InStart(CrashOfWrite(result).value)),
                  w.(writes := w.writes + [result]), analyzed)
  {
    TellsIff(None, w, analyzed);
    TellsIff(if result == Stored then None else Some(InStart(CrashOfWrite(result).value)),
             w.(writes := w.writes + [result]), analyzed);
  }

  lemma BrokeInInput(w: Answers, analyzed: seq<Analyzed>, crash: Crash)
    requires Tells(None, w, analyzed)
    ensures Tells(Some(InInput(crash)), w.(input := Some(crash)), analyzed)
    ensures Tells(Some(InStart(ValueError)), w.(sourceRefused := true), analyzed)
  {
    TellsIff(None, w, analyzed);
    TellsIff(Some(InInput(crash)), w.(input := Some(crash)), analyzed);
    TellsIff(Some(InStart(ValueError)), w.(sourceRefused := true), analyzed);
  }

  lemma BrokeInConnect(w: Answers, analyzed: seq<Analyzed>, opening: OpenResult)
    requires Tells(None, w, analyzed)
    ensures Tells(if opening.Opened? then None else Some(InConnect(opening)), w.(opening := Some(opening)), analyzed)
  {
    TellsIff(None, w, analyzed);
    TellsIff(if opening.Opened? then None else Some(InConnect(opening)), w.(opening := Some(opening)), analyzed);
  }

  lemma BrokeInStream(w: Answers, analyzed: seq<Analyzed>, end: End)
    requires Tells(None, w, analyzed)
    ensures Tells(if end.Drained? then None else Some(InStream(end)), w.(streamEnd := Some(end)), analyzed)
  {
    TellsIff(None, w, analyzed);
    TellsIff(if end.Drained? then None else Some(InStream(end)), w.(streamEnd := Some(end)), analyzed);
  }

  lemma BrokeInLastLook(w: Answers, analyzed: seq<Analyzed>, look: Look)
    requires Tells(None, w, analyzed)
    ensures Tells(if look.LookFailed? then Some(InLastLook(look.crash)) else None, w.(lastLook := look), analyzed)
  {
    TellsIff(None, w, analyzed);
    TellsIff(if look.LookFailed? then Some(InLastLook(look.crash)) else None, w.(lastLook := look), analyzed);
  }

  // Nothing was answered from connect on.
  predicate BeforeConnect(w: Answers) {
    w.opening.None? && w.looks == [] && w.streamEnd.None? && w.lastLook == NoIntent
  }

  // How a run ends: settled, out of an error the handler or the finalizer raised, or out of one
  // that no handler was in charge of.
  datatype RunEnd = Settled(status: SessionStatus) | Threw(crash: Crash) | Uncaught(error: Break)

  // The run ends uncaught exactly if the world broke it off with an error that nothing handles.
  predicate EndsBy(end: RunEnd, broke: Option<Break>) {
    match broke
    case None => !end.Uncaught?
    case Some(b) => if Handled(b) then end.Threw? else end == Uncaught(b)
  }

  // Some look of the session, in its loop or after it, saw cancel intent.
  predicate SawIntent(w: Answers) {
    Intent in w.looks || w.lastLook == Intent
  }

  lemma LooksOnce(w: Answers, look: Look)
    ensures SawIntent(w.(looks := w.looks + [look])) <==> SawIntent(w) || look == Intent
    ensures w.lastLook == NoIntent ==> (SawIntent(w.(lastLook := look)) <==> SawIntent(w) || look == Intent)
  {
    assert (w.looks + [look])[|w.looks|] == look;
  }

  // What a session is settled as if nothing broke it off.
  function SettledStatus(w: Answers): SessionStatus {
    if SawIntent(w) then Cancelled else Completed
  }

  // The statuses its finalizers are asked for: first what the looks make of it, and failed if that one
  // raised inside a handler; failed alone if a handled error broke it off, and none if no handler was
  // in charge.
  ghost predicate AsksFor(calls: seq<FinalCall>, met: Option<Break>, w: Answers) {
    || (&& met.None? && calls != [] && calls[0].status == SettledStatus(w)
        && (|calls| == 1 || (|calls| == 2 && calls[1].status == Failed)))
    || (met.Some? && Handled(met.value) && |calls| == 1 && calls[0].status == Failed)
    || (met.Some? && !Handled(met.value) && calls == [])
  }

  // Nothing broke the session off, and all stores worked for its first finalizer.
  predicate WorksOut(met: Option<Break>, calls: seq<FinalCall>) {
    met.None? && calls != [] && calls[0].replies == ALL_WORK
  }

  // A session completes exactly if nothing broke it off, no look saw intent, all stores worked for its
  // finalizer and its counts agree, and is cancelled exactly if a look saw intent and all stores worked.
  ghost predicate EndsAsAnswered(end: RunEnd, met: Option<Break>, w: Answers, calls: seq<FinalCall>,
                                 countsAgree: bool) {
    && (end == Settled(Completed) <==> WorksOut(met, calls) && !SawIntent(w) && countsAgree)
    && (end == Settled(Cancelled) <==> WorksOut(met, calls) && SawIntent(w))
  }

  lemma UncaughtIff(end: RunEnd, met: Option<Break>, w: Answers, analyzed: seq<Analyzed>)
    requires Tells(met, w, analyzed) && EndsBy(end, met)
    ensures end.Uncaught? <==> Broke(w, analyzed).Some? && !Handled(Broke(w, analyzed).value)
    ensures end.Uncaught? ==> Broke(w, analyzed) == Some(end.error)
  {
    TellsIff(met, w, analyzed);
  }

  /** It is uncaught out of an analyzer exactly if the last reply was such an error and nothing broke off earlier. */
  lemma UncaughtInAnalyzerIff(end: RunEnd, met: Option<Break>, w: Answers, analyzed: seq<Analyzed>)
    requires Tells(met, w, analyzed) && EndsBy(end, met)
    ensures end == Uncaught(InAnalyzer(Unhandled))
            <==> && StartBreak(w).None?
                 && (w.streamEnd.Some? ==> w.streamEnd.value.Drained?)
                 && (w.looks != [] ==> !w.looks[|w.looks| - 1].LookFailed?)
                 && analyzed != [] && analyzed[|analyzed| - 1].reply == AnalyzerCrash(Unhandled)
  {
    UncaughtIff(end, met, w, analyzed);
  }

  /**
   A session is left without a terminal status exactly if the world broke it off with an error that
   no handler is in charge of, or the flush or the status write of every finalizer failed.
   */
  lemma LeftOpenIff(statuses: seq<SessionStatus>, calls: seq<FinalCall>, end: RunEnd, met: Option<Break>,
                    w: Answers, analyzed: seq<Analyzed>)
    requires Tells(met, w, analyzed) && EndsBy(end, met) && ClosedBy(statuses, calls, end)
    ensures NoneTerminal(statuses)
            <==> || (Broke(w, analyzed).Some? && !Handled(Broke(w, analyzed).value))
                 || (calls != [] && NoneStores(calls))
  {
    UncaughtIff(end, met, w, analyzed);
  }

  // How the loop over a stream ends.
  datatype LoopEnd =
    | LoopDone(reason: StopReason)
    | LoopReturned(end: RunEnd)
    | LoopBroken(error: Break, text: string)

  /**
   A body cut short in a way the loader does not expect leaves a session open, a reset does not: on
   the first attempt at a head, whatever the playlist, the log and the time.
   */
  lemma EscapeLeavesOpen(settings: Settings, first: Snapshot, log: Log, readable: bool, tick: Tick, w: Answers)
    requires Connected(settings, first, log, readable).live.queue.pending != []
    requires tick.env.withinRuntime && tick.env.atHead.NoIntent? && tick.env.segment.SegmentEscaped?
    requires Broke(w, []) == None
    ensures var crash, s := tick.env.segment.crash, Run(settings, Connected(settings, first, log, readable), [tick]);
            && s.end == Some(Escaped(crash))
            && Broke(w.(opening := Some(Opened), streamEnd := s.end), []) == Some(InStream(Escaped(crash)))
            && (Handled(InStream(Escaped(crash))) <==> crash != Unhandled)
  {
    assert [tick][1..] == [];
    var s0 := Connected(settings, first, log, readable);
    assert Run(settings, s0, [tick]) == Step(settings, s0, tick);
  }

  /** So does an append or a snapshot write out of which an unexpected error comes, whatever went before. */
  lemma StoreErrorLeavesOpen(w: Answers, analyzed: seq<Analyzed>, a: Analyzed)
    requires Tells(None, w, analyzed) && a.reply.AnalyzerBundle? && a.rows.StoreError?
    ensures Breaks(InStore(a.rows.crash), w, analyzed + [a])
    ensures Handled(InStore(a.rows.crash)) <==> a.rows.crash != Unhandled
  {
    BrokeInSlice(w, analyzed, a);
    TellsIff(SliceBreak(a), w, analyzed + [a]);
  }

  // ---- Statuses ------------------------------------------------------------------------

  // A snapshot reports all of this, or no more than it.
  predicate UpToDate(progress: Progress, alerts: nat, slices: nat) {
    progress.alertCount == alerts && progress.processedCount == slices
  }

  predicate NotAhead(progress: Progress, alerts: nat, slices: nat) {
    progress.alertCount <= alerts && progress.processedCount <= slices
  }

  // A snapshot reports exactly what was durable when it was written; a failed one no more than that.
  ghost predicate Accurate(w: ProgressWrite) {
    && ValidProgress(w.progress)
    && NotAhead(w.progress, w.alertsStored, w.slicesStored)
    && (w.progress.status != Failed ==> UpToDate(w.progress, w.alertsStored, w.slicesStored))
  }

  // Every snapshot written so far was accurate.
  ghost predicate AllAccurate(writes: seq<ProgressWrite>) {
    forall i :: 0 <= i < |writes| ==> Accurate(writes[i])
  }

  ghost predicate NoneTerminal(statuses: seq<SessionStatus>) {
    forall i :: 0 <= i < |statuses| ==> !IsTerminal(statuses[i])
  }

  // Every finalizer's flush or write of the status failed; so it is if none was called.
  ghost predicate NoneStores(calls: seq<FinalCall>) {
    forall i :: 0 <= i < |calls| ==> StatusFailed(calls[i])
  }

  // No status follows a terminal one.
  ghost predicate TerminalIsLast(statuses: seq<SessionStatus>) {
    forall i :: 0 <= i < |statuses| - 1 ==> !IsTerminal(statuses[i])
  }

  lemma PathGrows(statuses: seq<SessionStatus>, next: SessionStatus)
    requires statuses != []
    ensures StatusPath(statuses + [next])
            <==> StatusPath(statuses) && next in AllowedTargets(statuses[|statuses| - 1])
    ensures TerminalIsLast(statuses + [next]) <==> NoneTerminal(statuses)
    ensures NoneTerminal(statuses + [next]) <==> NoneTerminal(statuses) && !IsTerminal(next)
  {
    var longer := statuses + [next];
    assert longer[|statuses|] == next && longer[|statuses| - 1] == statuses[|statuses| - 1];
    assert forall i :: 0 <= i < |statuses| ==> longer[i] == statuses[i];
  }

  lemma CallsGrow(calls: seq<FinalCall>, call: FinalCall)
    ensures NoneStores(calls + [call]) <==> NoneStores(calls) && StatusFailed(call)
  {
    var longer := calls + [call];
    assert longer[|calls|] == call;
    assert forall i :: 0 <= i < |calls| ==> longer[i] == calls[i];
  }

  // The first finalizer stored its status and then failed, so that a second one stored another.
  ghost predicate Refinalized(calls: seq<FinalCall>) {
    |calls| == 2 && StoresStatus(calls[0].outcome) && StoresStatus(calls[1].outcome)
  }

  // The statuses follow the table with one terminal status at most, except exactly when the session
  // was finalized twice, and that is when the first snapshot met an error the handler expects.
  ghost predicate LawfulStatuses(statuses: seq<SessionStatus>, calls: seq<FinalCall>) {
    && (StatusPath(statuses) <==> !Refinalized(calls))
    && (TerminalIsLast(statuses) <==> !Refinalized(calls))
    && (Refinalized(calls) ==> calls[0].outcome.SnapshotNotStored? && calls[0].outcome.crash != Unhandled)
  }

  // The variables agree with the store, and nothing terminal was written yet.
  ghost predicate Underway(statuses: seq<SessionStatus>, metadata: SessionStatus, progress: Progress,
                           calls: seq<FinalCall>) {
    && statuses != [] && statuses[|statuses| - 1] == metadata
    && StatusPath(statuses) && NoneTerminal(statuses)
    && ValidProgress(progress) && progress.status == metadata
    && calls == []
  }

  // What a run that ended may leave: lawful statuses, without a terminal one exactly if the flush or
  // the status write of each of its finalizers failed, and none was called exactly if no handler was
  // in charge.
  ghost predicate ClosedBy(statuses: seq<SessionStatus>, calls: seq<FinalCall>, end: RunEnd) {
    && LawfulStatuses(statuses, calls)
    && (NoneTerminal(statuses) <==> NoneStores(calls))
    && (end.Uncaught? <==> calls == [])
  }

  // Where the handler finds a running session: at most one finalizer raised before.
  ghost predicate HandlerFinds(statuses: seq<SessionStatus>, calls: seq<FinalCall>) {
    && statuses != [] && |calls| <= 1 && StatusPath(statuses)
    && (calls != [] ==> Legal(calls[0]))
    && if NoneStores(calls) then NoneTerminal(statuses) && statuses[|statuses| - 1] == Running
       else && calls[0].outcome.SnapshotNotStored? && calls[0].outcome.crash != Unhandled
            && SettledOnce(statuses) && statuses[|statuses| - 1] != Failed
  }

  // A finalizer that raised what a handler around it takes, and not for an invalid snapshot.
  predicate RaisesToHandler(call: FinalCall) {
    !call.outcome.SnapshotRejected? && CrashOf(call.outcome).Some? && CrashOf(call.outcome).value != Unhandled
  }

  lemma HandlerKeepsLaw(statuses: seq<SessionStatus>, calls: seq<FinalCall>, call: FinalCall)
    requires HandlerFinds(statuses, calls) && Legal(call)
    ensures LawfulStatuses(StatusesAfter(statuses, Failed, call.outcome), calls + [call])
    ensures NoneTerminal(StatusesAfter(statuses, Failed, call.outcome)) <==> NoneStores(calls + [call])
  {
    PathGrows(statuses, Failed);
    CallsGrow(calls, call);
    assert NoneTerminal(statuses) ==> !IsTerminal(statuses[|statuses| - 1]);
    assert statuses + [] == statuses;
    assert |calls| == 1 ==> (calls + [call])[0] == calls[0] && (calls + [call])[1] == call;
  }

  // A pending session whose input is refused is finalized once.
  lemma RefusalKeepsLaw(statuses: seq<SessionStatus>, call: FinalCall)
    requires statuses != [] && StatusPath(statuses) && NoneTerminal(statuses)
    requires statuses[|statuses| - 1] == Pending && Legal(call)
    ensures LawfulStatuses(StatusesAfter(statuses, Failed, call.outcome), [call])
    ensures NoneTerminal(StatusesAfter(statuses, Failed, call.outcome)) <==> NoneStores([call])
  {
    PathGrows(statuses, Failed);
    assert statuses + [] == statuses && [call][0] == call;
  }

  // What the first finalization of a running session makes of its statuses.
  lemma FirstFinalization(statuses: seq<SessionStatus>, status: SessionStatus, call: FinalCall)
    requires statuses != [] && StatusPath(statuses) && NoneTerminal(statuses)
    requires statuses[|statuses| - 1] == Running && IsTerminal(status) && Legal(call)
    ensures var after := StatusesAfter(statuses, status, call.outcome);
            && StatusPath(after) && TerminalIsLast(after)
            && (NoneTerminal(after) <==> NoneStores([call]))
            && (StoresStatus(call.outcome) ==> SettledOnce(after))
            && (RaisesToHandler(call) && status != Failed ==> HandlerFinds(after, [call]))
  {
    PathGrows(statuses, status);
    assert statuses + [] == statuses && [call][0] == call;
    assert !StatusFailed(call) ==> !NoneStores([call]);
  }
}
