/**
 One monitoring session from its first pending write to its terminal one, as an object whose
 fields are the runner's local variables.  Every store write, look, analyzer and deletion may fail.
 */
module SessionRunner {
  import opened Prelude
  import opened StreamContracts
  import opened LoaderMachine
  import opened FacadeMachine
  import opened IngestSystem
  import opened IngestTermination
  import opened IngestDelivery
  import opened HlsLoader
  import opened SessionModels
  import opened SessionStorage
  import opened SessionProgress
  import opened StreamFacade
  import opened SessionOutcomes

  method AnalyzerMeets() returns (reply: AnalyzerReply)
  {
    reply := *;
  }

  method ErrorText() returns (text: string)
  {
    text := *;
  }

  class SessionRun {
    const storage: Storage
    const mode: InputMode
    var metadata: SessionStatus
    var progress: Progress
    var cleanupSuccesses: nat
    var cleanupFailures: nat

    // What the finalizers and the slices met so far, and what else the world answered.
    ghost var finalizations: seq<FinalCall>
    ghost var analyzed: seq<Analyzed>
    ghost var answers: Answers

    // The error the world broke the session off with, if any.
    ghost var met: Option<Break>

    constructor (storage: Storage, mode: InputMode)
      ensures this.storage == storage && this.mode == mode
      ensures finalizations == [] && analyzed == [] && answers == NO_ANSWERS && met == None
    {
      this.storage, this.mode := storage, mode;
      metadata, progress := Pending, InitialProgress("", 0);
      cleanupSuccesses, cleanupFailures := 0, 0;
      finalizations, analyzed, answers, met := [], [], NO_ANSWERS, None;
    }

    // A session of this status that did not end, whose latest snapshot reports all that is durable.
    ghost predicate Standing(status: SessionStatus)
      reads `metadata, `progress, `finalizations
      reads storage`statuses, storage`progressWrites, storage`alerts, storage`slicesStored
    {
      && Underway(storage.statuses, metadata, progress, finalizations) && metadata == status
      && AllAccurate(storage.progressWrites)
      && UpToDate(progress, |storage.alerts|, storage.slicesStored)
    }

    // A running session whose latest snapshot may report less than that.
    ghost predicate Behind()
      reads `metadata, `progress, `finalizations
      reads storage`statuses, storage`progressWrites, storage`alerts, storage`slicesStored
    {
      && Underway(storage.statuses, metadata, progress, finalizations) && metadata == Running
      && AllAccurate(storage.progressWrites)
      && NotAhead(progress, |storage.alerts|, storage.slicesStored)
    }

    // What holds from the start to the end: the error met is what the answers make it, the looks were
    // heeded and the rows stored in order.
    ghost predicate Noted()
      reads `answers, `analyzed, `met, storage`results, storage`alerts
    {
      && Tells(met, answers, analyzed) && LooksHeeded(analyzed)
      && HoldsRowsUpToLast(storage.results, storage.alerts, analyzed)
    }

    // A settled run stored its one terminal status and the snapshot that goes with it.
    ghost predicate SettledFor(end: RunEnd)
      reads `finalizations, `progress, storage`statuses, storage`progress
    {
      end.Settled? ==>
        && |finalizations| == 1 && finalizations[0].outcome == Finalized
        && SettledOnce(storage.statuses) && storage.statuses[|storage.statuses| - 1] == end.status
        && storage.progress == Some(progress) && progress.status == end.status
    }

    // The statuses and the snapshots a run that ended may leave, and the end that goes with the error
    // the world broke it off with, if any.
    ghost predicate Closes(end: RunEnd)
      reads `finalizations, `progress, `answers, `met, storage`statuses, storage`progress, storage`progressWrites
    {
      && AllAccurate(storage.progressWrites) && ClosedBy(storage.statuses, finalizations, end)
      && SettledFor(end) && EndsBy(end, met) && AsksFor(finalizations, met, answers)
    }

    // The end is what the answers make it, given whether the counts agree.
    ghost predicate Answered(end: RunEnd, countsAgree: bool)
      reads `finalizations, `answers, `met
    {
      EndsAsAnswered(end, met, answers, finalizations, countsAgree)
    }

    // What a run that reached the running state leaves.
    ghost predicate Concluded(end: RunEnd)
      reads `finalizations, `progress, `answers, `met, storage`statuses, storage`progress, storage`progressWrites
    {
      Closes(end) && (end.Uncaught? ==> storage.statuses != [] && storage.statuses[|storage.statuses| - 1] == Running)
    }

    // ---- Before the loop -------------------------------------------------------------

    // A start that went on, or raised something.
    ghost predicate Started(crash: Option<Crash>)
      reads `answers, `analyzed, `met, storage`results, storage`alerts
    {
      Noted() && BeforeConnect(answers) && met == if crash.None? then None else Some(InStart(crash.value))
    }

    // Note what a write before the loop was answered.
    ghost method NoteWrite(result: WriteResult)
      requires Started(None)
      modifies `answers, `met
      ensures answers == old(answers).(writes := answers.writes) && Started(CrashOfWrite(result))
    {
      BrokeInWrite(answers, analyzed, result);
      answers := answers.(writes := answers.writes + [result]);
      met := if result == Stored then None else Some(InStart(CrashOfWrite(result).value));
    }

    method PersistPendingMetadata() returns (crash: Option<Crash>)
      requires Started(None)
      modifies `metadata, `answers, `met, storage`status, storage`statuses
      ensures metadata == Pending
      ensures storage.statuses == old(storage.statuses) + if crash.None? then [Pending] else []
      ensures Started(crash) && answers == old(answers).(writes := answers.writes)
    {
      metadata := Pending;
      var result := storage.WriteMetadata(Pending);
      NoteWrite(result);
      crash := CrashOfWrite(result);
    }

    method InitializePending(sessionId: string) returns (crash: Option<Crash>)
      requires storage.statuses == [] && storage.progressWrites == [] && finalizations == []
      requires storage.alerts == [] && storage.slicesStored == 0 && Started(None)
      modifies `metadata, `progress, `answers, `met
      modifies storage`status, storage`statuses, storage`progress, storage`progressWrites
      ensures AllAccurate(storage.progressWrites) && StatusPath(storage.statuses) && NoneTerminal(storage.statuses)
      ensures crash.None? ==>
                && Standing(Pending) && progress == InitialProgress(sessionId, 0)
                && storage.progress == Some(progress)
      ensures Started(crash) && answers == old(answers).(writes := answers.writes)
    {
      crash := PersistPendingMetadata();
      if crash.Some? {
        return;
      }
      progress := InitialProgress(sessionId, 0);
      var result := storage.WriteProgress(progress);
      NoteWrite(result);
      crash := CrashOfWrite(result);
    }

    // Write a snapshot unless it says what the current one says.
    method PersistIfChanged(next: Progress) returns (result: WriteResult)
      modifies storage`progress, storage`progressWrites
      ensures next == progress ==>
                result == Stored && storage.progress == old(storage.progress)
                && storage.progressWrites == old(storage.progressWrites)
      ensures next != progress ==>
                && (result == Rejected <==> !ValidProgress(next))
                && storage.progress == (if result == Stored then Some(next) else old(storage.progress))
                && storage.progressWrites
                   == old(storage.progressWrites)
                      + if result == Stored then [ProgressWrite(next, |storage.alerts|, storage.slicesStored)] else []
    {
      if next == progress {
        return Stored;
      }
      result := storage.WriteProgress(next);
    }

    /** Promote a pending session: a fresh snapshot with its total, then the status, then a running snapshot. */
    method StartRunning(total: nat) returns (crash: Option<Crash>)
      requires Standing(Pending)
      requires storage.alerts == [] && storage.slicesStored == 0 && Started(None)
      modifies `metadata, `progress, `answers, `met
      modifies storage`status, storage`statuses, storage`progress, storage`progressWrites
      ensures AllAccurate(storage.progressWrites) && StatusPath(storage.statuses) && NoneTerminal(storage.statuses)
      ensures storage.statuses == old(storage.statuses) || storage.statuses == old(storage.statuses) + [Running]
      ensures Started(crash) && answers == old(answers).(writes := answers.writes)
      ensures crash.None? ==>
                && Standing(Running)
                && progress == ProgressUpdate(InitialProgress(old(progress).sessionId, total), Running, "", None)
                && storage.progress == Some(progress)
    {
      crash := PersistTotal(total);
      if crash.Some? {
        return;
      }
      crash := Promote();
      if crash.Some? {
        return;
      }
      crash := PersistRunning();
    }

    // The fresh snapshot with its total.
    method PersistTotal(total: nat) returns (crash: Option<Crash>)
      requires Standing(Pending)
      requires storage.alerts == [] && storage.slicesStored == 0 && Started(None)
      modifies `progress, `answers, `met, storage`progress, storage`progressWrites
      ensures Standing(Pending) && progress == InitialProgress(old(progress).sessionId, total)
      ensures Started(crash) && answers == old(answers).(writes := answers.writes)
    {
      progress := InitialProgress(progress.sessionId, total);
      var result := storage.WriteProgress(progress);
      NoteWrite(result);
      crash := CrashOfWrite(result);
    }

    // The running snapshot.
    method PersistRunning() returns (crash: Option<Crash>)
      requires metadata == Running && Started(None)
      requires Underway(storage.statuses, metadata, progress.(status := Running), finalizations)
      requires progress.status == Pending
      requires AllAccurate(storage.progressWrites) && UpToDate(progress, |storage.alerts|, storage.slicesStored)
      modifies `progress, `answers, `met, storage`progress, storage`progressWrites
      ensures AllAccurate(storage.progressWrites)
      ensures Started(crash) && answers == old(answers).(writes := answers.writes)
      ensures crash.None? ==>
                && Standing(Running) && progress == ProgressUpdate(old(progress), Running, "", None)
                && storage.progress == Some(progress)
    {
      var next := ProgressUpdate(progress, metadata, "", None);
      var result := PersistIfChanged(next);
      NoteWrite(result);
      crash := CrashOfWrite(result);
      if result == Stored {
        progress := next;
      }
    }

    // The status write of the promotion.
    method Promote() returns (crash: Option<Crash>)
      requires Standing(Pending) && Started(None)
      modifies `metadata, `answers, `met, storage`status, storage`statuses
      ensures StatusPath(storage.statuses) && NoneTerminal(storage.statuses)
      ensures storage.statuses == old(storage.statuses) + if crash.None? then [Running] else []
      ensures metadata == if crash.None? then Running else Pending
      ensures Started(crash) && answers == old(answers).(writes := answers.writes)
    {
      PathGrows(storage.statuses, Running);
      var result := storage.WriteMetadata(Running);
      NoteWrite(result);
      crash := CrashOfWrite(result);
      if result == Stored {
        metadata := Running;
      }
    }

    // ---- Terminal state ----------------------------------------------------------------

    method FlushMetricStores() returns (crash: Option<Crash>)
    {
      crash := *;
    }

    /** Persist a terminal outcome: the status first, then the snapshot. */
    method Finalize(status: SessionStatus, flush: bool, error: Option<string>, fields: EndFields)
      returns (f: Finalization, ghost call: FinalCall)
      requires IsTerminal(status) && !IsTerminal(metadata) && progress.status == metadata && ValidProgress(progress)
      requires AllAccurate(storage.progressWrites)
      requires if status == Failed then NotAhead(progress, |storage.alerts|, storage.slicesStored)
               else UpToDate(progress, |storage.alerts|, storage.slicesStored)
      modifies `finalizations, storage`status, storage`statuses, storage`progress, storage`progressWrites
      ensures call == FinalCall(status, flush, call.replies, f) && finalizations == old(finalizations) + [call]
      ensures f == FinalizationOf(metadata, status, flush, progress, EndProgress(status, error, fields), call.replies)
      ensures status in AllowedTargets(metadata) ==> Legal(call)
      ensures AllAccurate(storage.progressWrites)
      ensures storage.statuses == StatusesAfter(old(storage.statuses), status, f)
      ensures f.Finalized? ==> storage.progress == Some(EndProgress(status, error, fields))
    {
      ghost var replies := ALL_WORK;
      f := Finalized;
      if flush {
        var crash := FlushMetricStores();
        replies := replies.(flush := crash);
        f := if crash.None? then Finalized else NotFlushed(crash.value);
      }
      if f.Finalized? {
        f, replies := WriteOutcome(status, error, fields);
      }
      if status in AllowedTargets(metadata) {
        AllowedIsLegal(metadata, status, flush, progress, EndProgress(status, error, fields), replies);
      }
      call := FinalCall(status, flush, replies, f);
      finalizations := finalizations + [call];
    }

    // The two writes of a finalizer.
    method WriteOutcome(status: SessionStatus, error: Option<string>, fields: EndFields)
      returns (f: Finalization, ghost replies: StoreReplies)
      requires IsTerminal(status) && !IsTerminal(metadata) && progress.status == metadata && ValidProgress(progress)
      requires AllAccurate(storage.progressWrites)
      requires if status == Failed then NotAhead(progress, |storage.alerts|, storage.slicesStored)
               else UpToDate(progress, |storage.alerts|, storage.slicesStored)
      modifies storage`status, storage`statuses, storage`progress, storage`progressWrites
      ensures replies.flush.None?
      ensures f == FinalizationOf(metadata, status, false, progress, EndProgress(status, error, fields), replies)
      ensures AllAccurate(storage.progressWrites)
      ensures storage.statuses == StatusesAfter(old(storage.statuses), status, f)
      ensures f.Finalized? ==> storage.progress == Some(EndProgress(status, error, fields))
    {
      f, replies := Finalized, ALL_WORK;
      if status !in AllowedTargets(metadata) {
        return IllegalTransition, replies;
      }
      var result := storage.WriteMetadata(status);
      if result.StoreError? {
        return StatusNotStored(result.crash), replies.(status := Some(result.crash));
      }
      result := PersistIfChanged(EndProgress(status, error, fields));
      if result.Rejected? {
        return SnapshotRejected, replies;
      }
      if result.StoreError? {
        return SnapshotNotStored(result.crash), replies.(snapshot := Some(result.crash));
      }
    }

    // The terminal snapshot for a status.
    function EndProgress(status: SessionStatus, error: Option<string>, fields: EndFields): Progress
      reads `progress
    {
      EndSnapshot(mode, progress, status, error, fields)
    }

    // The first finalization of a running session; if it holds, the variables take its outcome.
    method Finish(status: SessionStatus, fields: EndFields) returns (f: Finalization)
      requires Standing(Running) && IsTerminal(status)
      modifies `metadata, `progress, `finalizations
      modifies storage`status, storage`statuses, storage`progress, storage`progressWrites
      ensures |finalizations| == 1 && finalizations[0].outcome == f && finalizations[0].status == status
      ensures f.Finalized? <==>
                finalizations[0].replies == ALL_WORK && ValidProgress(old(EndProgress(status, None, fields)))
      ensures AllAccurate(storage.progressWrites)
      ensures f.Finalized? ==>
                && metadata == status && progress == old(EndProgress(status, None, fields))
                && storage.progress == Some(progress) && progress.status == status
      ensures !f.Finalized? ==> metadata == Running && progress == old(progress)
      ensures storage.statuses == old(storage.statuses) + if StoresStatus(f) then [status] else []
      ensures StatusPath(storage.statuses) && TerminalIsLast(storage.statuses)
      ensures NoneTerminal(storage.statuses) <==> NoneStores(finalizations)
      ensures StoresStatus(f) ==> SettledOnce(storage.statuses)
      ensures StoresStatus(f) ==> (f.SnapshotRejected? <==> !ValidProgress(old(EndProgress(status, None, fields))))
      ensures RaisesToHandler(finalizations[0]) && status != Failed ==> HandlerFinds(storage.statuses, finalizations)
    {
      ghost var statuses := storage.statuses;
      var next := EndProgress(status, None, fields);
      ghost var call;
      f, call := Finalize(status, true, None, fields);
      FirstFinalization(statuses, status, call);
      FinalizedIff(status, progress, next, call.replies);
      assert finalizations == [call];
      if f.Finalized? {
        metadata, progress := status, next;
      }
    }

    // Settle outside any handler: what the finalizer raises is what the run raises.
    method Settle(status: SessionStatus, fields: EndFields) returns (end: RunEnd)
      requires Standing(Running) && met == None && status == SettledStatus(answers)
      modifies `metadata, `progress, `finalizations
      modifies storage`status, storage`statuses, storage`progress, storage`progressWrites
      ensures Concluded(end) && Answered(end, ValidProgress(old(EndProgress(status, None, fields))))
      ensures |finalizations| == 1
      ensures end.Settled? ==> end.status == status && progress == old(EndProgress(status, None, fields))
      ensures storage.statuses
              == old(storage.statuses) + if StoresStatus(finalizations[0].outcome) then [status] else []
      ensures end == (if finalizations[0].outcome.Finalized? then Settled(status)
                      else Threw(CrashOf(finalizations[0].outcome).value))
      ensures StoresStatus(finalizations[0].outcome) ==>
                (finalizations[0].outcome.SnapshotRejected?
                 <==> !ValidProgress(old(EndProgress(status, None, fields))))
    {
      var f := Finish(status, fields);
      end := if CrashOf(f).Some? then Threw(CrashOf(f).value) else Settled(status);
    }

    // Settle inside the handler: if the finalizer raises what the handler takes, it finalizes again as failed.
    method SettleOrFail(status: SessionStatus, fields: EndFields, failFields: EndFields) returns (end: RunEnd)
      requires Standing(Running) && met == None && status == SettledStatus(answers)
      requires status == Completed ==> progress.processedCount == progress.totalCount
      modifies `metadata, `progress, `finalizations
      modifies storage`status, storage`statuses, storage`progress, storage`progressWrites
      ensures Concluded(end) && Answered(end, true)
      ensures end.Threw? || end == Settled(status)
      ensures Completed in storage.statuses ==> status == Completed
      ensures end.Settled? ==> progress == old(EndProgress(status, None, fields))
    {
      EndValidity(mode, progress, status, None, fields);
      var f := Finish(status, fields);
      var crash := CrashOf(f);
      if crash.None? {
        return Settled(status);
      }
      if crash.value == Unhandled {
        return Threw(Unhandled);
      }
      var text := ErrorText();
      end := Fail(crash.value, text, failFields);
    }

    // The handler of a run: persist the failure, then raise the error again.
    method Fail(crash: Crash, text: string, fields: EndFields) returns (end: RunEnd)
      requires met.Some? ==> Handled(met.value)
      requires HandlerFinds(storage.statuses, finalizations)
      requires if met.Some? then finalizations == [] else AsksFor(finalizations, None, answers) && |finalizations| == 1
      requires metadata == Running && progress.status == metadata && ValidProgress(progress)
      requires AllAccurate(storage.progressWrites)
      requires NotAhead(progress, |storage.alerts|, storage.slicesStored)
      modifies `finalizations, storage`status, storage`statuses, storage`progress, storage`progressWrites
      ensures Concluded(end) && end.Threw?
      ensures |finalizations| == old(|finalizations|) + 1 && old(finalizations) <= finalizations
      ensures storage.statuses == old(storage.statuses) || storage.statuses == old(storage.statuses) + [Failed]
    {
      ghost var statuses, before := storage.statuses, finalizations;
      var f;
      ghost var call;
      f, call := Finalize(Failed, false, Some(text), fields);
      HandlerKeepsLaw(statuses, before, call);
      end := Threw(if CrashOf(f).Some? then CrashOf(f).value else crash);
    }

    // An error that nothing handles leaves a running session as it is.
    lemma LeavesRunning(error: Break)
      requires Behind() && met == Some(error) && !Handled(error)
      ensures Concluded(Uncaught(error))
    {
    }

    // An error out of the loop: the handler fails the session if it takes the error.
    method FailOrLeave(error: Break, text: string, fields: EndFields) returns (end: RunEnd)
      requires met == Some(error) && Behind()
      modifies `finalizations, storage`status, storage`statuses, storage`progress, storage`progressWrites
      ensures Concluded(end) && !end.Settled?
      ensures storage.statuses == old(storage.statuses) || storage.statuses == old(storage.statuses) + [Failed]
    {
      if Handled(error) {
        end := Fail(CrashOfBreak(error), text, fields);
      } else {
        LeavesRunning(error);
        end := Uncaught(error);
      }
    }

    // ---- One slice ---------------------------------------------------------------------

    // Look for cancel intent before a slice.
    method LookBeforeSlice() returns (look: Look)
      requires Noted() && met == None && !SawIntent(answers)
      modifies `answers, `met, storage`cancelRequested
      ensures answers == old(answers).(looks := answers.looks) && Noted()
      ensures met == if look.LookFailed? then Some(InLook(look.crash)) else None
      ensures old(storage.cancelRequested) ==> storage.cancelRequested && !look.NoIntent?
      ensures look.Intent? ==> storage.cancelRequested
      ensures LookedLast(look) && (SawIntent(answers) <==> look == Intent)
    {
      look := storage.IsCancelRequested();
      BrokeInLook(answers, analyzed, look);
      LooksOnce(answers, look);
      answers := answers.(looks := answers.looks + [look]);
      met := if look.LookFailed? then Some(InLook(look.crash)) else None;
    }

    // The last look for intent answered this.
    ghost predicate LookedLast(look: Look)
      reads `answers
    {
      answers.looks != [] && answers.looks[|answers.looks| - 1] == look
    }

    /** Append the rows of one slice: the results first, then the alerts, up to the first failure. */
    method PersistBundle(bundle: Bundle) returns (result: WriteResult)
      modifies storage`results, storage`alerts, storage`slicesStored
      ensures result == Stored ==>
                && storage.results == old(storage.results) + bundle.resultDetectors
                && storage.alerts == old(storage.alerts) + bundle.alerts
                && storage.slicesStored == old(storage.slicesStored) + 1
      ensures result != Stored ==>
                && old(storage.results) <= storage.results <= old(storage.results) + bundle.resultDetectors
                && old(storage.alerts) <= storage.alerts <= old(storage.alerts) + bundle.alerts
                && (storage.alerts != old(storage.alerts) ==>
                      storage.results == old(storage.results) + bundle.resultDetectors)
                && storage.slicesStored == old(storage.slicesStored)
    {
      for i := 0 to |bundle.resultDetectors|
        invariant storage.results == old(storage.results) + bundle.resultDetectors[..i]
        invariant storage.alerts == old(storage.alerts) && storage.slicesStored == old(storage.slicesStored)
      {
        result := storage.AppendResult(bundle.resultDetectors[i]);
        if result != Stored {
          return;
        }
        assert bundle.resultDetectors[..i + 1] == bundle.resultDetectors[..i] + [bundle.resultDetectors[i]];
      }
      assert bundle.resultDetectors[..|bundle.resultDetectors|] == bundle.resultDetectors;
      for i := 0 to |bundle.alerts|
        invariant storage.results == old(storage.results) + bundle.resultDetectors
        invariant storage.alerts == old(storage.alerts) + bundle.alerts[..i]
        invariant storage.slicesStored == old(storage.slicesStored)
      {
        result := storage.AppendAlert(bundle.alerts[i]);
        if result != Stored {
          return;
        }
        assert bundle.alerts[..i + 1] == bundle.alerts[..i] + [bundle.alerts[i]];
      }
      assert bundle.alerts[..|bundle.alerts|] == bundle.alerts;
      storage.slicesStored := storage.slicesStored + 1;
      result := Stored;
    }

    // Store the rows of a slice and report it.
    method StoreSlice(slice: Slice, bundle: Bundle, processed: nat, total: nat)
      returns (rows: WriteResult, snapshot: WriteResult)
      requires Standing(Running) && processed == progress.processedCount + 1 <= total
      modifies `progress, storage`results, storage`alerts, storage`slicesStored
      modifies storage`progress, storage`progressWrites
      ensures Behind()
      ensures rows == Stored ==>
                && storage.results == old(storage.results) + bundle.resultDetectors
                && storage.alerts == old(storage.alerts) + bundle.alerts
      ensures rows != Stored ==>
                && snapshot == Stored
                && old(storage.results) <= storage.results <= old(storage.results) + bundle.resultDetectors
                && old(storage.alerts) <= storage.alerts <= old(storage.alerts) + bundle.alerts
                && (storage.alerts != old(storage.alerts) ==>
                      storage.results == old(storage.results) + bundle.resultDetectors)
      ensures if rows == Stored && snapshot == Stored then
                && Standing(Running) && storage.progress == Some(progress)
                && progress.processedCount == processed && progress.totalCount == total
                && progress.currentItem == Some(slice.sourceName)
                && progress.latestDetectors == bundle.resultDetectors
                && |storage.progressWrites| == |old(storage.progressWrites)| + 1
              else progress == old(progress)
    {
      snapshot := Stored;
      rows := PersistBundle(bundle);
      if rows != Stored {
        return;
      }
      var next := SliceProgress(progress, processed, total, slice.sourceName, bundle, metadata);
      snapshot := PersistIfChanged(next);
      if snapshot == Stored {
        progress := next;
      }
    }

    /**
     Analyze a slice, store its rows, and only then report it.  What it raises is what the analyzers
     replied or a write was answered; intent may land before the analysis and during it.
     */
    method ProcessSlice(slice: Slice, processed: nat, total: nat) returns (error: Option<Break>, ghost a: Analyzed)
      requires Standing(Running) && Noted() && met == None && NoneLate(analyzed) && LookedLast(NoIntent)
      requires HoldsRows(storage.results, storage.alerts, analyzed)
      requires processed == progress.processedCount + 1 <= total
      modifies `progress, `analyzed, `met, storage`results, storage`alerts, storage`slicesStored
      modifies storage`progress, storage`progressWrites, storage`cancelRequested
      ensures analyzed == old(analyzed) + [a] && a.late == old(storage.cancelRequested)
      ensures old(storage.cancelRequested) ==> storage.cancelRequested
      ensures a.slice == slice && error == SliceBreak(a) == met
      ensures Behind() && Noted() && (storage.cancelRequested || NoneLate(analyzed))
      ensures error.Some? || (Standing(Running) && HoldsRows(storage.results, storage.alerts, analyzed))
      ensures error.None? ==>
                && storage.progress == Some(progress)
                && progress.processedCount == processed && progress.totalCount == total
                && progress.currentItem == Some(slice.sourceName)
                && a.reply.AnalyzerBundle? && progress.latestDetectors == a.reply.bundle.resultDetectors
                && |storage.progressWrites| == |old(storage.progressWrites)| + 1
      ensures error.Some? ==> progress == old(progress)
    {
      ghost var late, results, alerts := storage.cancelRequested, storage.results, storage.alerts;
      var reply := AnalyzerMeets();
      storage.OthersAct();
      var rows, snapshot := Stored, Stored;
      match reply {
        case AnalyzerCrash(crash) =>
          error := Some(InAnalyzer(crash));
        case AnalyzerBundle(bundle) =>
          rows, snapshot := StoreSlice(slice, bundle, processed, total);
          var crash := CrashOfWrite(if rows != Stored then rows else snapshot);
          error := if crash.Some? then Some(InStore(crash.value)) else None;
      }
      a := Analyzed(slice, answers.looks[|answers.looks| - 1], late, reply, rows, snapshot);
      BrokeInSlice(answers, analyzed, a);
      OneMoreHeeded(analyzed, a);
      RowsGrow(analyzed, a, results, alerts, storage.results, storage.alerts);
      analyzed := analyzed + [a];
      met := error;
    }

    // ---- Local files -------------------------------------------------------------------

    // The variables where the loop over local slices stands.
    ghost predicate InOrder(slices: seq<Slice>, i: nat)
      reads `metadata, `progress, `finalizations, `answers, `analyzed, `met, storage`statuses, storage`progressWrites
      reads storage`results, storage`alerts, storage`slicesStored
    {
      && Standing(Running) && Noted() && met == None && HoldsRows(storage.results, storage.alerts, analyzed)
      && i <= |slices| && progress.processedCount == i && progress.totalCount == |slices|
      && |analyzed| == i && Analyzes(analyzed, slices) && !SawIntent(answers)
    }

    /**
     Process a finite list of slices.  Completion means every one of them was analyzed and stored;
     intent durable when a slice's turn comes keeps it from being analyzed.
     */
    method ProcessDiscovered(slices: seq<Slice>) returns (end: RunEnd)
      requires InOrder(slices, 0) && analyzed == []
      modifies `metadata, `progress, `finalizations, `analyzed, `answers, `met
      modifies storage`cancelRequested, storage`results, storage`alerts, storage`slicesStored
      modifies storage`status, storage`statuses, storage`progress, storage`progressWrites
      ensures Concluded(end) && Answered(end, true) && Noted() && Analyzes(analyzed, slices)
      ensures end != Settled(Completed)
              || (&& AnalyzesAll(analyzed, slices) && HoldsRows(storage.results, storage.alerts, analyzed)
                  && progress.processedCount == progress.totalCount == storage.slicesStored == |slices|)
      ensures !old(storage.cancelRequested) || slices == [] || (analyzed == [] && Completed !in storage.statuses)
      ensures storage.SeenLog() == old(storage.SeenLog()) && answers == old(answers).(looks := answers.looks)
    {
      var ended := ConsumeSlices(slices);
      if ended.Some? {
        end := ended.value;
      } else {
        end := CompleteSlices(slices);
      }
    }

    // All slices are processed.
    method CompleteSlices(slices: seq<Slice>) returns (end: RunEnd)
      requires InOrder(slices, |slices|)
      modifies `metadata, `progress, `finalizations
      modifies storage`status, storage`statuses, storage`progress, storage`progressWrites
      ensures Concluded(end) && Answered(end, true) && Noted() && AnalyzesAll(analyzed, slices)
      ensures HoldsRows(storage.results, storage.alerts, analyzed)
      ensures end != Settled(Completed)
              || progress.processedCount == progress.totalCount == storage.slicesStored == |slices|
    {
      end := SettleOrFail(Completed, NO_FIELDS, NO_FIELDS);
    }

    // The loop over the slices.
    method ConsumeSlices(slices: seq<Slice>) returns (ended: Option<RunEnd>)
      requires InOrder(slices, 0) && analyzed == []
      modifies `metadata, `progress, `finalizations, `analyzed, `answers, `met
      modifies storage`cancelRequested, storage`results, storage`alerts, storage`slicesStored
      modifies storage`status, storage`statuses, storage`progress, storage`progressWrites
      ensures answers == old(answers).(looks := answers.looks)
      ensures ended.Some? || InOrder(slices, |slices|)
      ensures ended.None? || LeftLocally(slices, ended.value)
      ensures old(storage.cancelRequested) && slices != [] ==> ended.Some? && analyzed == []
    {
      ended := None;
      var i := 0;
      while i < |slices| && ended.None?
        invariant ended.Some? || (InOrder(slices, i) && (storage.cancelRequested || NoneLate(analyzed)))
        invariant ended.None? || LeftLocally(slices, ended.value)
        invariant old(storage.cancelRequested) ==>
                    storage.cancelRequested && analyzed == [] && (ended.None? ==> i == 0)
        invariant answers == old(answers).(looks := answers.looks)
        decreases |slices| - i, if ended.None? then 1 else 0
      {
        ended := TakeDiscovered(slices, i);
        i := i + 1;
      }
    }

    // One body of the loop: look for intent, then process the slice.
    method TakeDiscovered(slices: seq<Slice>, i: nat) returns (ended: Option<RunEnd>)
      requires InOrder(slices, i) && (storage.cancelRequested || NoneLate(analyzed)) && i < |slices|
      modifies `metadata, `progress, `finalizations, `analyzed, `answers, `met
      modifies storage`cancelRequested, storage`results, storage`alerts, storage`slicesStored
      modifies storage`status, storage`statuses, storage`progress, storage`progressWrites
      ensures answers == old(answers).(looks := answers.looks)
      ensures ended.Some? || (InOrder(slices, i + 1) && (storage.cancelRequested || NoneLate(analyzed)))
      ensures ended.None? || LeftLocally(slices, ended.value)
      ensures old(storage.cancelRequested) ==> storage.cancelRequested && ended.Some? && analyzed == old(analyzed)
    {
      var look := LookBeforeSlice();
      if look.NoIntent? {
        ended := StoreDiscovered(slices, i);
      } else {
        var end := LeaveAt(look);
        ended := Some(end);
      }
    }

    // Leave the loop where a look saw intent or failed.
    method LeaveAt(look: Look) returns (end: RunEnd)
      requires Standing(Running) && !look.NoIntent? && (SawIntent(answers) <==> look == Intent)
      requires met == if look.LookFailed? then Some(InLook(look.crash)) else None
      modifies `metadata, `progress, `finalizations
      modifies storage`status, storage`statuses, storage`progress, storage`progressWrites
      ensures Concluded(end) && Answered(end, true) && end != Settled(Completed) && Completed !in storage.statuses
    {
      match look {
        case Intent =>
          end := SettleOrFail(Cancelled, NO_FIELDS, NO_FIELDS);
        case LookFailed(crash) =>
          var text := ErrorText();
          end := FailOrLeave(InLook(crash), text, NO_FIELDS);
      }
    }

    // Process the next slice; what it raises fails the session unless nothing handles it.
    method StoreDiscovered(slices: seq<Slice>, i: nat) returns (ended: Option<RunEnd>)
      requires InOrder(slices, i) && NoneLate(analyzed) && LookedLast(NoIntent) && i < |slices|
      modifies `progress, `finalizations, `analyzed, `met
      modifies storage`cancelRequested, storage`results, storage`alerts, storage`slicesStored
      modifies storage`status, storage`statuses, storage`progress, storage`progressWrites
      ensures old(storage.cancelRequested) ==> storage.cancelRequested
      ensures ended.Some? || (InOrder(slices, i + 1) && (storage.cancelRequested || NoneLate(analyzed)))
      ensures ended.None? || LeftLocally(slices, ended.value)
    {
      var error;
      ghost var a;
      ghost var before := analyzed;
      error, a := ProcessSlice(slices[i], i + 1, |slices|);
      AnalyzedNext(before, a, slices);
      if error.None? {
        return None;
      }
      var text := ErrorText();
      var end := FailOrLeave(error.value, text, NO_FIELDS);
      ended := Some(end);
    }

    // The loop over local slices ended before its end.
    ghost predicate LeftLocally(slices: seq<Slice>, end: RunEnd)
      reads `finalizations, `progress, `answers, `analyzed, `met, storage`results, storage`alerts
      reads storage`statuses, storage`progress, storage`progressWrites
    {
      && Concluded(end) && Answered(end, true) && end != Settled(Completed) && Completed !in storage.statuses
      && Noted() && Analyzes(analyzed, slices)
    }

    // ---- Live streams ------------------------------------------------------------------

    // Delete the file of a processed slice, whatever became of it, and count the result.
    method RecordCleanup(stream: SliceStream, slice: Slice)
      requires stream.Iterating() && stream.OnlyFileOf(slice)
      modifies `cleanupSuccesses, `cleanupFailures
      modifies stream.loader.tempDir`files, stream.loader.tempDir`failedDeletes
      ensures stream.Iterating() && stream.Clean()
      ensures cleanupSuccesses + cleanupFailures == old(cleanupSuccesses + cleanupFailures) + 1
      ensures old(stream.loader.tempDir.failedDeletes) <= stream.loader.tempDir.failedDeletes
    {
      var deleted := stream.loader.tempDir.Delete(slice.path);
      if deleted {
        cleanupSuccesses := cleanupSuccesses + 1;
      } else {
        cleanupFailures := cleanupFailures + 1;
      }
    }

    function StreamFields(stream: SliceStream, reason: string): EndFields
      reads stream.loader
    {
      EndFields(Some(reason), stream.loader.TelemetrySnapshot().terminalFailureReason)
    }

    // The variables between two slices, a number of slices after the start.
    ghost predicate Ready(start: System)
      reads `metadata, `progress, `finalizations, `answers, `analyzed, `met, storage`statuses, storage`progressWrites
      reads storage`results, storage`alerts, storage`slicesStored
    {
      met == None && Noted() && AllStored(start) && answers.streamEnd.None? && !SawIntent(answers)
    }

    // The same where a slice was just yielded, and its key counted.
    ghost predicate AtSlice(stream: SliceStream, slice: Slice, start: System)
      reads `metadata, `progress, `finalizations, `answers, `analyzed, `met, storage`statuses, storage`progressWrites
      reads storage`results, storage`alerts, storage`slicesStored, stream`system, stream.loader`persistedKeys
    {
      && Ready(start) && stream.system.end.None?
      && IsNext(analyzed, slice, stream.system.history.yielded)
      && |stream.loader.persistedKeys| == |start.ledger.seen| + |analyzed| + 1
    }

    // Every analyzed slice is stored and counted, the keys read at the start in the total.
    ghost predicate AllStored(start: System)
      reads `metadata, `progress, `finalizations, `analyzed, storage`statuses, storage`progressWrites
      reads storage`results, storage`alerts, storage`slicesStored
    {
      && Standing(Running) && HoldsRows(storage.results, storage.alerts, analyzed)
      && progress.processedCount == |analyzed|
      && progress.totalCount == (if analyzed == [] then 0 else |start.ledger.seen| + |analyzed|)
    }

    // The variables where the loop over a stream stands.
    ghost predicate InStep(stream: SliceStream, start: System)
      reads `metadata, `progress, `finalizations, `answers, `analyzed, `met, storage`statuses, storage`progressWrites
      reads storage`results, storage`alerts, storage`slicesStored, stream`system
    {
      Ready(start) && stream.system.end.None? && AnalyzesAll(analyzed, stream.system.history.yielded)
    }

    // Process a yielded slice and delete its file.
    method TakeSlice(stream: SliceStream, slice: Slice, ghost start: System) returns (error: Option<Break>)
      requires stream.loader.storage == storage && stream.Iterating() && stream.OnlyFileOf(slice)
      requires AtSlice(stream, slice, start) && NoneLate(analyzed) && LookedLast(NoIntent)
      modifies `progress, `analyzed, `met, `cleanupSuccesses, `cleanupFailures
      modifies storage`cancelRequested, storage`results, storage`alerts, storage`slicesStored
      modifies storage`progress, storage`progressWrites
      modifies stream.loader.tempDir`files, stream.loader.tempDir`failedDeletes
      ensures stream.Iterating() && stream.Clean()
      ensures old(storage.cancelRequested) ==> storage.cancelRequested
      ensures old(stream.loader.tempDir.failedDeletes) <= stream.loader.tempDir.failedDeletes
      ensures Behind() && Noted() && (storage.cancelRequested || NoneLate(analyzed)) && error == met
      ensures Analyzes(analyzed, stream.system.history.yielded)
      ensures error.Some? || InStep(stream, start)
    {
      var processed := progress.processedCount + 1;
      var accepted := stream.loader.AcceptedSliceCount();
      ghost var a;
      ghost var before := analyzed;
      error, a := ProcessSlice(slice, processed, if accepted > processed then accepted else processed);
      AnalyzedNext(before, a, stream.system.history.yielded);
      RecordCleanup(stream, slice);
    }

    // A cancelled return out of the loop: the slice's file goes first, then the status.
    method CancelDuring(stream: SliceStream, slice: Slice) returns (end: RunEnd)
      requires stream.loader.storage == storage && stream.Iterating() && stream.OnlyFileOf(slice)
      requires Standing(Running) && met == None && SawIntent(answers)
      modifies `metadata, `progress, `finalizations, `cleanupSuccesses, `cleanupFailures
      modifies storage`status, storage`statuses, storage`progress, storage`progressWrites
      modifies stream.loader, stream.loader.queue
      modifies stream.loader.tempDir`files, stream.loader.tempDir`failedDeletes
      ensures Concluded(end) && Answered(end, true) && Completed !in storage.statuses
      ensures end.Threw? || end == Settled(Cancelled)
      ensures end.Settled? ==>
                progress == old(EndProgress(Cancelled, None, StreamFields(stream, CANCEL_DURING_PROCESSING)))
      ensures stream.loader.closed && stream.Clean()
      ensures old(stream.loader.tempDir.failedDeletes) <= stream.loader.tempDir.failedDeletes
      ensures stream.loader.tempDir.OneFileSoFar(stream.loader.settings.maxFetchBytes)
      ensures stream.loader.requested == old(stream.loader.requested)
    {
      RecordCleanup(stream, slice);
      var fields := StreamFields(stream, CANCEL_DURING_PROCESSING);
      var failFields := StreamFields(stream, TERMINAL_FAILURE);
      end := SettleOrFail(Cancelled, fields, failFields);
      stream.Dispose();
    }

    // Where the loop leaves the session: drained, returned out of, or broken off by the error the
    // world answered with.
    ghost predicate Left(stream: SliceStream, loop: LoopEnd, start: System)
      reads this, storage, stream, stream.loader
    {
      || (loop.LoopDone? && LeftDrained(stream, loop.reason, start))
      || (loop.LoopReturned? && LeftReturned(stream, loop.end))
      || (loop.LoopBroken? && LeftBroken(stream, loop.error))
    }

    ghost predicate LeftDrained(stream: SliceStream, reason: StopReason, start: System)
      reads this, storage, stream, stream.loader
    {
      && Noted() && answers.streamEnd == stream.system.end == Some(Drained(reason))
      && AtDrained(stream, start)
      && stream.loader.TelemetrySnapshot().stopReason == Some(reason)
      && (reason == ExplicitCancel ==> storage.cancelRequested)
    }

    ghost predicate LeftReturned(stream: SliceStream, end: RunEnd)
      reads `finalizations, `progress, `answers, `analyzed, `met, storage`results, storage`alerts
      reads storage`statuses, storage`progress, storage`progressWrites, stream`system
    {
      && Noted() && answers.streamEnd == stream.system.end && Analyzes(analyzed, stream.system.history.yielded)
      && Concluded(end) && Answered(end, true) && SawIntent(answers)
      && Completed !in storage.statuses && (end.Threw? || end == Settled(Cancelled))
    }

    ghost predicate LeftBroken(stream: SliceStream, error: Break)
      reads `metadata, `progress, `finalizations, `answers, `analyzed, `met, storage`statuses, storage`progressWrites
      reads storage`results, storage`alerts, storage`slicesStored, stream`system
    {
      && Noted() && answers.streamEnd == stream.system.end && Analyzes(analyzed, stream.system.history.yielded)
      && Behind() && met == Some(error)
    }

    // The variables after a stream that drained.
    ghost predicate AtDrained(stream: SliceStream, start: System)
      reads `metadata, `progress, `finalizations, `answers, `analyzed, `met, storage`statuses, storage`progressWrites
      reads storage`results, storage`alerts, storage`slicesStored, stream`system
    {
      met == None && AllStored(start) && AnalyzesAll(analyzed, stream.system.history.yielded) && !SawIntent(answers)
    }

    // One body of the loop: look for intent, then process the slice.
    method HandleSlice(stream: SliceStream, slice: Slice, ghost start: System) returns (loop: Option<LoopEnd>)
      requires stream.loader.storage == storage && stream.Iterating() && stream.OnlyFileOf(slice)
      requires AtSlice(stream, slice, start) && (storage.cancelRequested || NoneLate(analyzed))
      modifies this, storage`cancelRequested, storage`results, storage`alerts, storage`slicesStored
      modifies storage`status, storage`statuses, storage`progress, storage`progressWrites
      modifies stream.loader, stream.loader.queue
      modifies stream.loader.tempDir`files, stream.loader.tempDir`failedDeletes
      ensures stream.loader.requested == old(stream.loader.requested)
      ensures answers == old(answers).(looks := answers.looks)
      ensures old(storage.cancelRequested) ==> storage.cancelRequested && loop.Some? && analyzed == old(analyzed)
      ensures stream.loader.tempDir.OneFileSoFar(stream.loader.settings.maxFetchBytes)
      ensures loop.Some? || (stream.Iterating() && stream.Clean() && InStep(stream, start))
      ensures loop.Some? || storage.cancelRequested || NoneLate(analyzed)
      ensures loop.None? || (stream.loader.closed && !loop.value.LoopDone? && Left(stream, loop.value, start))
      ensures stream.Clean() || (loop.Some? && loop.value.LoopBroken? && loop.value.error.InLook?)
    {
      var look := LookBeforeSlice();
      match look {
        case NoIntent =>
          var error := TakeSlice(stream, slice, start);
          if error.None? {
            return None;
          }
          loop := BreakOff(stream, error.value, start);
        case Intent =>
          var end := CancelDuring(stream, slice);
          loop := Some(LoopReturned(end));
        case LookFailed(crash) =>
          loop := BreakOff(stream, InLook(crash), start);
      }
    }

    // Leave the loop by an error: the generator is dropped.
    method BreakOff(stream: SliceStream, error: Break, ghost start: System) returns (loop: Option<LoopEnd>)
      requires stream.Iterating() && LeftBroken(stream, error)
      modifies stream.loader, stream.loader.queue
      ensures stream.loader.closed && stream.loader.requested == old(stream.loader.requested)
      ensures stream.loader.tempDir.OneFileSoFar(stream.loader.settings.maxFetchBytes)
      ensures loop.Some? && loop.value.LoopBroken? && Left(stream, loop.value, start)
    {
      stream.Dispose();
      var text := ErrorText();
      loop := Some(LoopBroken(error, text));
    }

    // Advance the stream after some ticks of its run; the loader has counted every key and slice.
    static method NextOf(stream: SliceStream, ghost start: System, ghost before: seq<Tick>)
      returns (effect: Effect, ghost ticks: seq<Tick>)
      requires stream.Iterating() && stream.Clean() && start.history.yielded == []
      requires Ran(stream.loader.settings, start, before, stream.system)
      modifies stream, stream.loader, stream.loader.queue, stream.loader.tempDir
      modifies stream.loader.storage`cancelRequested, stream.loader.storage`seenLines, stream.loader.storage`seenTail
      ensures !effect.Again? && !effect.Killed?
      ensures Ran(stream.loader.settings, start, ticks, stream.system)
      ensures stream.system.history.yielded
              == old(stream.system.history.yielded) + if effect.Yield? then [effect.slice] else []
      ensures stream.system.ledger.log == stream.loader.storage.SeenLog()
      ensures effect.Yield? ==>
                && stream.Iterating() && stream.OnlyFileOf(effect.slice)
                && LessWork(stream.loader.settings, stream.system, old(stream.system))
                && |stream.loader.persistedKeys| == |start.ledger.seen| + |stream.system.history.yielded|
      ensures stream.system.end == EndOf(effect)
      ensures !effect.Yield? ==>
                && stream.loader.closed
                && stream.loader.TelemetrySnapshot().stopReason == if effect.Finish? then Some(effect.reason) else None
      ensures effect.Finish? || effect.Fail? ==> stream.Clean()
      ensures effect == Effect.Finish(ExplicitCancel) ==> stream.loader.storage.cancelRequested
      ensures old(stream.loader.storage.cancelRequested) ==> stream.loader.storage.cancelRequested && !effect.Yield?
      ensures stream.loader.tempDir.OneFileSoFar(stream.loader.settings.maxFetchBytes)
      ensures |ticks| >= |before|
      ensures stream.loader.RequestsWithin(RequestsTo(|ticks| - |before|, stream.loader.PollLimit()))
    {
      ghost var more, was := [], stream.system;
      effect, more := stream.Next();
      ticks := SliceStream.JoinTicks(stream.loader.settings, start, before, was, more, stream.system);
      RanWhole(stream.loader.settings, start, ticks, stream.system);
      SeenCountsYields(stream.loader.settings, start, ticks);
    }

    // Between two turns of the loop, or after its last.
    ghost predicate AtTurn(stream: SliceStream, start: System, ended: Option<LoopEnd>)
      reads this, storage, stream, stream.loader, stream.loader.queue, stream.loader.storage, stream.loader.tempDir
    {
      || (&& ended.None? && stream.Iterating() && stream.Clean() && InStep(stream, start)
          && (storage.cancelRequested || NoneLate(analyzed)))
      || (&& ended.Some? && stream.loader.closed && Left(stream, ended.value, start)
          && (ended.value.LoopBroken? || stream.Clean()))
    }

    // Where an advance leaves the session: at a slice, or after the last one.
    ghost predicate AtEffect(stream: SliceStream, effect: Effect, start: System)
      reads this, storage, stream, stream.loader, stream.loader.queue, stream.loader.storage, stream.loader.tempDir
    {
      || (&& effect.Yield? && stream.Iterating() && stream.OnlyFileOf(effect.slice)
          && AtSlice(stream, effect.slice, start) && (storage.cancelRequested || NoneLate(analyzed)))
      || (&& !effect.Yield? && AtEnd(stream, effect, start) && stream.loader.closed
          && stream.loader.tempDir.OneFileSoFar(stream.loader.settings.maxFetchBytes)
          && (effect.Escape? || stream.Clean()))
    }

    ghost predicate AtEnd(stream: SliceStream, effect: Effect, start: System)
      reads this, storage, stream, stream.loader
    {
      && Ready(start) && AnalyzesAll(analyzed, stream.system.history.yielded)
      && (effect.Finish? || effect.Fail? || effect.Escape?) && stream.system.end == EndOf(effect)
      && stream.loader.TelemetrySnapshot().stopReason == (if effect.Finish? then Some(effect.reason) else None)
      && (effect == Effect.Finish(ExplicitCancel) ==> storage.cancelRequested)
    }

    // Process a yielded slice, or note how the stream ended.
    method ReactTo(stream: SliceStream, effect: Effect, ghost start: System) returns (ended: Option<LoopEnd>)
      requires stream.loader.storage == storage && AtEffect(stream, effect, start)
      modifies this, storage`cancelRequested, storage`results, storage`alerts, storage`slicesStored
      modifies storage`status, storage`statuses, storage`progress, storage`progressWrites
      modifies stream.loader, stream.loader.queue
      modifies stream.loader.tempDir`files, stream.loader.tempDir`failedDeletes
      ensures stream.loader.requested == old(stream.loader.requested)
      ensures answers == old(answers).(looks := answers.looks, streamEnd := answers.streamEnd)
      ensures old(storage.cancelRequested) ==>
                storage.cancelRequested && ended.Some? && analyzed == old(analyzed)
      ensures stream.loader.tempDir.OneFileSoFar(stream.loader.settings.maxFetchBytes)
      ensures AtTurn(stream, start, ended) && (effect.Yield? || ended.Some?)
    {
      if effect.Yield? {
        ended := HandleSlice(stream, effect.slice, start);
      } else {
        var loop := EndStream(stream, effect, start);
        ended := Some(loop);
      }
    }

    // The stream ended: note how.
    method EndStream(stream: SliceStream, effect: Effect, ghost start: System) returns (loop: LoopEnd)
      requires AtEnd(stream, effect, start)
      modifies `answers, `met
      ensures answers == old(answers).(streamEnd := stream.system.end)
      ensures Left(stream, loop, start)
      ensures loop.LoopBroken? || (effect.Finish? && loop.LoopDone?)
    {
      BrokeInStream(answers, analyzed, stream.system.end.value);
      answers := answers.(streamEnd := stream.system.end);
      met := if effect.Finish? then None else Some(InStream(stream.system.end.value));
      match effect {
        case Finish(reason) =>
          loop := LoopDone(reason);
        case Fail(message) =>
          loop := LoopBroken(InStream(GaveUp(message)), message);
        case Escape(crash) =>
          var text := ErrorText();
          loop := LoopBroken(InStream(Escaped(crash)), text);
      }
    }

    // One turn of the loop: the next slice, processed, or the end.
    method TurnOnce(stream: SliceStream, ghost start: System, ghost before: seq<Tick>)
      returns (ended: Option<LoopEnd>, ghost ticks: seq<Tick>)
      requires stream.loader.storage == storage && AtTurn(stream, start, None) && start.history.yielded == []
      requires Ran(stream.loader.settings, start, before, stream.system)
      modifies this, storage, stream, stream.loader, stream.loader.queue, stream.loader.tempDir
      ensures Ran(stream.loader.settings, start, ticks, stream.system)
      ensures stream.system.ledger.log == storage.SeenLog()
      ensures answers == old(answers).(looks := answers.looks, streamEnd := answers.streamEnd)
      ensures stream.loader.tempDir.OneFileSoFar(stream.loader.settings.maxFetchBytes)
      ensures |ticks| >= |before|
      ensures stream.loader.RequestsWithin(RequestsTo(|ticks| - |before|, stream.loader.PollLimit()))
      ensures AtTurn(stream, start, ended)
      ensures ended.Some? || LessWork(stream.loader.settings, stream.system, old(stream.system))
      ensures old(storage.cancelRequested) ==>
                storage.cancelRequested && ended.Some? && analyzed == old(analyzed)
    {
      var effect;
      ghost var yielded := stream.system.history.yielded;
      effect, ticks := NextOf(stream, start, before);
      if effect.Yield? {
        AnalyzesOneMore(analyzed, yielded, effect.slice);
      }
      ended := ReactTo(stream, effect, start);
    }

    /**
     The loop over the stream, as one run of the ingest system.  It ends on every run, by the
     retries, refreshes and pending segments the stream has left.
     */
    method ConsumeStream(stream: SliceStream, ghost start: System) returns (loop: LoopEnd, ghost ticks: seq<Tick>)
      requires stream.loader.storage == storage && AtTurn(stream, start, None)
      requires stream.system == start && analyzed == []
      modifies this, storage, stream, stream.loader, stream.loader.queue, stream.loader.tempDir
      ensures Ran(stream.loader.settings, start, ticks, stream.system)
      ensures stream.system.ledger.log == storage.SeenLog()
      ensures answers == old(answers).(looks := answers.looks, streamEnd := answers.streamEnd)
      ensures stream.loader.tempDir.OneFileSoFar(stream.loader.settings.maxFetchBytes)
      ensures stream.loader.RequestsWithin(RequestsTo(|ticks|, stream.loader.PollLimit()))
      ensures AtTurn(stream, start, Some(loop))
      ensures old(storage.cancelRequested) ==> storage.cancelRequested && analyzed == []
    {
      ticks := [];
      assert start.history.yielded == [];
      RanNothing(stream.loader.settings, start);
      var ended := None;
      while ended.None?
        invariant AtTurn(stream, start, ended)
        invariant stream.system.ledger.log == storage.SeenLog()
        invariant stream.loader.tempDir.OneFileSoFar(stream.loader.settings.maxFetchBytes)
        invariant answers == old(answers).(looks := answers.looks, streamEnd := answers.streamEnd)
        invariant Ran(stream.loader.settings, start, ticks, stream.system)
        invariant stream.loader.RequestsWithin(RequestsTo(|ticks|, stream.loader.PollLimit()))
        invariant old(storage.cancelRequested) ==> storage.cancelRequested && analyzed == []
        decreases ended.None?, RetriesLeft(stream.loader.settings, stream.system),
                  RefreshesLeft(stream.loader.settings, stream.system),
                  |stream.system.live.queue.pending|
      {
        ghost var before := |ticks|;
        ended, ticks := TurnOnce(stream, start, ticks);
        RequestsAdd(before, |ticks| - before, stream.loader.PollLimit());
      }
      loop := ended.value;
    }

    // Connect the stream; what it raises instead is handled if it is of an expected kind.
    method ConnectStream(stream: SliceStream) returns (ended: Option<RunEnd>)
      requires stream.loader.storage == storage && stream.loader.CancelHonest() && mode.ApiStream?
      requires stream.loader.tempDir.OneFileSoFar(stream.loader.settings.maxFetchBytes)
      requires Promoted(None)
      modifies `finalizations, `answers, `met
      modifies storage`status, storage`statuses, storage`progress, storage`progressWrites
      modifies storage`cancelRequested, stream, stream.loader, stream.loader.queue, stream.loader.tempDir
      ensures Noted() && Completed !in storage.statuses
      ensures stream.loader.tempDir.OneFileSoFar(stream.loader.settings.maxFetchBytes)
      ensures stream.loader.RequestsWithin(stream.loader.PollLimit())
      ensures old(storage.cancelRequested) ==> storage.cancelRequested && ended.Some?
      ensures answers == old(answers).(opening := answers.opening) && answers.opening.Some?
      ensures ended.None? <==> answers.opening == Some(Opened)
      ensures answers.opening == Some(OpenRuntimeError) ==> storage.cancelRequested
      ensures AfterConnect(stream, ended)
      ensures ended.Some? || JustConnected(stream.loader.settings, storage.SeenLog(), stream.system)
    {
      ended := OpenStream(stream);
      if ended.None? {
        EntersLoop(stream);
      }
    }

    // The first advance of the generator, and the handler for what it raises.
    method OpenStream(stream: SliceStream) returns (ended: Option<RunEnd>)
      requires stream.loader.storage == storage && stream.loader.CancelHonest() && mode.ApiStream?
      requires stream.loader.tempDir.OneFileSoFar(stream.loader.settings.maxFetchBytes)
      requires Promoted(None)
      modifies `finalizations, `answers, `met
      modifies storage`status, storage`statuses, storage`progress, storage`progressWrites
      modifies storage`cancelRequested, stream, stream.loader, stream.loader.queue, stream.loader.tempDir
      ensures Noted() && Completed !in storage.statuses
      ensures stream.loader.tempDir.OneFileSoFar(stream.loader.settings.maxFetchBytes)
      ensures stream.loader.RequestsWithin(stream.loader.PollLimit())
      ensures old(storage.cancelRequested) ==> storage.cancelRequested && ended.Some?
      ensures answers == old(answers).(opening := answers.opening) && answers.opening.Some?
      ensures ended.None? <==> answers.opening == Some(Opened)
      ensures answers.opening == Some(OpenRuntimeError) ==> storage.cancelRequested
      ensures AfterOpen(stream, ended)
      ensures ended.Some? || JustConnected(stream.loader.settings, storage.SeenLog(), stream.system)
    {
      var result := stream.Open();
      NoteOpening(result);
      if result.Opened? {
        return None;
      }
      var end := LeaveUnconnected(stream, result);
      ended := Some(end);
    }

    ghost method NoteOpening(result: OpenResult)
      requires Promoted(None)
      modifies `answers, `met
      ensures answers == old(answers).(opening := Some(result)) && Noted()
      ensures if result.Opened? then Entering() else met == Some(InConnect(result))
    {
      BrokeInConnect(answers, analyzed, result);
      answers := answers.(opening := Some(result));
      met := if result.Opened? then None else Some(InConnect(result));
    }

    // Connected, and nothing analyzed yet.
    ghost predicate Entering()
      reads `metadata, `progress, `finalizations, `answers, `analyzed, `met, storage`statuses, storage`progressWrites
      reads storage`results, storage`alerts, storage`slicesStored
    {
      && Standing(Running) && met == None && Noted() && answers.streamEnd.None? && answers.looks == []
      && answers.lastLook == NoIntent
      && analyzed == [] && HoldsRows(storage.results, storage.alerts, analyzed)
      && progress.processedCount == progress.totalCount == 0
    }

    // Connected and at the first turn of the loop, or ended by an error out of connect.
    ghost predicate AfterConnect(stream: SliceStream, ended: Option<RunEnd>)
      reads this, storage, stream, stream.loader, stream.loader.queue, stream.loader.storage, stream.loader.tempDir
    {
      || (ended.None? && AtTurn(stream, stream.system, None) && analyzed == [] && answers.lastLook == NoIntent)
      || (ended.Some? && Concluded(ended.value) && !ended.value.Settled? && met.Some? && analyzed == [])
    }

    ghost predicate AfterOpen(stream: SliceStream, ended: Option<RunEnd>)
      reads this, storage, stream, stream.loader, stream.loader.queue, stream.loader.storage, stream.loader.tempDir
    {
      || (ended.None? && stream.Iterating() && stream.Clean() && Entering())
      || (ended.Some? && Concluded(ended.value) && !ended.value.Settled? && met.Some? && analyzed == [])
    }

    lemma EntersLoop(stream: SliceStream)
      requires AfterOpen(stream, None) && stream.system.history.yielded == []
      ensures AfterConnect(stream, None)
    {
    }

    method LeaveUnconnected(stream: SliceStream, result: OpenResult) returns (end: RunEnd)
      requires Standing(Running) && met == Some(InConnect(result))
      modifies `finalizations, storage`status, storage`statuses, storage`progress, storage`progressWrites
      ensures Concluded(end) && !end.Settled? && Completed !in storage.statuses
    {
      var text := ErrorText();
      if result.OpenFailed? {
        text := result.message;
      }
      end := FailOrLeave(InConnect(result), text, StreamFields(stream, TERMINAL_FAILURE));
    }

    // A session that is running and met nothing yet.
    ghost predicate Fresh()
      reads this, storage
    {
      && Standing(Running) && met == None && Noted() && BeforeConnect(answers)
      && analyzed == [] && storage.results == [] && storage.alerts == []
      && progress.processedCount == progress.totalCount == 0
    }

    // The log after a live session and the slices it analyzed, as its connection makes them.
    twostate predicate FollowsFrom(stream: SliceStream, new connection: Option<Connection>)
      reads `answers, `analyzed, storage, stream, stream.loader
    {
      || (&& connection.None? && (mode.ApiStream? ==> analyzed == [])
          && answers.opening != Some(Opened) && answers.streamEnd.None?
          && storage.SeenLog() == old(storage.SeenLog()))
      || (&& connection.Some? && answers.opening == Some(Opened) && answers.streamEnd == stream.system.end
          && RanTo(old(storage.SeenLog()), connection.value, stream.system)
          && Analyzes(analyzed, stream.system.history.yielded)
          && storage.SeenLog() == stream.system.ledger.log)
    }

    // The loop of a connected stream and what comes after it.
    method RunConnected(stream: SliceStream, ghost start: System) returns (end: RunEnd, ghost ticks: seq<Tick>)
      requires stream.loader.storage == storage && AtTurn(stream, start, None) && mode.ApiStream?
      requires stream.system == start && analyzed == [] && answers.lastLook == NoIntent
      modifies this, storage, stream, stream.loader, stream.loader.queue, stream.loader.tempDir
      ensures Concluded(end) && Answered(end, CountsAgree(start.ledger.seen)) && Noted()
      ensures answers
              == old(answers).(looks := answers.looks, streamEnd := answers.streamEnd, lastLook := answers.lastLook)
      ensures Ran(stream.loader.settings, start, ticks, stream.system)
      ensures stream.system.ledger.log == storage.SeenLog() && answers.streamEnd == stream.system.end
      ensures Analyzes(analyzed, stream.system.history.yielded)
      ensures stream.loader.tempDir.OneFileSoFar(stream.loader.settings.maxFetchBytes)
      ensures stream.loader.RequestsWithin(RequestsTo(|ticks|, stream.loader.PollLimit()))
      ensures !old(storage.cancelRequested) || (analyzed == [] && Completed !in storage.statuses)
      ensures answers.streamEnd != Some(Drained(ExplicitCancel))
              || (Completed !in storage.statuses && (end.Settled? ==> end.status == Cancelled))
      ensures end != Settled(Completed) || CompletedRun(stream)
      ensures Completed !in storage.statuses || RefusedFor(start.ledger.seen)
    {
      var loop;
      loop, ticks := ConsumeStream(stream, start);
      end := ConcludeStream(stream, loop, start);
    }

    // A poll's requests for the connection, and for each iteration after it.
    twostate predicate RequestsOf(stream: SliceStream, new connection: Option<Connection>)
      reads stream.loader`requested, stream.loader.storage`cancelRequested
    {
      stream.loader.RequestsWithin(
        stream.loader.PollLimit()
        + if connection.None? then 0 else RequestsTo(|connection.value.ticks|, stream.loader.PollLimit()))
    }

    // The one completed snapshot is refused exactly if keys were read and a slice was processed.
    ghost predicate RefusedFor(read: set<IdentityKey>)
      reads `finalizations, `analyzed
    {
      && |finalizations| == 1
      && (finalizations[0].outcome.SnapshotRejected? <==> analyzed != [] && read != {})
    }

    // What completion of a live session means.
    ghost predicate CompletedRun(stream: SliceStream)
      reads this, storage, stream, stream.loader
    {
      && AnalyzesAll(analyzed, stream.system.history.yielded)
      && HoldsRows(storage.results, storage.alerts, analyzed)
      && progress.processedCount == progress.totalCount == storage.slicesStored == |analyzed|
      && stream.system.end.Some? && stream.system.end.value.Drained?
      && stream.system.end.value.reason != ExplicitCancel
      && ReportsStop(progress, mode, stream.system.end.value.reason,
                     stream.loader.TelemetrySnapshot().terminalFailureReason)
    }

    // The total counts the slices processed and nothing else.
    ghost predicate CountsAgree(read: set<IdentityKey>)
      reads `analyzed
    {
      analyzed == [] || read == {}
    }

    lemma TotalAgrees(start: System)
      requires AllStored(start)
      ensures progress.processedCount == progress.totalCount <==> CountsAgree(start.ledger.seen)
    {
    }

    // Completion carries the loader's stop reason into the snapshot.
    method Complete(stream: SliceStream, ghost reason: StopReason, ghost start: System) returns (end: RunEnd)
      requires stream.loader.storage == storage && mode.ApiStream?
      requires AtDrained(stream, start) && stream.system.end == Some(Drained(reason)) && reason != ExplicitCancel
      requires stream.loader.TelemetrySnapshot().stopReason == Some(reason)
      modifies `metadata, `progress, `finalizations
      modifies storage`status, storage`statuses, storage`progress, storage`progressWrites
      ensures Concluded(end) && Answered(end, CountsAgree(start.ledger.seen)) && |finalizations| == 1
      ensures end != Settled(Completed) || CompletedRun(stream)
      ensures Completed !in storage.statuses || RefusedFor(start.ledger.seen)
    {
      var telemetry := stream.loader.TelemetrySnapshot();
      var why := if telemetry.stopReason.Some? then StopReasonName(telemetry.stopReason.value) else "completed";
      var fields := StreamFields(stream, why);
      CompletedReportsStop(mode, progress, fields, reason);
      EndValidity(mode, progress, Completed, None, fields);
      TotalAgrees(start);
      end := Settle(Completed, fields);
    }

    // After the loop: the handler for its errors, one last look for intent, or completion.
    method ConcludeStream(stream: SliceStream, loop: LoopEnd, ghost start: System) returns (end: RunEnd)
      requires stream.loader.storage == storage && mode.ApiStream?
      requires Left(stream, loop, start) && answers.lastLook == NoIntent
      modifies `metadata, `progress, `finalizations, `answers, `met, storage`cancelRequested
      modifies storage`status, storage`statuses, storage`progress, storage`progressWrites
      ensures Concluded(end) && Answered(end, CountsAgree(start.ledger.seen)) && Noted()
      ensures answers == old(answers).(lastLook := answers.lastLook)
      ensures old(storage.cancelRequested) ==> storage.cancelRequested && Completed !in storage.statuses
      ensures (loop.LoopDone? && loop.reason != ExplicitCancel)
              || (Completed !in storage.statuses && (end.Settled? ==> end.status == Cancelled))
      ensures end != Settled(Completed) || CompletedRun(stream)
      ensures Completed !in storage.statuses || RefusedFor(start.ledger.seen)
    {
      match loop {
        case LoopReturned(returned) =>
          end := returned;
        case LoopBroken(error, text) =>
          end := FailOrLeave(error, text, StreamFields(stream, TERMINAL_FAILURE));
        case LoopDone(reason) =>
          end := ConcludeDrained(stream, reason, start);
      }
    }

    method CancelAfter(stream: SliceStream) returns (end: RunEnd)
      requires Standing(Running) && met == None && SawIntent(answers)
      modifies `metadata, `progress, `finalizations
      modifies storage`status, storage`statuses, storage`progress, storage`progressWrites
      ensures Concluded(end) && Answered(end, true) && end != Settled(Completed) && Completed !in storage.statuses
      ensures end.Settled? ==>
                && end.status == Cancelled
                && progress == old(EndProgress(Cancelled, None, StreamFields(stream, CANCEL_AFTER_ITERATION)))
    {
      var fields := StreamFields(stream, CANCEL_AFTER_ITERATION);
      EndValidity(mode, progress, Cancelled, None, fields);
      end := Settle(Cancelled, fields);
    }

    ghost method NoteLastLook(look: Look)
      requires Noted() && met == None && answers.lastLook == NoIntent && !SawIntent(answers)
      modifies `answers, `met
      ensures answers == old(answers).(lastLook := look) && Noted()
      ensures met == if look.LookFailed? then Some(InLastLook(look.crash)) else None
      ensures SawIntent(answers) <==> look == Intent
    {
      BrokeInLastLook(answers, analyzed, look);
      LooksOnce(answers, look);
      answers := answers.(lastLook := look);
      met := if look.LookFailed? then Some(InLastLook(look.crash)) else None;
    }

    // The last look for intent, then completion.
    method ConcludeDrained(stream: SliceStream, ghost reason: StopReason, ghost start: System) returns (end: RunEnd)
      requires stream.loader.storage == storage && mode.ApiStream?
      requires LeftDrained(stream, reason, start) && answers.lastLook == NoIntent
      modifies `metadata, `progress, `finalizations, `answers, `met, storage`cancelRequested
      modifies storage`status, storage`statuses, storage`progress, storage`progressWrites
      ensures Concluded(end) && Answered(end, CountsAgree(start.ledger.seen)) && Noted()
      ensures answers == old(answers).(lastLook := answers.lastLook)
      ensures old(storage.cancelRequested) ==> storage.cancelRequested && Completed !in storage.statuses
      ensures reason != ExplicitCancel
              || (Completed !in storage.statuses && (end.Settled? ==> end.status == Cancelled))
      ensures end != Settled(Completed) || CompletedRun(stream)
      ensures Completed !in storage.statuses || RefusedFor(start.ledger.seen)
    {
      var look := storage.IsCancelRequested();
      NoteLastLook(look);
      match look {
        case LookFailed(crash) =>
          LeavesRunning(InLastLook(crash));
          end := Uncaught(InLastLook(crash));
        case Intent =>
          end := CancelAfter(stream);
        case NoIntent =>
          end := Complete(stream, reason, start);
      }
    }

    /**
     Run a live session.  A completed one analyzed and stored every accepted slice in order; cancel
     intent never ends in completion; it ends uncaught exactly by what the answers say; and the
     completed snapshot is refused exactly when keys of earlier runs were read and a slice was
     processed, because the total then counts those keys too.
     */
    method RunApiStreamSession(stream: SliceStream) returns (end: RunEnd, ghost connection: Option<Connection>)
      requires stream.loader.storage == storage && stream.loader.CancelHonest() && mode.ApiStream?
      requires stream.loader.tempDir.OneFileSoFar(stream.loader.settings.maxFetchBytes)
      requires Promoted(None)
      modifies this, storage, stream, stream.loader, stream.loader.queue, stream.loader.tempDir
      ensures Concluded(end) && Noted()
      ensures Answered(end, connection.None?
                            || CountsAgree(KeysRead(old(storage.SeenLog()), connection.value.logReadable)))
      ensures stream.loader.tempDir.OneFileSoFar(stream.loader.settings.maxFetchBytes)
      ensures FollowsFrom(stream, connection)
      ensures RequestsOf(stream, connection)
      ensures answers.opening == Some(OpenRuntimeError) ==> storage.cancelRequested
      ensures (connection.Some? && !old(storage.cancelRequested))
              || (analyzed == [] && Completed !in storage.statuses)
      ensures answers.streamEnd != Some(Drained(ExplicitCancel))
              || (Completed !in storage.statuses && (end.Settled? ==> end.status == Cancelled))
      ensures end != Settled(Completed) || (connection.Some? && CompletedRun(stream))
      ensures Completed !in storage.statuses
              || (connection.Some? && RefusedFor(KeysRead(old(storage.SeenLog()), connection.value.logReadable)))
    {
      var ended := ConnectStream(stream);
      if ended.Some? {
        return ended.value, None;
      }
      ghost var start, log, ticks := stream.system, storage.SeenLog(), [];
      end, ticks := RunConnected(stream, start);
      ghost var first: Snapshot, readable: bool :|
        start == Connected(stream.loader.settings, first, log, readable);
      connection := Some(Connection(stream.loader.settings, first, readable, ticks));
      RanToIff(log, connection.value, stream.system);
    }

    // ---- A whole session ---------------------------------------------------------------

    // Validation or discovery refused the input: the pending session fails, unless nothing handles the error.
    method RefuseInput(crash: Crash) returns (end: RunEnd)
      requires Standing(Pending) && Started(None)
      modifies `finalizations, `answers, `met
      modifies storage`status, storage`statuses, storage`progress, storage`progressWrites
      ensures Closes(end) && Noted() && !end.Settled? && Completed !in storage.statuses
      ensures answers == old(answers).(input := Some(crash)) && met == Some(InInput(crash))
    {
      BrokeInInput(answers, analyzed, crash);
      answers, met := answers.(input := Some(crash)), Some(InInput(crash));
      if crash == Unhandled {
        return Uncaught(InInput(crash));
      }
      end := FailPending(crash);
    }

    method FailPending(crash: Crash) returns (end: RunEnd)
      requires Standing(Pending) && crash != Unhandled && met == Some(InInput(crash))
      modifies `finalizations, storage`status, storage`statuses, storage`progress, storage`progressWrites
      ensures Closes(end) && end.Threw? && Completed !in storage.statuses
    {
      ghost var statuses := storage.statuses;
      var text := ErrorText();
      var f;
      ghost var call;
      f, call := Finalize(Failed, false, Some(text), EndFields(Some(VALIDATION_FAILED), None));
      assert finalizations == [call];
      RefusalKeepsLaw(statuses, call);
      end := Threw(if CrashOf(f).Some? then CrashOf(f).value else crash);
    }

    // A pending session that met nothing yet.
    ghost predicate Waiting()
      reads this, storage
    {
      && Standing(Pending)
      && met == None && Noted() && BeforeConnect(answers)
      && analyzed == [] && storage.results == [] && storage.alerts == [] && storage.slicesStored == 0
    }

    // A session that ended before its loop.
    ghost predicate LeftEarly(end: RunEnd)
      reads `finalizations, `progress, `answers, `analyzed, `met, storage`results, storage`alerts
      reads storage`statuses, storage`progress, storage`progressWrites
    {
      && Closes(end) && met.Some? && Noted() && BeforeConnect(answers)
      && !end.Settled? && Completed !in storage.statuses && analyzed == []
    }

    // A live session; checking the source once more may still refuse it, unhandled.
    method RunValidatedStream(stream: SliceStream) returns (end: RunEnd, ghost connection: Option<Connection>)
      requires Waiting() && mode.ApiStream?
      requires stream.loader.storage == storage && stream.loader.CancelHonest()
      requires stream.loader.tempDir.OneFileSoFar(stream.loader.settings.maxFetchBytes)
      modifies this, storage, stream, stream.loader, stream.loader.queue, stream.loader.tempDir
      ensures Closes(end) && Noted() && FollowsFrom(stream, connection) && RequestsOf(stream, connection)
      ensures Answered(end, connection.None?
                            || CountsAgree(KeysRead(old(storage.SeenLog()), connection.value.logReadable)))
      ensures stream.loader.tempDir.OneFileSoFar(stream.loader.settings.maxFetchBytes)
      ensures (connection.Some? && !old(storage.cancelRequested))
              || (analyzed == [] && Completed !in storage.statuses)
      ensures answers.streamEnd != Some(Drained(ExplicitCancel)) || Completed !in storage.statuses
      ensures end != Settled(Completed) || CompletedRun(stream)
      ensures Completed !in storage.statuses
              || (connection.Some? && RefusedFor(KeysRead(old(storage.SeenLog()), connection.value.logReadable)))
    {
      connection := None;
      var ended := PromoteStream();
      if ended.Some? {
        end := ended.value;
      } else {
        end, connection := RunApiStreamSession(stream);
      }
    }

    // Running and fresh, or ended before that.
    ghost predicate Promoted(ended: Option<RunEnd>)
      reads this, storage
    {
      || (ended.None? && Fresh())
      || (ended.Some? && LeftEarly(ended.value))
    }

    // Promote a live session and check its source once more.
    method PromoteStream() returns (ended: Option<RunEnd>)
      requires Waiting()
      modifies `metadata, `progress, `answers, `met
      modifies storage`status, storage`statuses, storage`progress, storage`progressWrites
      ensures Promoted(ended)
    {
      var crash := StartRunning(0);
      if crash.Some? {
        return Some(Uncaught(InStart(crash.value)));
      }
      var sourceAccepted: bool := *;
      if sourceAccepted {
        return None;
      }
      BrokeInInput(answers, analyzed, ValueError);
      answers, met := answers.(sourceRefused := true), Some(InStart(ValueError));
      ended := Some(Uncaught(InStart(ValueError)));
    }

    // A running session over the slices discovered in local files.
    method RunValidatedSlices() returns (end: RunEnd, ghost slices: seq<Slice>)
      requires Waiting() && !mode.ApiStream?
      modifies this, storage
      ensures Closes(end) && Answered(end, true) && Noted() && storage.SeenLog() == old(storage.SeenLog())
      ensures answers.opening.None? && answers.streamEnd.None?
      ensures old(storage.cancelRequested) ==> analyzed == []
      ensures end == Settled(Completed) ==>
                && AnalyzesAll(analyzed, slices) && HoldsRows(storage.results, storage.alerts, analyzed)
                && progress.processedCount == progress.totalCount == storage.slicesStored == |slices|
    {
      var found, refusal := DiscoverSlices();
      slices := found;
      var ended := PromoteSlices(found, refusal);
      if ended.Some? {
        return ended.value, slices;
      }
      end := ProcessDiscovered(found);
    }

    // Promote a local session, unless discovery refused its input.
    method PromoteSlices(slices: seq<Slice>, refusal: Option<Crash>) returns (ended: Option<RunEnd>)
      requires Waiting()
      modifies `metadata, `progress, `finalizations, `answers, `met
      modifies storage`status, storage`statuses, storage`progress, storage`progressWrites
      ensures ended.Some? || (InOrder(slices, 0) && BeforeConnect(answers))
      ensures ended.None? || LeftEarly(ended.value)
    {
      if refusal.Some? {
        var end := RefuseInput(refusal.value);
        return Some(end);
      }
      var crash := StartRunning(|slices|);
      ended := if crash.Some? then Some(Uncaught(InStart(crash.value))) else None;
    }

    method DiscoverSlices() returns (slices: seq<Slice>, refusal: Option<Crash>)
    {
      slices, refusal := *, *;
    }

    /**
     One session from start to end, whatever fails on the way: every snapshot written was accurate,
     the statuses are lawful, and the rows stored are those of the analyzed slices, in order.  What
     the world answered decides whether it ends uncaught, and the session is left without a terminal
     status exactly if it does or if every finalizer's flush or status write failed.  A completed
     session stored everything, intent known at the start keeps every slice from the analyzers and
     later intent all but one, a stream that stopped for intent never completes, and as long as
     deletions succeed no temp file is left behind and there was never more than one.
     */
    method RunLocalSession(sessionId: string, stream: SliceStream)
      returns (end: RunEnd, ghost connection: Option<Connection>)
      requires storage.statuses == [] && storage.progressWrites == [] && finalizations == []
      requires storage.results == [] && storage.alerts == [] && storage.slicesStored == 0
      requires analyzed == [] && answers == NO_ANSWERS && met == None
      requires stream.loader.storage == storage && stream.loader.CancelHonest()
      requires stream.loader.tempDir.OneFileSoFar(stream.loader.settings.maxFetchBytes)
      modifies this, storage, stream, stream.loader, stream.loader.queue, stream.loader.tempDir
      ensures Closes(end) && Noted() && FollowsFrom(stream, connection) && RequestsOf(stream, connection)
      ensures Answered(end, connection.None?
                            || CountsAgree(KeysRead(old(storage.SeenLog()), connection.value.logReadable)))
      ensures old(storage.cancelRequested) ==> analyzed == [] && (mode.ApiStream? ==> Completed !in storage.statuses)
      ensures answers.streamEnd != Some(Drained(ExplicitCancel)) || Completed !in storage.statuses
      ensures end == Settled(Completed) ==>
                && HoldsRows(storage.results, storage.alerts, analyzed)
                && progress.processedCount == progress.totalCount == storage.slicesStored == |analyzed|
      ensures mode.ApiStream? && Completed in storage.statuses ==>
                connection.Some? && RefusedFor(KeysRead(old(storage.SeenLog()), connection.value.logReadable))
      ensures stream.loader.tempDir.OneFileSoFar(stream.loader.settings.maxFetchBytes)
      ensures old(stream.loader.tempDir.files) == map[] && stream.loader.tempDir.failedDeletes == 0 ==>
                stream.loader.tempDir.files == map[]
    {
      connection := None;
      var ended := Prepare(sessionId);
      if ended.Some? {
        end := ended.value;
      } else {
        end, connection := RunPending(stream);
      }
    }

    // The pending session and the validation of its source.
    method Prepare(sessionId: string) returns (ended: Option<RunEnd>)
      requires storage.statuses == [] && storage.progressWrites == [] && finalizations == []
      requires storage.results == [] && storage.alerts == [] && storage.slicesStored == 0
      requires analyzed == [] && answers == NO_ANSWERS && met == None
      modifies `metadata, `progress, `finalizations, `answers, `met
      modifies storage`status, storage`statuses, storage`progress, storage`progressWrites
      ensures Prepared(ended)
    {
      TellsIff(None, NO_ANSWERS, []);
      var crash := InitializePending(sessionId);
      ended := if crash.Some? then Some(Uncaught(InStart(crash.value))) else None;
      if crash.None? {
        ended := Validate();
      }
    }

    // Validation of the source, and the pending status once more.
    method Validate() returns (ended: Option<RunEnd>)
      requires Waiting()
      modifies `metadata, `finalizations, `answers, `met
      modifies storage`status, storage`statuses, storage`progress, storage`progressWrites
      ensures Prepared(ended)
    {
      var refusal := ValidateSource();
      if refusal.Some? {
        var end := RefuseInput(refusal.value);
        return Some(end);
      }
      PathGrows(storage.statuses, Pending);
      var crash := PersistPendingMetadata();
      ended := if crash.Some? then Some(Uncaught(InStart(crash.value))) else None;
    }

    // Waiting for its promotion, or ended before that.
    ghost predicate Prepared(ended: Option<RunEnd>)
      reads this, storage
    {
      || (ended.None? && Waiting())
      || (ended.Some? && LeftEarly(ended.value))
    }

    // The session past its validation: live or over local files, with the temp directory emptied.
    method RunPending(stream: SliceStream) returns (end: RunEnd, ghost connection: Option<Connection>)
      requires Prepared(None)
      requires stream.loader.storage == storage && stream.loader.CancelHonest()
      requires stream.loader.tempDir.OneFileSoFar(stream.loader.settings.maxFetchBytes)
      modifies this, storage, stream, stream.loader, stream.loader.queue, stream.loader.tempDir
      ensures Closes(end) && Noted() && FollowsFrom(stream, connection) && RequestsOf(stream, connection)
      ensures Answered(end, connection.None?
                            || CountsAgree(KeysRead(old(storage.SeenLog()), connection.value.logReadable)))
      ensures old(storage.cancelRequested) ==> analyzed == [] && (mode.ApiStream? ==> Completed !in storage.statuses)
      ensures answers.streamEnd != Some(Drained(ExplicitCancel)) || Completed !in storage.statuses
      ensures end == Settled(Completed) ==>
                && HoldsRows(storage.results, storage.alerts, analyzed)
                && progress.processedCount == progress.totalCount == storage.slicesStored == |analyzed|
      ensures mode.ApiStream? && Completed in storage.statuses ==>
                connection.Some? && RefusedFor(KeysRead(old(storage.SeenLog()), connection.value.logReadable))
      ensures stream.loader.tempDir.OneFileSoFar(stream.loader.settings.maxFetchBytes)
      ensures old(stream.loader.tempDir.files) == map[] && stream.loader.tempDir.failedDeletes == 0 ==>
                stream.loader.tempDir.files == map[]
    {
      connection := None;
      if mode.ApiStream? {
        end, connection := RunValidatedStream(stream);
        var emptied := stream.loader.tempDir.Clear();
      } else {
        ghost var slices;
        end, slices := RunValidatedSlices();
      }
    }

    method ValidateSource() returns (refusal: Option<Crash>)
    {
      refusal := *;
    }
  }
}
