/**
 The durable state of one session as values and append-only logs.  Another process may store
 cancel intent at any moment, and any write or read may fail, with an error of any kind.  Apart
 from the de-duplication log, the logs hold what the current run stored.
 */
module SessionStorage {
  import opened Prelude
  import opened StreamContracts
  import opened SessionModels
  import opened DedupLog

  // One line of the de-duplication log.
  datatype LogLine = KeyLine(key: IdentityKey) | UnreadableLine

  // The keys of the readable ones among the first n lines, in order.
  function LoggedKeys(lines: seq<LogLine>, n: nat): seq<IdentityKey>
    requires n <= |lines|
  {
    if n == 0 then []
    else LoggedKeys(lines, n - 1) + if lines[n - 1].KeyLine? then [lines[n - 1].key] else []
  }

  lemma {:induction false} LoggedKeysGrow(lines: seq<LogLine>, line: LogLine, n: nat)
    requires n <= |lines|
    ensures LoggedKeys(lines + [line], n) == LoggedKeys(lines, n)
  {
    if n > 0 {
      LoggedKeysGrow(lines, line, n - 1);
    }
  }

  // A written snapshot with what was durable at that moment: alerts, and slices whose results are.
  datatype ProgressWrite = ProgressWrite(progress: Progress, alertsStored: nat, slicesStored: nat)

  // How a write ends: done, refused because the snapshot or row is invalid, or out of an error of
  // the store, which then holds what it held before.
  datatype WriteResult = Stored | Rejected | StoreError(crash: Crash)

  method StoreMeets() returns (result: WriteResult)
    ensures !result.Rejected?
  {
    var stored: bool, crash: Crash := *, *;
    result := if stored then Stored else StoreError(crash);
  }

  class Storage {
    var cancelRequested: bool
    var seenLines: seq<LogLine>
    var seenTail: Tail
    var status: Option<SessionStatus>
    var progress: Option<Progress>
    var results: seq<string>
    var alerts: seq<string>

    // Every write so far, and the number of slices all of whose rows are stored.
    ghost var statuses: seq<SessionStatus>
    ghost var progressWrites: seq<ProgressWrite>
    ghost var slicesStored: nat

    constructor (lines: seq<LogLine>, tail: Tail)
      ensures !cancelRequested && seenLines == lines && seenTail == tail && statuses == [] && progressWrites == []
      ensures results == [] && alerts == [] && slicesStored == 0
    {
      cancelRequested := false;
      seenLines, seenTail := lines, tail;
      status, progress := None, None;
      statuses, progressWrites := [], [];
      results, alerts, slicesStored := [], [], 0;
    }

    // Other processes run: intent may become durable, and then stays.
    method OthersAct()
      modifies this`cancelRequested
      ensures old(cancelRequested) ==> cancelRequested
    {
      var requestedMeanwhile: bool := *;
      if requestedMeanwhile {
        cancelRequested := true;
      }
    }

    // A look for cancel intent answers what the store holds at that moment; more may happen before
    // the caller goes on.
    method IsCancelRequested() returns (look: Look)
      modifies this`cancelRequested
      ensures old(cancelRequested) ==> !look.NoIntent?
      ensures look.Intent? ==> cancelRequested
      ensures old(cancelRequested) ==> cancelRequested
    {
      OthersAct();
      var answers: bool, crash: Crash := *, *;
      look := if !answers then LookFailed(crash) else if cancelRequested then Intent else NoIntent;
      OthersAct();
    }

    ghost function SeenLog(): Log
      reads `seenLines, `seenTail
    {
      Log(LoggedKeys(seenLines, |seenLines|), seenTail)
    }

    // An unreadable log is taken for an empty one.
    method ReadSeenKeys() returns (keys: set<IdentityKey>, readable: bool)
      ensures keys == if readable then KeySet(SeenLog()) else {}
    {
      readable := *;
      keys := {};
      if !readable {
        return;
      }
      var i := 0;
      while i < |seenLines|
        invariant 0 <= i <= |seenLines|
        invariant keys == set key | key in LoggedKeys(seenLines, i)
      {
        if seenLines[i].KeyLine? {
          keys := keys + {seenLines[i].key};
        }
        i := i + 1;
      }
      if seenTail.WholeTail? {
        keys := keys + {seenTail.key};
      }
    }

    // Append a line for a key.  The append may be cut, and a line after a cut one is glued to it.
    method AppendSeenKey(key: IdentityKey) returns (stored: bool, ghost reply: AppendReply)
      modifies `seenLines, `seenTail
      ensures SeenLog() == old(SeenLog()).After(key, reply)
      ensures stored <==> reply == Written
      ensures reply != DiedAfterWrite && (reply.Torn? ==> !reply.died)
    {
      stored := *;
      if stored {
        var line := if seenTail.NoTail? then KeyLine(key) else UnreadableLine;
        LoggedKeysGrow(seenLines, line, |seenLines|);
        seenLines, seenTail := seenLines + [line], NoTail;
        return stored, Written;
      }
      var cut: bool, whole: bool := *, *;
      if cut {
        seenTail := if seenTail.NoTail? && whole then WholeTail(key) else BrokenTail;
      }
      reply := if cut then Torn(whole, false) else Refused;
    }

    // Append a result row; a row that breaks the shared rules is rejected.
    method AppendResult(row: string) returns (result: WriteResult)
      modifies this`results
      ensures results == old(results) + if result == Stored then [row] else []
    {
      var valid: bool := *;
      if !valid {
        return Rejected;
      }
      result := StoreMeets();
      if result == Stored {
        results := results + [row];
      }
    }

    method AppendAlert(row: string) returns (result: WriteResult)
      modifies this`alerts
      ensures result != Rejected
      ensures alerts == old(alerts) + if result == Stored then [row] else []
    {
      result := StoreMeets();
      if result == Stored {
        alerts := alerts + [row];
      }
    }

    method WriteMetadata(newStatus: SessionStatus) returns (result: WriteResult)
      modifies this`status, this`statuses
      ensures result != Rejected
      ensures statuses == old(statuses) + if result == Stored then [newStatus] else []
      ensures status == if result == Stored then Some(newStatus) else old(status)
    {
      result := StoreMeets();
      if result == Stored {
        status := Some(newStatus);
        statuses := statuses + [newStatus];
      }
    }

    method WriteProgress(next: Progress) returns (result: WriteResult)
      modifies this`progress, this`progressWrites
      ensures result == Rejected <==> !ValidProgress(next)
      ensures progress == if result == Stored then Some(next) else old(progress)
      ensures progressWrites == old(progressWrites)
                                + if result == Stored then [ProgressWrite(next, |alerts|, slicesStored)] else []
    {
      if !ValidProgress(next) {
        return Rejected;
      }
      result := StoreMeets();
      if result == Stored {
        progress := Some(next);
        progressWrites := progressWrites + [ProgressWrite(next, |alerts|, slicesStored)];
      }
    }
  }
}
