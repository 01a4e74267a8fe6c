/** How the next progress snapshot is built, and the stable reasons a session ends with. */
module SessionProgress {
  import opened Prelude
  import opened StreamContracts
  import opened LoaderMachine
  import opened SessionModels

  datatype InputMode = VideoSegments | VideoFiles | ApiStream

  // What the analyzers made of one slice: a detector per result row, and the alerts.
  datatype Bundle = Bundle(resultDetectors: seq<string>, alerts: seq<string>)

  function DefaultStatusReason(status: SessionStatus): (reason: string)
    ensures reason != ""
  {
    match status
    case Pending => "pending"
    case Running => "running"
    case Cancelling => "cancelling"
    case Cancelled => "cancel_requested"
    case Completed => "completed"
    case Failed => "session_runtime_error"
  }

  function ProgressUpdate(current: Progress, status: SessionStatus, reason: string, detail: Option<string>): Progress {
    current.(
      status := status,
      statusReason := Some(if reason != "" then reason else DefaultStatusReason(status)),
      statusDetail := detail)
  }

  function SliceProgress(current: Progress, processed: int, total: int, item: string, bundle: Bundle,
                         status: SessionStatus): Progress
  {
    var detectors := bundle.resultDetectors;
    Progress(
      current.sessionId, status, processed, total, Some(item),
      if detectors == [] then None else Some(detectors[|detectors| - 1]),
      current.alertCount + |bundle.alerts|,
      detectors,
      Some(DefaultStatusReason(status)),
      None)
  }

  // The transport summary a terminal snapshot is derived from.
  datatype EndFields = EndFields(sessionEndReason: Option<string>, terminalFailureReason: Option<string>)

  const NO_FIELDS := EndFields(None, None)

  function Populated(value: Option<string>): (text: Option<string>)
    ensures text.Some? ==> text.value != ""
  {
    if value.Some? && Strip(value.value) != "" then Some(Strip(value.value)) else None
  }

  function StopReasonName(reason: StopReason): string {
    match reason
    case EndlistReached => "endlist_reached"
    case IdlePollBudgetExhausted => "idle_poll_budget_exhausted"
    case ExplicitCancel => "explicit_cancel"
  }

  function Spaced(words: string): (spaced: string)
    ensures |spaced| == |words|
  {
    seq(|words|, i requires 0 <= i < |words| => if words[i] == '_' then ' ' else words[i])
  }

  function Upper(c: char): char {
    if 'a' <= c <= 'z' then 'A' + (c - 'a') else c
  }

  function Humanize(reason: string): string {
    var words := Strip(Spaced(reason));
    if words == "" then "Session ended" else [Upper(words[0])] + words[1..]
  }

  const CANCEL_DURING_PROCESSING := "cancel_requested_during_processing"
  const CANCEL_AFTER_ITERATION := "cancel_requested_after_iteration"
  const VALIDATION_FAILED := "validation_failed"
  const TERMINAL_FAILURE := "terminal_failure"

  function OrElse(value: Option<string>, other: string): string {
    if value.Some? then value.value else other
  }

  // The reason and detail a terminal snapshot carries.
  function TerminalReason(status: SessionStatus, mode: InputMode, error: Option<string>, fields: EndFields)
    : (reason: (string, Option<string>))
    ensures reason.0 != ""
  {
    var endReason := Populated(fields.sessionEndReason);
    var failureReason := Populated(fields.terminalFailureReason);
    match status
    case Cancelled =>
      ("cancel_requested",
       Some(if endReason == Some(CANCEL_DURING_PROCESSING) then "Cancellation requested during slice processing"
            else if endReason == Some(CANCEL_AFTER_ITERATION) then "Cancellation requested after iteration"
            else "Cancellation requested by client"))
    case Completed =>
      if endReason == Some("idle_poll_budget_exhausted") then
        ("idle_poll_budget_exhausted", Some("Idle poll budget exhausted"))
      else if endReason.Some? && endReason.value != "completed" then
        ("completed", Some(Humanize(endReason.value)))
      else
        ("completed", None)
    case Failed =>
      if endReason == Some(VALIDATION_FAILED) then
        (VALIDATION_FAILED,
         Some(if error.Some? then error.value else OrElse(failureReason, "Session input validation failed")))
      else if mode.ApiStream? then
        ("source_unreachable",
         Some(if failureReason.Some? then failureReason.value
              else OrElse(error, "Live source became unavailable during session")))
      else
        (OrElse(endReason, "session_runtime_error"),
         Some(if failureReason.Some? then failureReason.value
              else OrElse(error, "Session failed during execution")))
    case Pending => (DefaultStatusReason(status), None)
    case Running => (DefaultStatusReason(status), None)
    case Cancelling => (DefaultStatusReason(status), None)
  }

  // ---- What the snapshots promise -------------------------------------------------

  /** A lifecycle update keeps a snapshot valid exactly when the new status allows its counts. */
  lemma UpdateValidity(current: Progress, status: SessionStatus, reason: string, detail: Option<string>)
    requires ValidProgress(current)
    ensures ValidProgress(ProgressUpdate(current, status, reason, detail)) <==>
              && (status == Pending ==> current.processedCount == 0)
              && (status == Completed ==> current.processedCount == current.totalCount)
  {
  }

  lemma StripTight(text: string)
    requires text != "" && !IsSpace(text[0]) && !IsSpace(text[|text| - 1])
    ensures Strip(text) == text
  {
  }

  // A name of at least two characters that starts and ends with neither a space nor an underscore.
  predicate PlainName(name: string) {
    && |name| >= 2 && name[1] != '_'
    && name[0] != '_' && !IsSpace(name[0])
    && name[|name| - 1] != '_' && !IsSpace(name[|name| - 1])
  }

  lemma HumanizePlain(name: string)
    requires PlainName(name)
    ensures Populated(Some(name)) == Some(name)
    ensures |Humanize(name)| == |name| && Humanize(name)[1] == name[1]
  {
    StripTight(name);
    StripTight(Spaced(name));
  }

  lemma StopReasonsArePlain(reason: StopReason)
    ensures PlainName(StopReasonName(reason))
  {
  }

  function CompletedWith(mode: InputMode, reason: StopReason, failure: Option<string>): (string, Option<string>) {
    TerminalReason(Completed, mode, None, EndFields(Some(StopReasonName(reason)), failure))
  }

  lemma CompletedReason(mode: InputMode, reason: StopReason, failure: Option<string>)
    ensures var seen := CompletedWith(mode, reason, failure);
            if reason.IdlePollBudgetExhausted? then |seen.0| == 26
            else |seen.0| == 9 && seen.1 == Some(Humanize(StopReasonName(reason)))
  {
    StopReasonsArePlain(reason);
    HumanizePlain(StopReasonName(reason));
    var name := StopReasonName(reason);
    assert |name| == if reason.IdlePollBudgetExhausted? then 26 else 15;
    assert |"completed"| == 9 && |"idle_poll_budget_exhausted"| == 26;
  }

  /** The stop reason of the loader can be read off the completed snapshot. */
  lemma StopReasonReachesProgress(mode: InputMode, first: StopReason, second: StopReason,
                                  failure: Option<string>, other: Option<string>)
    requires CompletedWith(mode, first, failure) == CompletedWith(mode, second, other)
    ensures first == second
  {
    CompletedReason(mode, first, failure);
    CompletedReason(mode, second, other);
    StopReasonsArePlain(first);
    StopReasonsArePlain(second);
    HumanizePlain(StopReasonName(first));
    HumanizePlain(StopReasonName(second));
    if !first.IdlePollBudgetExhausted? && !second.IdlePollBudgetExhausted? {
      assert StopReasonName(first)[1] == StopReasonName(second)[1];
    }
  }
}
