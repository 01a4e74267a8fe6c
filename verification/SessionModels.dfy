/** Session status, its allowed transitions, and the progress snapshot with its invariants. */
module SessionModels {
  import opened Prelude

  datatype SessionStatus = Pending | Running | Cancelling | Cancelled | Completed | Failed

  predicate IsTerminal(status: SessionStatus) {
    status == Cancelled || status == Completed || status == Failed
  }

  function AllowedTargets(status: SessionStatus): set<SessionStatus> {
    match status
    case Pending => {Pending, Running, Cancelled, Failed}
    case Running => {Running, Cancelled, Completed, Failed}
    case Cancelling => {Cancelling, Cancelled, Failed}
    case Cancelled => {Cancelled}
    case Completed => {Completed}
    case Failed => {Failed}
  }

  datatype Progress = Progress(
    sessionId: string,
    status: SessionStatus,
    processedCount: int,
    totalCount: int,
    currentItem: Option<string>,
    latestDetector: Option<string>,
    alertCount: int,
    latestDetectors: seq<string>,
    statusReason: Option<string>,
    statusDetail: Option<string>)

  // The checks made before a progress snapshot is persisted.
  predicate ValidProgress(p: Progress) {
    && 0 <= p.processedCount <= p.totalCount
    && p.alertCount >= 0
    && (p.status == Pending ==> p.processedCount == 0)
    && (p.status == Completed ==> p.processedCount == p.totalCount)
    && (p.latestDetectors != [] ==> p.latestDetector == Some(p.latestDetectors[|p.latestDetectors| - 1]))
  }

  function InitialProgress(sessionId: string, totalCount: int): Progress {
    Progress(sessionId, Pending, 0, totalCount, None, None, 0, [], Some("pending"), None)
  }

  // The persisted statuses follow the transition table, one after the other.
  ghost predicate StatusPath(statuses: seq<SessionStatus>) {
    forall i, j :: 0 <= i < |statuses| && j == i + 1 && j < |statuses| ==>
      statuses[j] in AllowedTargets(statuses[i])
  }

  // Exactly the last status is terminal.
  ghost predicate SettledOnce(statuses: seq<SessionStatus>) {
    && statuses != []
    && IsTerminal(statuses[|statuses| - 1])
    && forall i :: 0 <= i < |statuses| - 1 ==> !IsTerminal(statuses[i])
  }
}
