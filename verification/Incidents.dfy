/**
 Grouping alerts into incidents: a stable sort by time, then runs of compatible neighbours.  The
 result is the unique partition that splits exactly where neighbours do not belong together.
 */
module Incidents {
  import opened Prelude
  import opened SessionAlerts

  const TIMELINE_GROUP_GAP_SECONDS := 60

  // An alert with a usable time and its place in the input.
  datatype Sortable = Sortable(time: int, index: nat, alert: Alert)

  // An alert of an incident.
  datatype Timed = Timed(time: int, alert: Alert)

  // ---- Collecting and sorting ------------------------------------------------------------

  function Collected(alerts: seq<Alert>): (rows: seq<Sortable>)
    ensures forall i :: 0 <= i < |rows| ==>
              && rows[i].index < |alerts|
              && alerts[rows[i].index] == rows[i].alert && rows[i].alert.time == Some(rows[i].time)
    ensures forall i, j :: 0 <= i < j < |rows| ==> rows[i].index < rows[j].index
  {
    if alerts == [] then []
    else
      var last := alerts[|alerts| - 1];
      Collected(alerts[..|alerts| - 1])
      + if last.time.Some? then [Sortable(last.time.value, |alerts| - 1, last)] else []
  }

  method CollectSortableAlerts(alerts: seq<Alert>) returns (rows: seq<Sortable>)
    ensures rows == Collected(alerts)
  {
    rows := [];
    for i := 0 to |alerts|
      invariant rows == Collected(alerts[..i])
    {
      assert alerts[..i + 1][..i] == alerts[..i];
      if alerts[i].time.Some? {
        rows := rows + [Sortable(alerts[i].time.value, i, alerts[i])];
      }
    }
    assert alerts[..|alerts|] == alerts;
  }

  predicate Before(a: Sortable, b: Sortable) {
    a.time < b.time || (a.time == b.time && a.index < b.index)
  }

  ghost predicate Sorted(rows: seq<Sortable>) {
    forall i, j :: 0 <= i < j < |rows| ==> Before(rows[i], rows[j])
  }

  function InsertRow(row: Sortable, rows: seq<Sortable>): seq<Sortable> {
    if rows == [] || Before(row, rows[0]) then [row] + rows
    else [rows[0]] + InsertRow(row, rows[1..])
  }

  function SortRows(rows: seq<Sortable>): seq<Sortable> {
    if rows == [] then [] else InsertRow(rows[0], SortRows(rows[1..]))
  }

  lemma {:induction false} InsertRowHolds(row: Sortable, rows: seq<Sortable>)
    ensures multiset(InsertRow(row, rows)) == multiset(rows) + multiset{row}
  {
    if rows != [] && !Before(row, rows[0]) {
      InsertRowHolds(row, rows[1..]);
      assert rows == [rows[0]] + rows[1..];
    }
  }

  // What is before a row and all others is before each of them in order.
  lemma StaysFirst(first: Sortable, row: Sortable, rows: seq<Sortable>)
    requires Before(first, row) && forall i :: 0 <= i < |rows| ==> Before(first, rows[i])
    ensures forall i :: 0 <= i < |InsertRow(row, rows)| ==> Before(first, InsertRow(row, rows)[i])
  {
    InsertRowHolds(row, rows);
    var rest := InsertRow(row, rows);
    forall i | 0 <= i < |rest| ensures Before(first, rest[i]) {
      assert rest[i] in multiset(rest);
      assert rest[i] == row || rest[i] in rows;
    }
  }

  lemma {:induction false} InsertRowSorts(row: Sortable, rows: seq<Sortable>)
    requires Sorted(rows) && forall i :: 0 <= i < |rows| ==> rows[i].index != row.index
    ensures Sorted(InsertRow(row, rows))
  {
    if rows != [] && !Before(row, rows[0]) {
      InsertRowSorts(row, rows[1..]);
      StaysFirst(rows[0], row, rows[1..]);
    }
  }

  /** The sort keeps every row and orders them by time, and by place where times are equal. */
  lemma {:induction false} SortRowsSorts(rows: seq<Sortable>)
    requires forall i, j :: 0 <= i < j < |rows| ==> rows[i].index != rows[j].index
    ensures Sorted(SortRows(rows)) && multiset(SortRows(rows)) == multiset(rows)
  {
    if rows != [] {
      var rest := SortRows(rows[1..]);
      SortRowsSorts(rows[1..]);
      assert rows == [rows[0]] + rows[1..];
      forall i | 0 <= i < |rest| ensures rest[i].index != rows[0].index {
        assert rest[i] in multiset(rest);
        assert rest[i] in rows[1..];
      }
      InsertRowHolds(rows[0], rest);
      InsertRowSorts(rows[0], rest);
    }
  }

  function TimedRows(rows: seq<Sortable>): (timed: seq<Timed>)
    ensures |timed| == |rows|
    ensures forall i :: 0 <= i < |rows| ==> timed[i] == Timed(rows[i].time, rows[i].alert)
  {
    seq(|rows|, i requires 0 <= i < |rows| => Timed(rows[i].time, rows[i].alert))
  }

  // The alerts with usable times, in stable order of time.
  function InOrder(alerts: seq<Alert>): seq<Timed> {
    TimedRows(SortRows(Collected(alerts)))
  }

  // ---- Grouping ---------------------------------------------------------------------------

  predicate BelongTogether(previous: Timed, current: Timed) {
    && previous.alert.detectorId == current.alert.detectorId
    && previous.alert.severity == current.alert.severity
    && previous.alert.title == current.alert.title
    && current.time - previous.time <= TIMELINE_GROUP_GAP_SECONDS
  }

  function LastOf<T>(s: seq<T>): T
    requires s != []
  {
    s[|s| - 1]
  }

  function Grouped(timed: seq<Timed>): (groups: seq<seq<Timed>>)
    ensures forall i :: 0 <= i < |groups| ==> groups[i] != []
    ensures groups != [] <==> timed != []
  {
    if timed == [] then []
    else
      var groups, current := Grouped(timed[..|timed| - 1]), LastOf(timed);
      if groups != [] && BelongTogether(LastOf(LastOf(groups)), current)
      then groups[..|groups| - 1] + [LastOf(groups) + [current]]
      else groups + [[current]]
  }

  // One more alert joins the last group, or starts a new one.
  lemma GroupedJoins(timed: seq<Timed>, front: seq<seq<Timed>>, last: seq<Timed>, current: Timed)
    requires Grouped(timed) == front + [last] && last != [] && BelongTogether(LastOf(last), current)
    ensures Grouped(timed + [current]) == front + [last + [current]]
  {
    assert (timed + [current])[..|timed|] == timed;
    assert (front + [last])[..|front|] == front;
  }

  lemma GroupedStarts(timed: seq<Timed>, current: Timed)
    requires Grouped(timed) != [] ==> !BelongTogether(LastOf(LastOf(Grouped(timed))), current)
    ensures Grouped(timed + [current]) == Grouped(timed) + [[current]]
  {
    assert (timed + [current])[..|timed|] == timed;
  }

  // The grouping of a prefix as the loop holds it: the closed groups and the open one.
  ghost predicate Grouping(prefix: seq<Timed>, incidents: seq<seq<Timed>>, currentGroup: seq<Timed>) {
    if currentGroup == [] then prefix == [] && incidents == []
    else Grouped(prefix) == incidents + [currentGroup]
  }

  lemma GroupingGrows(prefix: seq<Timed>, incidents: seq<seq<Timed>>, currentGroup: seq<Timed>, current: Timed)
    requires Grouping(prefix, incidents, currentGroup)
    ensures if currentGroup == [] then Grouping(prefix + [current], incidents, [current])
            else if BelongTogether(LastOf(currentGroup), current) then
              Grouping(prefix + [current], incidents, currentGroup + [current])
            else Grouping(prefix + [current], incidents + [currentGroup], [current])
  {
    if currentGroup != [] && BelongTogether(LastOf(currentGroup), current) {
      GroupedJoins(prefix, incidents, currentGroup, current);
    } else {
      GroupedStarts(prefix, current);
    }
  }

  /** The loop that closes a group whenever the next alert does not belong to it. */
  method GroupAlertsIntoIncidents(alerts: seq<Alert>) returns (incidents: seq<seq<Timed>>)
    ensures incidents == Grouped(InOrder(alerts))
  {
    var rows := CollectSortableAlerts(alerts);
    var sorted := TimedRows(SortRows(rows));
    incidents := [];
    var currentGroup: seq<Timed> := [];
    for i := 0 to |sorted|
      invariant Grouping(sorted[..i], incidents, currentGroup)
    {
      var current := sorted[i];
      GroupingGrows(sorted[..i], incidents, currentGroup, current);
      assert sorted[..i + 1] == sorted[..i] + [current];
      if currentGroup == [] {
        currentGroup := [current];
        continue;
      }
      if BelongTogether(LastOf(currentGroup), current) {
        currentGroup := currentGroup + [current];
        continue;
      }
      incidents := incidents + [currentGroup];
      currentGroup := [current];
    }
    assert sorted[..|sorted|] == sorted;
    if currentGroup != [] {
      incidents := incidents + [currentGroup];
    }
  }

  function Flatten(groups: seq<seq<Timed>>): seq<Timed> {
    if groups == [] then [] else Flatten(groups[..|groups| - 1]) + LastOf(groups)
  }

  // Neighbours inside a group belong together.
  ghost predicate Compatible(group: seq<Timed>) {
    forall i, j :: 0 <= i && j == i + 1 && j < |group| ==> BelongTogether(group[i], group[j])
  }

  // Non-empty groups of compatible neighbours that make up the whole.
  ghost predicate Partitions(groups: seq<seq<Timed>>, timed: seq<Timed>) {
    && Flatten(groups) == timed
    && forall i :: 0 <= i < |groups| ==> groups[i] != [] && Compatible(groups[i])
  }

  // No two neighbouring groups could be joined.
  ghost predicate Coarse(groups: seq<seq<Timed>>) {
    forall i, j :: 0 <= i && j == i + 1 && j < |groups| && groups[i] != [] && groups[j] != [] ==>
      !BelongTogether(LastOf(groups[i]), groups[j][0])
  }

  lemma CompatibleGrows(group: seq<Timed>, current: Timed)
    ensures Compatible(group + [current])
            <==> Compatible(group) && (group != [] ==> BelongTogether(LastOf(group), current))
  {
    var longer := group + [current];
    assert longer[|group|] == current;
    assert forall i :: 0 <= i < |group| ==> longer[i] == group[i];
  }

  lemma FlattenOfAppend(groups: seq<seq<Timed>>, group: seq<Timed>)
    ensures Flatten(groups + [group]) == Flatten(groups) + group
  {
    assert (groups + [group])[..|groups|] == groups;
  }

  lemma {:induction false} FlattenEndsInLast(groups: seq<seq<Timed>>)
    requires groups != [] && LastOf(groups) != []
    ensures Flatten(groups) != [] && LastOf(Flatten(groups)) == LastOf(LastOf(groups))
    ensures Flatten(groups)[..|Flatten(groups)| - 1]
            == Flatten(groups[..|groups| - 1]) + LastOf(groups)[..|LastOf(groups)| - 1]
  {
  }

  lemma JoinLast(groups: seq<seq<Timed>>, timed: seq<Timed>, current: Timed)
    requires Partitions(groups, timed) && Coarse(groups) && groups != []
    requires LastOf(groups) != [] && BelongTogether(LastOf(LastOf(groups)), current)
    ensures var joined := groups[..|groups| - 1] + [LastOf(groups) + [current]];
            Partitions(joined, timed + [current]) && Coarse(joined)
  {
    var front, last := groups[..|groups| - 1], LastOf(groups);
    CompatibleGrows(last, current);
    FlattenOfAppend(front, last + [current]);
    FlattenOfAppend(front, last);
    assert front + [last] == groups;
    var joined := front + [last + [current]];
    assert forall i :: 0 <= i < |front| ==> joined[i] == groups[i];
    assert LastOf(joined)[0] == last[0];
  }

  lemma StartGroup(groups: seq<seq<Timed>>, timed: seq<Timed>, current: Timed)
    requires Partitions(groups, timed) && Coarse(groups)
    requires groups != [] ==> LastOf(groups) != [] && !BelongTogether(LastOf(LastOf(groups)), current)
    ensures Partitions(groups + [[current]], timed + [current]) && Coarse(groups + [[current]])
  {
    CompatibleGrows([], current);
    FlattenOfAppend(groups, [current]);
    var longer := groups + [[current]];
    assert forall i :: 0 <= i < |groups| ==> longer[i] == groups[i];
  }

  /** Grouping is a partition into compatible groups that cannot be joined any further. */
  lemma {:induction false} GroupedPartitions(timed: seq<Timed>)
    ensures Partitions(Grouped(timed), timed) && Coarse(Grouped(timed))
  {
    if timed != [] {
      var init, current := timed[..|timed| - 1], LastOf(timed);
      GroupedPartitions(init);
      assert timed == init + [current];
      var groups := Grouped(init);
      if groups != [] && BelongTogether(LastOf(LastOf(groups)), current) {
        JoinLast(groups, init, current);
      } else {
        StartGroup(groups, init, current);
      }
    }
  }

  // Taking the last alert out of a partition.
  function WithoutLast(groups: seq<seq<Timed>>): seq<seq<Timed>>
    requires groups != [] && LastOf(groups) != []
  {
    var front, last := groups[..|groups| - 1], LastOf(groups);
    if |last| == 1 then front else front + [last[..|last| - 1]]
  }

  lemma WithoutLastPartitions(groups: seq<seq<Timed>>, timed: seq<Timed>)
    requires Partitions(groups, timed) && timed != []
    ensures groups != [] && LastOf(groups) != [] && LastOf(LastOf(groups)) == LastOf(timed)
    ensures Compatible(LastOf(groups))
    ensures Partitions(WithoutLast(groups), timed[..|timed| - 1])
    ensures Coarse(groups) ==> Coarse(WithoutLast(groups))
  {
    FlattenEndsInLast(groups);
    var front, last := groups[..|groups| - 1], LastOf(groups);
    if |last| > 1 {
      FlattenOfAppend(front, last[..|last| - 1]);
      assert last == last[..|last| - 1] + [LastOf(last)];
      CompatibleGrows(last[..|last| - 1], LastOf(last));
      var shorter := WithoutLast(groups);
      assert forall i :: 0 <= i < |front| ==> shorter[i] == groups[i];
      assert LastOf(shorter)[0] == last[0];
    }
  }

  /** There is no other: every partition that cannot be joined any further is the grouping. */
  lemma {:induction false} GroupedIsUnique(groups: seq<seq<Timed>>, timed: seq<Timed>)
    requires Partitions(groups, timed) && Coarse(groups)
    ensures groups == Grouped(timed)
    decreases |timed|
  {
    if timed == [] {
      EmptyPartition(groups);
    } else {
      WithoutLastPartitions(groups, timed);
      GroupedIsUnique(WithoutLast(groups), timed[..|timed| - 1]);
      LastAlertPlaced(groups, timed[..|timed| - 1], LastOf(timed));
      assert timed == timed[..|timed| - 1] + [LastOf(timed)];
    }
  }

  lemma EmptyPartition(groups: seq<seq<Timed>>)
    requires Partitions(groups, [])
    ensures groups == []
  {
    if groups != [] {
      FlattenEndsInLast(groups);
    }
  }

  lemma CoarseEnd(groups: seq<seq<Timed>>, k: nat)
    requires Coarse(groups) && |groups| == k + 2 && groups[k] != [] && groups[k + 1] != []
    ensures !BelongTogether(LastOf(groups[k]), groups[k + 1][0])
  {
  }

  lemma LastAlertAlone(front: seq<seq<Timed>>, init: seq<Timed>, current: Timed)
    requires Coarse(front + [[current]]) && front == Grouped(init)
    ensures front + [[current]] == Grouped(init + [current])
  {
    if front != [] {
      var groups := front + [[current]];
      assert groups[|front| - 1] == LastOf(front) && groups[|front|] == [current];
      CoarseEnd(groups, |front| - 1);
    }
    GroupedStarts(init, current);
  }

  lemma LastAlertJoined(front: seq<seq<Timed>>, shorter: seq<Timed>, init: seq<Timed>, current: Timed)
    requires shorter != [] && Compatible(shorter + [current])
    requires front + [shorter] == Grouped(init)
    ensures front + [shorter + [current]] == Grouped(init + [current])
  {
    CompatibleGrows(shorter, current);
    GroupedJoins(init, front, shorter, current);
  }

  lemma LastAlertPlaced(groups: seq<seq<Timed>>, init: seq<Timed>, current: Timed)
    requires groups != [] && LastOf(groups) != [] && LastOf(LastOf(groups)) == current
    requires Coarse(groups) && Compatible(LastOf(groups)) && WithoutLast(groups) == Grouped(init)
    ensures groups == Grouped(init + [current])
  {
    var front, last := groups[..|groups| - 1], LastOf(groups);
    assert groups == front + [last];
    if |last| == 1 {
      assert last == [current];
      LastAlertAlone(front, init, current);
    } else {
      assert last == last[..|last| - 1] + [current];
      LastAlertJoined(front, last[..|last| - 1], init, current);
    }
  }

  // An alert that belongs to the one before it needs no new group.
  lemma JoinsLastGroup(init: seq<Timed>, current: Timed)
    requires init != [] && BelongTogether(LastOf(init), current)
    ensures |Grouped(init + [current])| == |Grouped(init)|
  {
    var groups := Grouped(init);
    GroupedPartitions(init);
    FlattenEndsInLast(groups);
    var front, last := groups[..|groups| - 1], LastOf(groups);
    assert groups == front + [last];
    GroupedJoins(init, front, last, current);
  }

  lemma NeedsOneGroup(init: seq<Timed>, current: Timed)
    ensures |Grouped(init + [current])| <= |Grouped(init)| + 1
  {
    assert (init + [current])[..|init|] == init;
  }

  // The last alert of a partition whose last group holds more belongs to the one before it.
  lemma LastBelongs(groups: seq<seq<Timed>>, timed: seq<Timed>)
    requires Partitions(groups, timed) && groups != [] && |LastOf(groups)| > 1
    ensures |timed| > 1 && BelongTogether(LastOf(timed[..|timed| - 1]), LastOf(timed))
  {
    var last := LastOf(groups);
    FlattenEndsInLast(groups);
    assert last == last[..|last| - 1] + [LastOf(last)];
    CompatibleGrows(last[..|last| - 1], LastOf(last));
  }

  /** No partition into compatible groups has fewer of them. */
  lemma {:induction false} GroupedIsCoarsest(groups: seq<seq<Timed>>, timed: seq<Timed>)
    requires Partitions(groups, timed)
    ensures |Grouped(timed)| <= |groups|
    decreases |timed|
  {
    if timed != [] {
      var init, current := timed[..|timed| - 1], LastOf(timed);
      WithoutLastPartitions(groups, timed);
      GroupedIsCoarsest(WithoutLast(groups), init);
      assert timed == init + [current];
      if |LastOf(groups)| > 1 {
        LastBelongs(groups, timed);
        JoinsLastGroup(init, current);
      } else {
        NeedsOneGroup(init, current);
      }
    }
  }

  // ---- The timeline -----------------------------------------------------------------------

  datatype Entry = Entry(
    startTime: int,
    endTime: int,
    detectorId: string,
    severity: Severity,
    title: string,
    alertCount: nat,
    sampleMessage: string)

  function BuildEntry(group: seq<Timed>): Entry
    requires group != []
  {
    var first := group[0];
    Entry(first.time, LastOf(group).time, first.alert.detectorId, first.alert.severity, first.alert.title,
          |group|, first.alert.message)
  }

  function Entries(groups: seq<seq<Timed>>): (entries: seq<Entry>)
    requires forall i :: 0 <= i < |groups| ==> groups[i] != []
    ensures |entries| == |groups|
    ensures forall i :: 0 <= i < |groups| ==> entries[i] == BuildEntry(groups[i])
  {
    seq(|groups|, i requires 0 <= i < |groups| => BuildEntry(groups[i]))
  }

  ghost predicate ByTime(timed: seq<Timed>) {
    forall i, j :: 0 <= i <= j < |timed| ==> timed[i].time <= timed[j].time
  }

  lemma InOrderIsByTime(alerts: seq<Alert>)
    ensures ByTime(InOrder(alerts))
    ensures multiset(SortRows(Collected(alerts))) == multiset(Collected(alerts))
    ensures Sorted(SortRows(Collected(alerts)))
  {
    SortRowsSorts(Collected(alerts));
  }

  // Each group lies in the whole at its place.
  lemma {:induction false} GroupLies(groups: seq<seq<Timed>>, g: nat) returns (at: nat)
    requires g < |groups|
    ensures at + |groups[g]| <= |Flatten(groups)|
    ensures Flatten(groups)[at..at + |groups[g]|] == groups[g]
    ensures at == |Flatten(groups[..g])|
  {
    var front := groups[..|groups| - 1];
    if g == |groups| - 1 {
      at := |Flatten(front)|;
    } else {
      at := GroupLies(front, g);
      assert front[..g] == groups[..g];
      assert Flatten(groups)[..|Flatten(front)|] == Flatten(front);
    }
  }

  lemma {:induction false} FlattenGrows(groups: seq<seq<Timed>>, g: nat, h: nat)
    requires g < h <= |groups|
    ensures |Flatten(groups[..g])| + |groups[g]| <= |Flatten(groups[..h])|
  {
    assert groups[..h][..h - 1] == groups[..h - 1];
    if g + 1 < h {
      FlattenGrows(groups, g, h - 1);
    }
  }

  // Where a group lies in the whole, its first and last alert do too.
  lemma GroupTimes(timed: seq<Timed>, groups: seq<seq<Timed>>, g: nat) returns (at: nat)
    requires g < |groups| && Flatten(groups) == timed && groups[g] != []
    ensures at == |Flatten(groups[..g])| && at + |groups[g]| <= |timed|
    ensures groups[g][0] == timed[at] && LastOf(groups[g]) == timed[at + |groups[g]| - 1]
  {
    at := GroupLies(groups, g);
    var slice := timed[at..at + |groups[g]|];
    assert slice[0] == timed[at] && LastOf(slice) == timed[at + |groups[g]| - 1];
  }

  lemma GroupsAreOrdered(timed: seq<Timed>, groups: seq<seq<Timed>>, g: nat, h: nat)
    requires ByTime(timed) && Partitions(groups, timed) && g <= h < |groups|
    ensures groups[g][0].time <= LastOf(groups[g]).time
    ensures g < h ==> LastOf(groups[g]).time <= groups[h][0].time
  {
    var at := GroupTimes(timed, groups, g);
    if g < h {
      var later := GroupTimes(timed, groups, h);
      FlattenGrows(groups, g, h);
    }
  }

  /** The entries of a timeline do not overlap: each starts no earlier than the one before ends. */
  lemma EntriesAreOrdered(alerts: seq<Alert>, g: nat, h: nat)
    requires g <= h < |Grouped(InOrder(alerts))|
    ensures var entries := Entries(Grouped(InOrder(alerts)));
            && entries[g].startTime <= entries[g].endTime
            && (g < h ==> entries[g].endTime <= entries[h].startTime)
  {
    InOrderIsByTime(alerts);
    GroupedPartitions(InOrder(alerts));
    GroupsAreOrdered(InOrder(alerts), Grouped(InOrder(alerts)), g, h);
  }

  // The alerts counted by the first n entries.
  function CountedBefore(entries: seq<Entry>, n: nat): nat
    requires n <= |entries|
  {
    if n == 0 then 0 else CountedBefore(entries, n - 1) + entries[n - 1].alertCount
  }

  lemma {:induction false} CountedLies(groups: seq<seq<Timed>>, n: nat)
    requires n <= |groups| && forall i :: 0 <= i < |groups| ==> groups[i] != []
    ensures CountedBefore(Entries(groups), n) == |Flatten(groups[..n])|
  {
    if n > 0 {
      CountedLies(groups, n - 1);
      assert groups[..n][..n - 1] == groups[..n - 1];
    }
  }

  // An entry tells of a stretch of alerts no more than a minute apart: its ends, what they share, and
  // the first message.
  ghost predicate TellsOf(entry: Entry, stretch: seq<Timed>) {
    && entry.alertCount == |stretch| > 0
    && entry.startTime == stretch[0].time && entry.endTime == LastOf(stretch).time
    && entry.sampleMessage == stretch[0].alert.message
    && forall i :: 0 <= i < |stretch| ==>
         && stretch[i].alert.detectorId == entry.detectorId
         && stretch[i].alert.severity == entry.severity
         && stretch[i].alert.title == entry.title
         && (i > 0 ==> stretch[i].time - stretch[i - 1].time <= 60)
  }

  lemma {:induction false} CompatibleShares(group: seq<Timed>, i: nat)
    requires Compatible(group) && i < |group|
    ensures group[i].alert.detectorId == group[0].alert.detectorId
    ensures group[i].alert.severity == group[0].alert.severity
    ensures group[i].alert.title == group[0].alert.title
  {
    if i > 0 {
      CompatibleShares(group, i - 1);
      assert BelongTogether(group[i - 1], group[i]);
    }
  }

  lemma EntryTellsGroup(group: seq<Timed>)
    requires group != [] && Compatible(group)
    ensures TellsOf(BuildEntry(group), group)
  {
    forall i | 0 <= i < |group|
      ensures group[i].alert.detectorId == group[0].alert.detectorId
      ensures group[i].alert.severity == group[0].alert.severity
      ensures group[i].alert.title == group[0].alert.title
      ensures i > 0 ==> group[i].time - group[i - 1].time <= 60
    {
      CompatibleShares(group, i);
      assert i > 0 ==> BelongTogether(group[i - 1], group[i]);
    }
  }

  /**
   The timeline tells of all the ordered alerts, one stretch after the other: each entry of as many
   as it counts, from where the ones before it end.
   */
  lemma TimelineTellsAll(alerts: seq<Alert>, g: nat)
    requires g < |Grouped(InOrder(alerts))|
    ensures var timed, entries := InOrder(alerts), Entries(Grouped(InOrder(alerts)));
            var from, to := CountedBefore(entries, g), CountedBefore(entries, g + 1);
            && from < to <= |timed| && TellsOf(entries[g], timed[from..to])
            && CountedBefore(entries, |entries|) == |timed|
  {
    var timed, groups := InOrder(alerts), Grouped(InOrder(alerts));
    GroupedPartitions(timed);
    CountedLies(groups, g);
    CountedLies(groups, |groups|);
    assert groups[..|groups|] == groups;
    var at := GroupLies(groups, g);
    EntryTellsGroup(groups[g]);
  }

  /** Neighbouring entries differ in detector, severity or title, or lie more than a minute apart. */
  lemma EntriesStayApart(alerts: seq<Alert>, g: nat)
    requires g + 1 < |Grouped(InOrder(alerts))|
    ensures var a, b := Entries(Grouped(InOrder(alerts)))[g], Entries(Grouped(InOrder(alerts)))[g + 1];
            a.detectorId != b.detectorId || a.severity != b.severity || a.title != b.title
            || b.startTime - a.endTime > 60
  {
    var groups := Grouped(InOrder(alerts));
    GroupedPartitions(InOrder(alerts));
    var last := |groups[g]| - 1;
    CompatibleShares(groups[g], last);
    assert !BelongTogether(LastOf(groups[g]), groups[g + 1][0]);
  }

  function Titles(groups: seq<seq<Timed>>): (titles: seq<string>)
    requires forall i :: 0 <= i < |groups| ==> groups[i] != []
    ensures |titles| == |groups|
    ensures forall i :: 0 <= i < |groups| ==> titles[i] == groups[i][0].alert.title
  {
    seq(|groups|, i requires 0 <= i < |groups| => groups[i][0].alert.title)
  }

  /** Count incidents by title; the counts add up to the number of incidents. */
  method CountIncidentCategories(incidents: seq<seq<Timed>>) returns (counts: map<string, nat>)
    requires forall i :: 0 <= i < |incidents| ==> incidents[i] != []
    ensures counts == Tally(Titles(incidents))
    ensures SumOf(counts) == |incidents|
  {
    counts := map[];
    for i := 0 to |incidents|
      invariant counts == Tally(Titles(incidents[..i]))
    {
      assert Titles(incidents[..i + 1])[..i] == Titles(incidents[..i]);
      counts := Counted(counts, incidents[i][0].alert.title);
    }
    assert incidents[..|incidents|] == incidents;
    TallyAddsUp(Titles(incidents));
  }

  // ---- Order of the input -------------------------------------------------------------------

  function Usable(alerts: seq<Alert>): seq<Timed> {
    TimedRows(Collected(alerts))
  }

  ghost predicate DistinctTimes(timed: seq<Timed>) {
    forall i, j :: 0 <= i < j < |timed| ==> timed[i].time != timed[j].time
  }

  ghost predicate StrictlyByTime(timed: seq<Timed>) {
    forall i, j :: 0 <= i < j < |timed| ==> timed[i].time < timed[j].time
  }

  // Two strict layouts of the same alerts start with the same one.
  lemma SameHead(a: seq<Timed>, b: seq<Timed>)
    requires StrictlyByTime(a) && StrictlyByTime(b) && multiset(a) == multiset(b) && a != [] && b != []
    ensures a[0] == b[0]
  {
    assert a[0] in multiset(b) && b[0] in multiset(a);
    var i :| 0 <= i < |b| && b[i] == a[0];
    var j :| 0 <= j < |a| && a[j] == b[0];
  }

  lemma SameTail(a: seq<Timed>, b: seq<Timed>)
    requires a != [] && b != [] && a[0] == b[0] && multiset(a) == multiset(b)
    ensures multiset(a[1..]) == multiset(b[1..])
  {
    assert a == [a[0]] + a[1..] && b == [b[0]] + b[1..];
    assert multiset(a[1..]) == multiset(a) - multiset{a[0]};
    assert multiset(b[1..]) == multiset(b) - multiset{b[0]};
  }

  // In strict order of time there is only one way to lay out the same alerts.
  lemma {:induction false} StrictOrderIsUnique(a: seq<Timed>, b: seq<Timed>)
    requires StrictlyByTime(a) && StrictlyByTime(b) && multiset(a) == multiset(b)
    ensures a == b
    decreases |a|
  {
    assert |a| == |multiset(a)| == |multiset(b)| == |b|;
    if a != [] {
      SameHead(a, b);
      SameTail(a, b);
      StrictOrderIsUnique(a[1..], b[1..]);
      assert a == [a[0]] + a[1..] && b == [b[0]] + b[1..];
    }
  }

  lemma TimedRowsOfCons(row: Sortable, rows: seq<Sortable>)
    ensures TimedRows([row] + rows) == [Timed(row.time, row.alert)] + TimedRows(rows)
  {
  }

  lemma {:induction false} InsertRowKeeps(row: Sortable, rows: seq<Sortable>)
    ensures multiset(TimedRows(InsertRow(row, rows))) == multiset(TimedRows(rows)) + multiset{Timed(row.time, row.alert)}
  {
    TimedRowsOfCons(row, rows);
    if rows != [] && !Before(row, rows[0]) {
      InsertRowKeeps(row, rows[1..]);
      assert rows == [rows[0]] + rows[1..];
      TimedRowsOfCons(rows[0], rows[1..]);
      TimedRowsOfCons(rows[0], InsertRow(row, rows[1..]));
    }
  }

  lemma {:induction false} SortRowsKeep(rows: seq<Sortable>)
    ensures multiset(TimedRows(SortRows(rows))) == multiset(TimedRows(rows))
  {
    if rows != [] {
      SortRowsKeep(rows[1..]);
      InsertRowKeeps(rows[0], SortRows(rows[1..]));
      assert rows == [rows[0]] + rows[1..];
      TimedRowsOfCons(rows[0], rows[1..]);
    }
  }

  // The usable alerts, each as often as it occurs, whatever the order of the input.
  lemma {:induction false} UsableKeeps(alerts: seq<Alert>, timed: Timed)
    ensures multiset(Usable(alerts))[timed]
            == if timed.alert.time == Some(timed.time) then multiset(alerts)[timed.alert] else 0
  {
    if alerts != [] {
      var init, last := alerts[..|alerts| - 1], alerts[|alerts| - 1];
      UsableKeeps(init, timed);
      assert alerts == init + [last];
      if last.time.Some? {
        assert Usable(alerts) == Usable(init) + [Timed(last.time.value, last)];
      } else {
        assert Usable(alerts) == Usable(init);
      }
    }
  }

  lemma InOrderKeeps(alerts: seq<Alert>)
    ensures multiset(InOrder(alerts)) == multiset(Usable(alerts))
  {
    SortRowsKeep(Collected(alerts));
  }

  lemma DistinctTimesAreStrict(timed: seq<Timed>, usable: seq<Timed>)
    requires ByTime(timed) && multiset(timed) == multiset(usable) && DistinctTimes(usable)
    ensures StrictlyByTime(timed)
  {
    forall i, j | 0 <= i < j < |timed|
      ensures timed[i].time < timed[j].time
    {
      if timed[i].time == timed[j].time {
        TwoOfOneTime(timed, usable, i, j);
      }
    }
  }

  lemma TwoOfOneTime(timed: seq<Timed>, usable: seq<Timed>, i: nat, j: nat)
    requires i < j < |timed| && timed[i].time == timed[j].time
    requires multiset(timed) == multiset(usable)
    ensures !DistinctTimes(usable)
  {
    assert timed[i] in multiset(usable) && timed[j] in multiset(usable);
    if timed[i] != timed[j] {
      var k :| 0 <= k < |usable| && usable[k] == timed[i];
      var l :| 0 <= l < |usable| && usable[l] == timed[j];
    } else {
      TwiceInMultiset(timed, i, j);
      TwiceInSequence(usable, timed[i]);
    }
  }

  lemma TwiceInMultiset(s: seq<Timed>, i: nat, j: nat)
    requires i < j < |s| && s[i] == s[j]
    ensures multiset(s)[s[i]] >= 2
  {
    assert s == s[..j] + s[j..];
    assert s[i] in s[..j] && s[j] in s[j..];
  }

  lemma TwiceInSequence(s: seq<Timed>, x: Timed)
    requires multiset(s)[x] >= 2
    ensures !DistinctTimes(s)
  {
    var k :| 0 <= k < |s| && s[k] == x;
    var rest := s[..k] + s[k + 1..];
    assert s == s[..k] + [x] + s[k + 1..];
    assert x in multiset(rest);
    var l :| 0 <= l < |rest| && rest[l] == x;
    assert s[if l < k then l else l + 1] == x;
  }

  /** With distinct times the incidents do not depend on the order the alerts come in. */
  lemma InputOrderDoesNotMatter(alerts: seq<Alert>, other: seq<Alert>)
    requires multiset(alerts) == multiset(other) && DistinctTimes(Usable(alerts))
    ensures Grouped(InOrder(alerts)) == Grouped(InOrder(other))
  {
    InOrderKeeps(alerts);
    InOrderKeeps(other);
    forall timed: Timed ensures multiset(Usable(alerts))[timed] == multiset(Usable(other))[timed] {
      UsableKeeps(alerts, timed);
      UsableKeeps(other, timed);
    }
    assert multiset(Usable(alerts)) == multiset(Usable(other));
    InOrderIsByTime(alerts);
    InOrderIsByTime(other);
    DistinctTimesAreStrict(InOrder(alerts), Usable(alerts));
    DistinctTimesAreStrict(InOrder(other), Usable(alerts));
    StrictOrderIsUnique(InOrder(alerts), InOrder(other));
  }

  // ---- Summary and timeline -------------------------------------------------------------------

  lemma {:induction false} UsableTimes(alerts: seq<Alert>)
    ensures |Times(alerts)| == |Usable(alerts)|
    ensures forall i :: 0 <= i < |Usable(alerts)| ==> Times(alerts)[i] == Usable(alerts)[i].time
  {
    if alerts != [] {
      UsableTimes(alerts[..|alerts| - 1]);
    }
  }

  // The ends of alerts in order are the earliest and the latest of their times.
  lemma EndsBound(timed: seq<Timed>, usable: seq<Timed>, times: seq<int>)
    requires timed != [] && ByTime(timed) && multiset(timed) == multiset(usable)
    requires |times| == |usable| && forall i :: 0 <= i < |usable| ==> times[i] == usable[i].time
    ensures Bounds(times, Some(timed[0].time), Some(LastOf(timed).time))
  {
    assert timed[0] in multiset(usable) && LastOf(timed) in multiset(usable);
    assert timed[0] in usable && LastOf(timed) in usable;
    forall i | 0 <= i < |times|
      ensures timed[0].time <= times[i] <= LastOf(timed).time
    {
      assert usable[i] in multiset(timed);
      assert usable[i] in timed;
    }
  }

  lemma EndsAreBounds(alerts: seq<Alert>)
    requires InOrder(alerts) != []
    ensures Bounds(Times(alerts), Some(InOrder(alerts)[0].time), Some(LastOf(InOrder(alerts)).time))
  {
    InOrderIsByTime(alerts);
    InOrderKeeps(alerts);
    UsableTimes(alerts);
    EndsBound(InOrder(alerts), Usable(alerts), Times(alerts));
  }

  // The first entry starts with the first alert in order, and the last one ends with the last.
  lemma TimelineEnds(alerts: seq<Alert>)
    requires InOrder(alerts) != []
    ensures var entries := Entries(Grouped(InOrder(alerts)));
            && entries != []
            && entries[0].startTime == InOrder(alerts)[0].time
            && LastOf(entries).endTime == LastOf(InOrder(alerts)).time
  {
    var timed := InOrder(alerts);
    GroupedPartitions(timed);
    var at := GroupTimes(timed, Grouped(timed), 0);
    FlattenEndsInLast(Grouped(timed));
  }

  lemma BoundsAreUnique(times: seq<int>, first: Option<int>, last: Option<int>, low: Option<int>, high: Option<int>)
    requires Bounds(times, first, last) && Bounds(times, low, high)
    ensures first == low && last == high
  {
  }

  /** The summary's first and last times are where the timeline starts and ends. */
  lemma SummaryMatchesTimeline(alerts: seq<Alert>, first: Option<int>, last: Option<int>)
    requires Bounds(Times(alerts), first, last)
    ensures var entries := Entries(Grouped(InOrder(alerts)));
            if entries == [] then first == None && last == None
            else first == Some(entries[0].startTime) && last == Some(LastOf(entries).endTime)
  {
    var timed := InOrder(alerts);
    if timed != [] {
      EndsAreBounds(alerts);
      BoundsAreUnique(Times(alerts), first, last, Some(timed[0].time), Some(LastOf(timed).time));
      TimelineEnds(alerts);
    } else {
      UsableTimes(alerts);
      InOrderKeeps(alerts);
      assert |multiset(timed)| == |multiset(Usable(alerts))|;
    }
  }
}
