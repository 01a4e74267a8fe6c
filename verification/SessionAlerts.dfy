/** Raw session alerts: the filters of a query and the one-pass summary of what they leave. */
module SessionAlerts {
  import opened Prelude

  datatype Severity = Info | Warning

  // An alert row; a timestamp that cannot be parsed is no time.
  datatype Alert = Alert(
    time: Option<int>,
    detectorId: string,
    severity: Severity,
    title: string,
    sourceName: string,
    message: string)

  datatype Query = Query(
    detectorId: Option<string>,
    severity: Option<Severity>,
    startTime: Option<int>,
    endTime: Option<int>)

  predicate Matches(query: Query, alert: Alert) {
    && (query.detectorId.Some? ==> alert.detectorId == query.detectorId.value)
    && (query.severity.Some? ==> alert.severity == query.severity.value)
    && (query.startTime.Some? || query.endTime.Some? ==> alert.time.Some?)
    && (query.startTime.Some? ==> alert.time.Some? && query.startTime.value <= alert.time.value)
    && (query.endTime.Some? ==> alert.time.Some? && alert.time.value <= query.endTime.value)
  }

  function Filtered(query: Query, alerts: seq<Alert>): (kept: seq<Alert>)
    ensures forall i :: 0 <= i < |kept| ==> Matches(query, kept[i])
  {
    if alerts == [] then []
    else (if Matches(query, alerts[0]) then [alerts[0]] else []) + Filtered(query, alerts[1..])
  }

  /** A query keeps exactly the alerts that match it, each as often as it occurs. */
  lemma {:induction false} FilteredKeepsMatches(query: Query, alerts: seq<Alert>, alert: Alert)
    ensures multiset(Filtered(query, alerts))[alert] == if Matches(query, alert) then multiset(alerts)[alert] else 0
  {
    if alerts != [] {
      FilteredKeepsMatches(query, alerts[1..], alert);
      assert alerts == [alerts[0]] + alerts[1..];
    }
  }

  /**
   The alerts kept are those of the detector and the severity asked for, at a usable time no earlier
   than the start and no later than the end, where the query asks for these.
   */
  lemma FilteredMeans(query: Query, alerts: seq<Alert>, alert: Alert)
    ensures alert in Filtered(query, alerts)
            <==> && alert in alerts
                 && (query.detectorId == None || query.detectorId == Some(alert.detectorId))
                 && (query.severity == None || query.severity == Some(alert.severity))
                 && (query.startTime == None
                     || (alert.time.Some? && alert.time.value >= query.startTime.value))
                 && (query.endTime == None || (alert.time.Some? && alert.time.value <= query.endTime.value))
  {
    FilteredKeepsMatches(query, alerts, alert);
    assert alert in alerts <==> multiset(alerts)[alert] > 0;
    assert alert in Filtered(query, alerts) <==> multiset(Filtered(query, alerts))[alert] > 0;
  }

  /** A query keeps the order: what it keeps of two stretches is what it keeps of one and then of the other. */
  lemma {:induction false} FilteredInOrder(query: Query, first: seq<Alert>, second: seq<Alert>)
    ensures Filtered(query, first + second) == Filtered(query, first) + Filtered(query, second)
    decreases |first|
  {
    if first == [] {
      assert first + second == second;
    } else {
      assert (first + second)[0] == first[0] && (first + second)[1..] == first[1..] + second;
      FilteredInOrder(query, first[1..], second);
    }
  }

  // One more occurrence of a key.
  function Counted<K(==)>(counts: map<K, nat>, key: K): map<K, nat> {
    counts[key := (if key in counts then counts[key] else 0) + 1]
  }

  // How often each key occurs.
  function Tally<K(==)>(keys: seq<K>): map<K, nat> {
    if keys == [] then map[] else Counted(Tally(keys[..|keys| - 1]), keys[|keys| - 1])
  }

  /** A tally holds exactly the keys that occur, each with the number of its occurrences. */
  lemma {:induction false} TallyCounts<K>(keys: seq<K>, key: K)
    ensures key in Tally(keys) <==> key in keys
    ensures key in keys ==> Tally(keys)[key] == multiset(keys)[key]
  {
    if keys != [] {
      var init, last := keys[..|keys| - 1], keys[|keys| - 1];
      assert keys == init + [last];
      TallyCounts(init, key);
    }
  }

  // The values of a map of counts added up.
  ghost function SumOf<K>(counts: map<K, nat>): nat
    decreases |counts|
  {
    if counts == map[] then 0
    else
      var key :| key in counts;
      counts[key] + SumOf(counts - {key})
  }

  lemma {:induction false} SumWithout<K>(counts: map<K, nat>, key: K)
    requires key in counts
    ensures SumOf(counts) == counts[key] + SumOf(counts - {key})
    decreases |counts|
  {
    var first :| first in counts && SumOf(counts) == counts[first] + SumOf(counts - {first});
    if first != key {
      SumWithout(counts - {first}, key);
      SumWithout(counts - {key}, first);
      assert counts - {first} - {key} == counts - {key} - {first};
    }
  }

  lemma SumOfCounted<K>(counts: map<K, nat>, key: K)
    ensures SumOf(Counted(counts, key)) == SumOf(counts) + 1
  {
    var more := Counted(counts, key);
    SumWithout(more, key);
    assert more - {key} == counts - {key};
    if key in counts {
      SumWithout(counts, key);
    } else {
      assert counts - {key} == counts;
    }
  }

  /** The counts of a tally add up to the number of keys. */
  lemma {:induction false} TallyAddsUp<K>(keys: seq<K>)
    ensures SumOf(Tally(keys)) == |keys|
  {
    if keys != [] {
      TallyAddsUp(keys[..|keys| - 1]);
      SumOfCounted(Tally(keys[..|keys| - 1]), keys[|keys| - 1]);
    }
  }

  function Times(alerts: seq<Alert>): seq<int> {
    if alerts == [] then []
    else
      Times(alerts[..|alerts| - 1])
      + if alerts[|alerts| - 1].time.Some? then [alerts[|alerts| - 1].time.value] else []
  }

  function Detectors(alerts: seq<Alert>): (detectors: seq<string>)
    ensures |detectors| == |alerts|
  {
    seq(|alerts|, i requires 0 <= i < |alerts| => alerts[i].detectorId)
  }

  function Severities(alerts: seq<Alert>): (severities: seq<Severity>)
    ensures |severities| == |alerts|
  {
    seq(|alerts|, i requires 0 <= i < |alerts| => alerts[i].severity)
  }

  // The least and the greatest of some times.
  ghost predicate Bounds(times: seq<int>, first: Option<int>, last: Option<int>) {
    && (first.None? <==> times == []) && (last.None? <==> times == [])
    && (times != [] ==>
          && first.value in times && last.value in times
          && forall i :: 0 <= i < |times| ==> first.value <= times[i] <= last.value)
  }

  datatype Summary = Summary(
    totalAlerts: nat,
    countsByDetector: map<string, nat>,
    countsBySeverity: map<Severity, nat>,
    firstTime: Option<int>,
    lastTime: Option<int>)

  /** One pass over the alerts: counts per detector and severity, and the earliest and latest time. */
  method BuildAlertSummary(alerts: seq<Alert>) returns (summary: Summary)
    ensures summary.totalAlerts == |alerts|
    ensures summary.countsByDetector == Tally(Detectors(alerts))
    ensures summary.countsBySeverity == Tally(Severities(alerts))
    ensures Bounds(Times(alerts), summary.firstTime, summary.lastTime)
    ensures SumOf(summary.countsByDetector) == SumOf(summary.countsBySeverity) == summary.totalAlerts
  {
    var byDetector: map<string, nat>, bySeverity: map<Severity, nat> := map[], map[];
    var first: Option<int>, last: Option<int> := None, None;
    for i := 0 to |alerts|
      invariant byDetector == Tally(Detectors(alerts[..i]))
      invariant bySeverity == Tally(Severities(alerts[..i]))
      invariant Bounds(Times(alerts[..i]), first, last)
    {
      OneMoreDetector(alerts, i);
      OneMoreSeverity(alerts, i);
      byDetector := Counted(byDetector, alerts[i].detectorId);
      bySeverity := Counted(bySeverity, alerts[i].severity);
      first, last := Widened(alerts, i, first, last);
    }
    assert alerts[..|alerts|] == alerts;
    TallyAddsUp(Detectors(alerts));
    TallyAddsUp(Severities(alerts));
    summary := Summary(|alerts|, byDetector, bySeverity, first, last);
  }

  // The bounds with one more alert taken into account.
  method Widened(alerts: seq<Alert>, i: nat, first: Option<int>, last: Option<int>)
    returns (first': Option<int>, last': Option<int>)
    requires i < |alerts| && Bounds(Times(alerts[..i]), first, last)
    ensures Bounds(Times(alerts[..i + 1]), first', last')
  {
    assert alerts[..i + 1][..i] == alerts[..i];
    first', last' := first, last;
    if alerts[i].time.Some? {
      var time := alerts[i].time.value;
      first' := if first.None? || time < first.value then Some(time) else first;
      last' := if last.None? || time > last.value then Some(time) else last;
    }
  }

  lemma OneMoreDetector(alerts: seq<Alert>, i: nat)
    requires i < |alerts|
    ensures Tally(Detectors(alerts[..i + 1])) == Counted(Tally(Detectors(alerts[..i])), alerts[i].detectorId)
  {
    assert Detectors(alerts[..i + 1])[..i] == Detectors(alerts[..i]);
  }

  lemma OneMoreSeverity(alerts: seq<Alert>, i: nat)
    requires i < |alerts|
    ensures Tally(Severities(alerts[..i + 1])) == Counted(Tally(Severities(alerts[..i])), alerts[i].severity)
  {
    assert Severities(alerts[..i + 1])[..i] == Severities(alerts[..i]);
  }
}
