/**
 The rolling state of the built-in rules: five dictionaries keyed by session, detector and source
 group, updated in place.  Streams do not disturb each other, and a reset forgets a session whole.
 */
module RuleState {
  import opened Prelude
  import opened BlackRule
  import opened BlurRule
  import BlackVerdicts
  import BlurVerdicts
  import opened Rounding

  type RuleKey = (string, string, string)

  const BLACK_DETECTOR := "video_metrics"
  const BLUR_DETECTOR := "video_blur"

  datatype RuleMaps = RuleMaps(
    blackWindows: map<RuleKey, seq<BlackSample>>,
    blackActive: map<RuleKey, bool>,
    blurWindows: map<RuleKey, seq<BlurSample>>,
    blurActive: map<RuleKey, bool>,
    blurCounts: map<RuleKey, nat>)

  const EMPTY_MAPS := RuleMaps(map[], map[], map[], map[], map[])

  datatype Policies = Policies(black: BlackPolicy, blur: BlurPolicy)

  function Get<V>(entries: map<RuleKey, V>, key: RuleKey, default: V): V {
    if key in entries then entries[key] else default
  }

  // What the maps hold for one stream.
  function BlackOf(maps: RuleMaps, key: RuleKey): BlackState {
    BlackState(Get(maps.blackWindows, key, []), Get(maps.blackActive, key, false))
  }

  function BlurOf(maps: RuleMaps, key: RuleKey): BlurState {
    BlurState(Get(maps.blurWindows, key, []), Get(maps.blurActive, key, false), Get(maps.blurCounts, key, 0))
  }

  // No active flag and no count without a window.
  ghost predicate Covered(maps: RuleMaps) {
    && maps.blackActive.Keys <= maps.blackWindows.Keys
    && maps.blurActive.Keys <= maps.blurWindows.Keys
    && maps.blurCounts.Keys <= maps.blurWindows.Keys
  }

  // An event of the store: a row of some stream, or the reset of a session.
  datatype Event =
    | BlackEvent(session: string, group: string, black: BlackRow)
    | BlurEvent(session: string, group: string, blur: BlurRow)
    | Reset(session: string)

  datatype Verdict = BlackVerdict(black: BlackDecision) | BlurVerdict(blur: BlurDecision) | Silent

  function KeyOf(event: Event): Option<RuleKey> {
    match event
    case BlackEvent(session, group, _) => Some((session, BLACK_DETECTOR, group))
    case BlurEvent(session, group, _) => Some((session, BLUR_DETECTOR, group))
    case Reset(_) => None
  }

  function WithBlack(maps: RuleMaps, key: RuleKey, state: BlackState, decision: BlackDecision): RuleMaps {
    maps.(blackWindows := maps.blackWindows[key := state.window],
          blackActive := if Alerts(decision) || decision.BlackRecovered?
                         then maps.blackActive[key := state.active] else maps.blackActive)
  }

  function WithBlur(maps: RuleMaps, key: RuleKey, state: BlurState, decision: BlurDecision): RuleMaps {
    maps.(blurWindows := maps.blurWindows[key := state.window],
          blurCounts := maps.blurCounts[key := state.samplesSeen],
          blurActive := if decision.BlurEntered? || decision.BlurRecovered?
                        then maps.blurActive[key := state.active] else maps.blurActive)
  }

  function OfSession(keys: set<RuleKey>, session: string): set<RuleKey> {
    set key | key in keys && key.0 == session
  }

  // A session is forgotten by the keys its windows have.
  function Forget(maps: RuleMaps, session: string): RuleMaps {
    var black, blur := OfSession(maps.blackWindows.Keys, session), OfSession(maps.blurWindows.Keys, session);
    RuleMaps(maps.blackWindows - black, maps.blackActive - black,
             maps.blurWindows - blur, maps.blurActive - blur, maps.blurCounts - blur)
  }

  function Apply(policies: Policies, maps: RuleMaps, event: Event): (RuleMaps, Verdict)
    requires ValidPolicy(policies.black)
  {
    match event
    case Reset(session) => (Forget(maps, session), Silent)
    case BlackEvent(session, group, row) =>
      var key := (session, BLACK_DETECTOR, group);
      var (state, decision) := BlackStep(policies.black, BlackOf(maps, key), row);
      (WithBlack(maps, key, state, decision), BlackVerdict(decision))
    case BlurEvent(session, group, row) =>
      var key := (session, BLUR_DETECTOR, group);
      var (state, decision) := BlurStep(policies.blur, BlurOf(maps, key), row);
      (WithBlur(maps, key, state, decision), BlurVerdict(decision))
  }

  // ---- One stream among others ---------------------------------------------------------

  // An event that concerns a stream: a row of it, or the reset of its session.
  predicate Concerns(event: Event, key: RuleKey) {
    if event.Reset? then event.session == key.0 else KeyOf(event) == Some(key)
  }

  function OwnEvents(events: seq<Event>, key: RuleKey): seq<Event> {
    if events == [] then []
    else (if Concerns(events[0], key) then [events[0]] else []) + OwnEvents(events[1..], key)
  }

  // The verdicts a stream gets among the given events.
  function VerdictsFor(policies: Policies, maps: RuleMaps, events: seq<Event>, key: RuleKey): seq<Verdict>
    requires ValidPolicy(policies.black)
    decreases |events|
  {
    if events == [] then []
    else
      var (maps', verdict) := Apply(policies, maps, events[0]);
      (if KeyOf(events[0]) == Some(key) then [verdict] else []) + VerdictsFor(policies, maps', events[1..], key)
  }

  // Two stores hold the same for one stream.
  ghost predicate SameStream(a: RuleMaps, b: RuleMaps, key: RuleKey) {
    BlackOf(a, key) == BlackOf(b, key) && BlurOf(a, key) == BlurOf(b, key)
  }

  lemma ForgetKeepsOthers(maps: RuleMaps, session: string, key: RuleKey)
    ensures key.0 != session ==> SameStream(Forget(maps, session), maps, key)
    ensures Covered(maps) && key.0 == session ==> SameStream(Forget(maps, session), EMPTY_MAPS, key)
    ensures Covered(maps) ==> Covered(Forget(maps, session))
  {
  }

  lemma ApplyKeepsCovered(policies: Policies, maps: RuleMaps, event: Event)
    requires ValidPolicy(policies.black) && Covered(maps)
    ensures Covered(Apply(policies, maps, event).0)
  {
    if event.Reset? {
      ForgetKeepsOthers(maps, event.session, ("", "", ""));
    }
  }

  lemma WithBlackIsLocal(maps: RuleMaps, key: RuleKey, state: BlackState, decision: BlackDecision)
    requires state.active == ActiveAfter(BlackOf(maps, key).active, decision)
    ensures BlackOf(WithBlack(maps, key, state, decision), key) == state
    ensures forall other :: other != key ==> SameStream(WithBlack(maps, key, state, decision), maps, other)
  {
  }

  lemma WithBlurIsLocal(maps: RuleMaps, key: RuleKey, state: BlurState, decision: BlurDecision)
    requires state.active == BlurActiveAfter(BlurOf(maps, key).active, decision)
    ensures BlurOf(WithBlur(maps, key, state, decision), key) == state
    ensures forall other :: other != key ==> SameStream(WithBlur(maps, key, state, decision), maps, other)
  {
  }

  lemma OtherEventsKeepStream(policies: Policies, maps: RuleMaps, event: Event, key: RuleKey)
    requires ValidPolicy(policies.black) && !Concerns(event, key)
    ensures SameStream(Apply(policies, maps, event).0, maps, key)
  {
    match event {
      case Reset(session) =>
        ForgetKeepsOthers(maps, session, key);
      case BlackEvent(session, group, row) =>
        var own := (session, BLACK_DETECTOR, group);
        var (state, decision) := BlackStep(policies.black, BlackOf(maps, own), row);
        WithBlackIsLocal(maps, own, state, decision);
      case BlurEvent(session, group, row) =>
        var own := (session, BLUR_DETECTOR, group);
        var (state, decision) := BlurStep(policies.blur, BlurOf(maps, own), row);
        WithBlurIsLocal(maps, own, state, decision);
    }
  }

  lemma SameEventSameStream(policies: Policies, a: RuleMaps, b: RuleMaps, event: Event, key: RuleKey)
    requires ValidPolicy(policies.black) && Covered(a) && Covered(b)
    requires Concerns(event, key) && SameStream(a, b, key)
    ensures SameStream(Apply(policies, a, event).0, Apply(policies, b, event).0, key)
    ensures Apply(policies, a, event).1 == Apply(policies, b, event).1
  {
    match event {
      case Reset(session) =>
        ForgetKeepsOthers(a, session, key);
        ForgetKeepsOthers(b, session, key);
      case BlackEvent(session, group, row) =>
        var (state, decision) := BlackStep(policies.black, BlackOf(a, key), row);
        WithBlackIsLocal(a, key, state, decision);
        WithBlackIsLocal(b, key, state, decision);
      case BlurEvent(session, group, row) =>
        var (state, decision) := BlurStep(policies.blur, BlurOf(a, key), row);
        WithBlurIsLocal(a, key, state, decision);
        WithBlurIsLocal(b, key, state, decision);
    }
  }

  /**
   Isolation: in any interleaving of rows and resets, a stream gets exactly the verdicts its own
   rows and resets would get alone.
   */
  lemma {:induction false} StreamsAreIsolated(policies: Policies, maps: RuleMaps, own: RuleMaps,
                                              events: seq<Event>, key: RuleKey)
    requires ValidPolicy(policies.black) && Covered(maps) && Covered(own) && SameStream(maps, own, key)
    ensures VerdictsFor(policies, maps, events, key) == VerdictsFor(policies, own, OwnEvents(events, key), key)
    decreases |events|
  {
    if events != [] {
      var event := events[0];
      var maps' := Apply(policies, maps, event).0;
      ApplyKeepsCovered(policies, maps, event);
      if Concerns(event, key) {
        var own' := Apply(policies, own, event).0;
        ApplyKeepsCovered(policies, own, event);
        SameEventSameStream(policies, maps, own, event, key);
        StreamsAreIsolated(policies, maps', own', events[1..], key);
        assert OwnEvents(events, key)[0] == event && OwnEvents(events, key)[1..] == OwnEvents(events[1..], key);
      } else {
        OtherEventsKeepStream(policies, maps, event, key);
        StreamsAreIsolated(policies, maps', own, events[1..], key);
        assert OwnEvents(events, key) == OwnEvents(events[1..], key);
      }
    }
  }

  // The maps after a number of events.
  function After(policies: Policies, maps: RuleMaps, events: seq<Event>): RuleMaps
    requires ValidPolicy(policies.black)
    decreases |events|
  {
    if events == [] then maps else After(policies, Apply(policies, maps, events[0]).0, events[1..])
  }

  lemma {:induction false} AlwaysCovered(policies: Policies, maps: RuleMaps, events: seq<Event>)
    requires ValidPolicy(policies.black) && Covered(maps)
    ensures Covered(After(policies, maps, events))
    decreases |events|
  {
    if events != [] {
      ApplyKeepsCovered(policies, maps, events[0]);
      AlwaysCovered(policies, Apply(policies, maps, events[0]).0, events[1..]);
    }
  }

  /**
   Complete reset: whatever happened before, after the reset of a session its streams get the
   verdicts of a fresh store, and all other streams those they would have got without it.
   */
  lemma ResetIsComplete(policies: Policies, before: seq<Event>, session: string, events: seq<Event>, key: RuleKey)
    requires ValidPolicy(policies.black)
    ensures var maps := After(policies, EMPTY_MAPS, before);
            VerdictsFor(policies, Forget(maps, session), events, key)
            == VerdictsFor(policies, if key.0 == session then EMPTY_MAPS else maps, events, key)
  {
    var maps := After(policies, EMPTY_MAPS, before);
    AlwaysCovered(policies, EMPTY_MAPS, before);
    ForgetKeepsOthers(maps, session, key);
    var like := if key.0 == session then EMPTY_MAPS else maps;
    StreamsAreIsolated(policies, Forget(maps, session), like, events, key);
    StreamsAreIsolated(policies, like, like, events, key);
  }

  function BlackEvents(session: string, group: string, rows: seq<BlackRow>): (events: seq<Event>)
    ensures |events| == |rows|
    ensures forall i :: 0 <= i < |rows| ==> events[i] == BlackEvent(session, group, rows[i])
  {
    seq(|rows|, i requires 0 <= i < |rows| => BlackEvent(session, group, rows[i]))
  }

  lemma VerdictsFromFirst(policies: Policies, maps: RuleMaps, event: Event, events: seq<Event>, key: RuleKey)
    requires ValidPolicy(policies.black) && KeyOf(event) == Some(key)
    ensures var (maps', verdict) := Apply(policies, maps, event);
            VerdictsFor(policies, maps, [event] + events, key) == [verdict] + VerdictsFor(policies, maps', events, key)
  {
    assert ([event] + events)[1..] == events;
  }

  // The verdicts of a black stream are its rule's decisions from some row on.
  ghost predicate BlackDecidesFrom(policies: Policies, state: BlackState, rows: seq<BlackRow>, seen: nat,
                                   verdicts: seq<Verdict>)
    requires ValidPolicy(policies.black)
  {
    && seen <= |rows| && |verdicts| == |rows| - seen
    && forall n :: seen <= n < |rows| ==>
         verdicts[n - seen] == BlackVerdict(DecisionAt(policies.black, state, rows, n))
  }

  lemma FirstBlackVerdict(policies: Policies, maps: RuleMaps, state: BlackState, session: string, group: string,
                          rows: seq<BlackRow>, seen: nat)
    requires ValidPolicy(policies.black) && seen < |rows|
    requires BlackOf(maps, (session, BLACK_DETECTOR, group)) == StateAt(policies.black, state, rows, seen)
    ensures var (maps', verdict) := Apply(policies, maps, BlackEvent(session, group, rows[seen]));
            && BlackOf(maps', (session, BLACK_DETECTOR, group)) == StateAt(policies.black, state, rows, seen + 1)
            && verdict == BlackVerdict(DecisionAt(policies.black, state, rows, seen))
  {
    var key := (session, BLACK_DETECTOR, group);
    var (next, decision) := BlackStep(policies.black, BlackOf(maps, key), rows[seen]);
    WithBlackIsLocal(maps, key, next, decision);
  }

  lemma BlackDecidesOneMore(policies: Policies, state: BlackState, rows: seq<BlackRow>, seen: nat,
                            verdicts: seq<Verdict>)
    requires ValidPolicy(policies.black)
    requires seen < |rows| && BlackDecidesFrom(policies, state, rows, seen + 1, verdicts)
    ensures BlackDecidesFrom(policies, state, rows, seen,
                             [BlackVerdict(DecisionAt(policies.black, state, rows, seen))] + verdicts)
  {
    var longer := [BlackVerdict(DecisionAt(policies.black, state, rows, seen))] + verdicts;
    forall n | seen <= n < |rows|
      ensures longer[n - seen] == BlackVerdict(DecisionAt(policies.black, state, rows, n))
    {
      if n > seen {
        assert longer[n - seen] == verdicts[n - (seen + 1)];
      }
    }
  }

  /** The verdicts of a black stream alone are the decisions of the black rule, so its bounds apply. */
  lemma {:induction false} VerdictsAreDecisions(policies: Policies, maps: RuleMaps, state: BlackState, session: string,
                                                group: string, rows: seq<BlackRow>, seen: nat)
    requires ValidPolicy(policies.black) && seen <= |rows|
    requires BlackOf(maps, (session, BLACK_DETECTOR, group)) == StateAt(policies.black, state, rows, seen)
    ensures BlackDecidesFrom(policies, state, rows, seen,
                             VerdictsFor(policies, maps, BlackEvents(session, group, rows[seen..]),
                                         (session, BLACK_DETECTOR, group)))
    decreases |rows| - seen
  {
    if seen < |rows| {
      var key, event := (session, BLACK_DETECTOR, group), BlackEvent(session, group, rows[seen]);
      var maps' := Apply(policies, maps, event).0;
      var rest := BlackEvents(session, group, rows[seen + 1..]);
      FirstBlackVerdict(policies, maps, state, session, group, rows, seen);
      VerdictsAreDecisions(policies, maps', state, session, group, rows, seen + 1);
      BlackDecidesOneMore(policies, state, rows, seen, VerdictsFor(policies, maps', rest, key));
      VerdictsFromFirst(policies, maps, event, rest, key);
      assert BlackEvents(session, group, rows[seen..]) == [event] + rest;
    }
  }

  function BlurEvents(session: string, group: string, rows: seq<BlurRow>): (events: seq<Event>)
    ensures |events| == |rows|
    ensures forall i :: 0 <= i < |rows| ==> events[i] == BlurEvent(session, group, rows[i])
  {
    seq(|rows|, i requires 0 <= i < |rows| => BlurEvent(session, group, rows[i]))
  }

  lemma FirstBlurVerdict(policies: Policies, maps: RuleMaps, session: string, group: string,
                         rows: seq<BlurRow>, seen: nat)
    requires ValidPolicy(policies.black) && seen < |rows|
    requires BlurOf(maps, (session, BLUR_DETECTOR, group)) == BlurStateAt(policies.blur, rows, seen)
    ensures var (maps', verdict) := Apply(policies, maps, BlurEvent(session, group, rows[seen]));
            && BlurOf(maps', (session, BLUR_DETECTOR, group)) == BlurStateAt(policies.blur, rows, seen + 1)
            && verdict == BlurVerdict(BlurDecisionAt(policies.blur, rows, seen))
  {
    var key := (session, BLUR_DETECTOR, group);
    var (state, decision) := BlurStep(policies.blur, BlurOf(maps, key), rows[seen]);
    BlurStepsAgree(policies.blur, rows, seen);
    WithBlurIsLocal(maps, key, state, decision);
  }

  // The verdicts of a blur stream are its rule's decisions from some row on.
  ghost predicate DecidesFrom(policies: Policies, rows: seq<BlurRow>, seen: nat, verdicts: seq<Verdict>) {
    && seen <= |rows| && |verdicts| == |rows| - seen
    && forall n :: seen <= n < |rows| ==> verdicts[n - seen] == BlurVerdict(BlurDecisionAt(policies.blur, rows, n))
  }

  lemma DecidesOneMore(policies: Policies, rows: seq<BlurRow>, seen: nat, verdicts: seq<Verdict>)
    requires seen < |rows| && DecidesFrom(policies, rows, seen + 1, verdicts)
    ensures DecidesFrom(policies, rows, seen, [BlurVerdict(BlurDecisionAt(policies.blur, rows, seen))] + verdicts)
  {
    var longer := [BlurVerdict(BlurDecisionAt(policies.blur, rows, seen))] + verdicts;
    forall n | seen <= n < |rows|
      ensures longer[n - seen] == BlurVerdict(BlurDecisionAt(policies.blur, rows, n))
    {
      if n > seen {
        assert longer[n - seen] == verdicts[n - (seen + 1)];
      }
    }
  }

  /** The verdicts of a blur stream alone are the decisions of the blur rule over all its rows. */
  lemma {:induction false} BlurVerdictsAreDecisions(policies: Policies, maps: RuleMaps, session: string, group: string,
                                                    rows: seq<BlurRow>, seen: nat)
    requires ValidPolicy(policies.black) && seen <= |rows|
    requires BlurOf(maps, (session, BLUR_DETECTOR, group)) == BlurStateAt(policies.blur, rows, seen)
    ensures DecidesFrom(policies, rows, seen, VerdictsFor(policies, maps, BlurEvents(session, group, rows[seen..]),
                                                          (session, BLUR_DETECTOR, group)))
    decreases |rows| - seen
  {
    if seen < |rows| {
      var key, event := (session, BLUR_DETECTOR, group), BlurEvent(session, group, rows[seen]);
      var maps' := Apply(policies, maps, event).0;
      var rest := BlurEvents(session, group, rows[seen + 1..]);
      FirstBlurVerdict(policies, maps, session, group, rows, seen);
      BlurVerdictsAreDecisions(policies, maps', session, group, rows, seen + 1);
      DecidesOneMore(policies, rows, seen, VerdictsFor(policies, maps', rest, key));
      VerdictsFromFirst(policies, maps, event, rest, key);
      assert BlurEvents(session, group, rows[seen..]) == [event] + rest;
    }
  }

  // The rows of one blur stream, in order.
  function OwnBlurRows(events: seq<Event>, session: string, group: string): seq<BlurRow> {
    if events == [] then []
    else
      var rest := OwnBlurRows(events[1..], session, group);
      if events[0].BlurEvent? && events[0].session == session && events[0].group == group
      then [events[0].blur] + rest else rest
  }

  lemma ConcernsIffOwnRow(event: Event, session: string, group: string)
    requires event != Reset(session)
    ensures Concerns(event, (session, BLUR_DETECTOR, group))
            <==> event.BlurEvent? && event.session == session && event.group == group
  {
    assert |BLUR_DETECTOR| != |BLACK_DETECTOR|;
  }

  ghost predicate NeverReset(events: seq<Event>, session: string) {
    forall i :: 0 <= i < |events| ==> events[i] != Reset(session)
  }

  lemma OneMoreRow(session: string, group: string, row: BlurRow, rows: seq<BlurRow>)
    ensures BlurEvents(session, group, [row] + rows)
            == [BlurEvent(session, group, row)] + BlurEvents(session, group, rows)
  {
  }

  lemma {:induction false} OwnEventsAreRows(events: seq<Event>, session: string, group: string)
    requires NeverReset(events, session)
    ensures OwnEvents(events, (session, BLUR_DETECTOR, group))
            == BlurEvents(session, group, OwnBlurRows(events, session, group))
    decreases |events|
  {
    if events != [] {
      OwnEventsAreRows(events[1..], session, group);
      ConcernsIffOwnRow(events[0], session, group);
      if events[0].BlurEvent? {
        OneMoreRow(session, group, events[0].blur, OwnBlurRows(events[1..], session, group));
      }
    }
  }

  /** In any interleaving without a reset of its session, no blur alert of a stream repeats before a recovery. */
  lemma StoredBlurAlertsNeedRecovery(policies: Policies, events: seq<Event>, session: string, group: string,
                                     i: nat, j: nat) returns (k: nat)
    requires ValidPolicy(policies.black) && NeverReset(events, session)
    requires var verdicts := VerdictsFor(policies, EMPTY_MAPS, events, (session, BLUR_DETECTOR, group));
             i < j < |verdicts| && verdicts[i] == verdicts[j] == BlurVerdict(BlurEntered)
    ensures i < k < j
    ensures VerdictsFor(policies, EMPTY_MAPS, events, (session, BLUR_DETECTOR, group))[k] == BlurVerdict(BlurRecovered)
  {
    var key := (session, BLUR_DETECTOR, group);
    var rows := OwnBlurRows(events, session, group);
    StoredBlurVerdicts(policies, events, session, group);
    var verdicts := VerdictsFor(policies, EMPTY_MAPS, events, key);
    assert verdicts[i - 0] == BlurVerdict(BlurDecisionAt(policies.blur, rows, i));
    assert verdicts[j - 0] == BlurVerdict(BlurDecisionAt(policies.blur, rows, j));
    k := BlurAlertsNeedRecovery(policies.blur, rows, i, j);
    assert verdicts[k - 0] == BlurVerdict(BlurDecisionAt(policies.blur, rows, k));
  }

  // The rows of one black stream, in order.
  function OwnBlackRows(events: seq<Event>, session: string, group: string): seq<BlackRow> {
    if events == [] then []
    else
      var rest := OwnBlackRows(events[1..], session, group);
      if events[0].BlackEvent? && events[0].session == session && events[0].group == group
      then [events[0].black] + rest else rest
  }

  lemma ConcernsIffOwnBlackRow(event: Event, session: string, group: string)
    requires event != Reset(session)
    ensures Concerns(event, (session, BLACK_DETECTOR, group))
            <==> event.BlackEvent? && event.session == session && event.group == group
  {
    assert |BLUR_DETECTOR| != |BLACK_DETECTOR|;
  }

  lemma OneMoreBlackRow(session: string, group: string, row: BlackRow, rows: seq<BlackRow>)
    ensures BlackEvents(session, group, [row] + rows)
            == [BlackEvent(session, group, row)] + BlackEvents(session, group, rows)
  {
  }

  lemma {:induction false} OwnEventsAreBlackRows(events: seq<Event>, session: string, group: string)
    requires NeverReset(events, session)
    ensures OwnEvents(events, (session, BLACK_DETECTOR, group))
            == BlackEvents(session, group, OwnBlackRows(events, session, group))
    decreases |events|
  {
    if events != [] {
      OwnEventsAreBlackRows(events[1..], session, group);
      ConcernsIffOwnBlackRow(events[0], session, group);
      if events[0].BlackEvent? {
        OneMoreBlackRow(session, group, events[0].black, OwnBlackRows(events[1..], session, group));
      }
    }
  }

  /** In any interleaving without a reset of its session, a black stream gets the decisions over its own rows. */
  lemma StoredBlackVerdicts(policies: Policies, events: seq<Event>, session: string, group: string)
    requires ValidPolicy(policies.black) && NeverReset(events, session)
    ensures BlackDecidesFrom(policies, FRESH_BLACK, OwnBlackRows(events, session, group), 0,
                             VerdictsFor(policies, EMPTY_MAPS, events, (session, BLACK_DETECTOR, group)))
  {
    var key, rows := (session, BLACK_DETECTOR, group), OwnBlackRows(events, session, group);
    StreamsAreIsolated(policies, EMPTY_MAPS, EMPTY_MAPS, events, key);
    OwnEventsAreBlackRows(events, session, group);
    assert rows[0..] == rows;
    VerdictsAreDecisions(policies, EMPTY_MAPS, FRESH_BLACK, session, group, rows, 0);
  }

  /**
   In any interleaving without a reset of its session, two rolling-ratio alerts of a stream are at
   least two hysteresis times of its own rows apart, and such an alert and a recovery one.
   */
  lemma StoredRollingAlertsAreApart(policies: Policies, events: seq<Event>, session: string, group: string,
                                    i: nat, j: nat)
    requires ValidPolicy(policies.black) && NeverReset(events, session)
    requires var verdicts := VerdictsFor(policies, EMPTY_MAPS, events, (session, BLACK_DETECTOR, group));
             i < j < |verdicts| && verdicts[i] == BlackVerdict(EnteredByRolling)
    ensures var verdicts := VerdictsFor(policies, EMPTY_MAPS, events, (session, BLACK_DETECTOR, group));
            var rows := OwnBlackRows(events, session, group);
            && |rows| == |verdicts|
            && (verdicts[j] == BlackVerdict(EnteredByRolling) ==>
                  Elapsed(policies.black, rows, i + 1, j + 1) >= 2.0 * HysteresisSec(policies.black))
            && (verdicts[j] == BlackVerdict(BlackRecovered) ==>
                  Elapsed(policies.black, rows, i + 1, j + 1) >= HysteresisSec(policies.black))
  {
    var rows := OwnBlackRows(events, session, group);
    var verdicts := VerdictsFor(policies, EMPTY_MAPS, events, (session, BLACK_DETECTOR, group));
    StoredBlackVerdicts(policies, events, session, group);
    assert verdicts[i - 0] == BlackVerdict(DecisionAt(policies.black, FRESH_BLACK, rows, i));
    assert verdicts[j - 0] == BlackVerdict(DecisionAt(policies.black, FRESH_BLACK, rows, j));
    if verdicts[j] == BlackVerdict(EnteredByRolling) {
      RollingAlertsAreApart(policies.black, FRESH_BLACK, rows, i, j);
    } else if verdicts[j] == BlackVerdict(BlackRecovered) {
      SwitchingTakesTime(policies.black, FRESH_BLACK, rows, i, j);
    }
  }

  /**
   In any interleaving without a reset of its session, a black stream alerts and recovers exactly
   where its own rows show black and picture again.
   */
  lemma StoredBlackFollowsRows(policies: Policies, events: seq<Event>, session: string, group: string, n: nat)
    requires ValidPolicy(policies.black) && NeverReset(events, session)
    requires n < |OwnBlackRows(events, session, group)| && ThreeDecimals(policies.black.windowSec)
    requires forall i :: 0 <= i <= n ==> ThreeDecimals(OwnBlackRows(events, session, group)[i].durationSec)
    ensures var verdicts := VerdictsFor(policies, EMPTY_MAPS, events, (session, BLACK_DETECTOR, group));
            var rows := OwnBlackRows(events, session, group);
            var open := BlackVerdicts.AlertOpen(policies.black, rows, n);
            && n < |verdicts| && verdicts[n].BlackVerdict?
            && (Alerts(verdicts[n].black) <==> !open && BlackVerdicts.ShowsBlack(policies.black, rows, n))
            && (verdicts[n].black.BlackRecovered? <==> open && BlackVerdicts.ShowsPicture(policies.black, rows, n))
  {
    var rows := OwnBlackRows(events, session, group);
    var verdicts := VerdictsFor(policies, EMPTY_MAPS, events, (session, BLACK_DETECTOR, group));
    StoredBlackVerdicts(policies, events, session, group);
    assert verdicts[n - 0] == BlackVerdict(DecisionAt(policies.black, FRESH_BLACK, rows, n));
    BlackVerdicts.VerdictsFollowRows(policies.black, rows, n);
  }

  /** In any interleaving without a reset of its session, a blur stream gets the decisions over its own rows. */
  lemma StoredBlurVerdicts(policies: Policies, events: seq<Event>, session: string, group: string)
    requires ValidPolicy(policies.black) && NeverReset(events, session)
    ensures DecidesFrom(policies, OwnBlurRows(events, session, group), 0,
                        VerdictsFor(policies, EMPTY_MAPS, events, (session, BLUR_DETECTOR, group)))
  {
    var key, rows := (session, BLUR_DETECTOR, group), OwnBlurRows(events, session, group);
    StreamsAreIsolated(policies, EMPTY_MAPS, EMPTY_MAPS, events, key);
    OwnEventsAreRows(events, session, group);
    assert rows[0..] == rows;
    BlurVerdictsAreDecisions(policies, EMPTY_MAPS, session, group, rows, 0);
  }

  /**
   In any interleaving without a reset of its session, a blur stream with an odd window alerts and
   recovers exactly where its own latest rows look blurred and sharp again.
   */
  lemma StoredBlurFollowsRows(policies: Policies, events: seq<Event>, session: string, group: string, n: nat, k: nat)
    requires ValidPolicy(policies.black) && NeverReset(events, session)
    requires n < |OwnBlurRows(events, session, group)| && policies.blur.windowSize == 2 * k + 1
    ensures var verdicts := VerdictsFor(policies, EMPTY_MAPS, events, (session, BLUR_DETECTOR, group));
            var rows := OwnBlurRows(events, session, group);
            var open := BlurVerdicts.BlurOpen(policies.blur, rows, n);
            && n < |verdicts| && verdicts[n].BlurVerdict?
            && (verdicts[n].blur.BlurEntered? <==> !open && BlurVerdicts.LooksBlurred(policies.blur, rows, n))
            && (verdicts[n].blur.BlurRecovered? <==> open && BlurVerdicts.LooksSharp(policies.blur, rows, n))
  {
    var rows := OwnBlurRows(events, session, group);
    var verdicts := VerdictsFor(policies, EMPTY_MAPS, events, (session, BLUR_DETECTOR, group));
    StoredBlurVerdicts(policies, events, session, group);
    assert verdicts[n - 0] == BlurVerdict(BlurDecisionAt(policies.blur, rows, n));
    BlurVerdicts.VerdictsFollowRows(policies.blur, rows, n, k);
  }

  // ---- The store, updated in place ------------------------------------------------------

  class RuleStateStore {
    const policies: Policies
    var blackWindows: map<RuleKey, seq<BlackSample>>
    var blackActive: map<RuleKey, bool>
    var blurWindows: map<RuleKey, seq<BlurSample>>
    var blurActive: map<RuleKey, bool>
    var blurSampleCounts: map<RuleKey, nat>

    constructor (policies: Policies)
      ensures this.policies == policies && Maps() == EMPTY_MAPS
    {
      this.policies := policies;
      blackWindows, blackActive := map[], map[];
      blurWindows, blurActive, blurSampleCounts := map[], map[], map[];
    }

    function Maps(): RuleMaps
      reads this
    {
      RuleMaps(blackWindows, blackActive, blurWindows, blurActive, blurSampleCounts)
    }

    // Drop samples from the front, the last one in part, until the limit is met.
    method TrimBlackWindow(window: seq<BlackSample>, maxDurationSec: real) returns (trimmed: seq<BlackSample>)
      ensures trimmed == Trim(window, maxDurationSec)
    {
      trimmed := window;
      var totalDuration := Total(window);
      while trimmed != [] && totalDuration > maxDurationSec
        invariant totalDuration == Total(trimmed)
        invariant Trim(trimmed, maxDurationSec) == Trim(window, maxDurationSec)
        decreases |trimmed|, totalDuration > maxDurationSec
      {
        var overflow := totalDuration - maxDurationSec;
        var head := trimmed[0];
        if head.durationSec <= overflow + SLACK {
          totalDuration := totalDuration - head.durationSec;
          trimmed := trimmed[1..];
        } else {
          var cut := head.(durationSec := head.durationSec - overflow);
          ghost var tail := trimmed[1..];
          trimmed := trimmed[0 := cut];
          assert trimmed == [cut] + tail && trimmed[1..] == tail;
          totalDuration := totalDuration - overflow;
        }
      }
    }

    method UpdateBlackWindow(key: RuleKey, row: BlackRow) returns (summary: BlackSummary)
      requires ValidPolicy(policies.black)
      modifies `blackWindows
      ensures blackWindows
              == old(blackWindows)[key := NextWindow(policies.black, Get(old(blackWindows), key, []), row)]
      ensures summary == Summarize(blackWindows[key])
    {
      var window := Get(blackWindows, key, []) + [SampleOf(policies.black, row)];
      window := TrimBlackWindow(window, policies.black.windowSec);
      blackWindows := blackWindows[key := window];
      summary := Summarize(window);
    }

    method EvaluateVideoBlackRule(session: string, group: string, row: BlackRow) returns (decision: BlackDecision)
      requires ValidPolicy(policies.black)
      modifies `blackWindows, `blackActive
      ensures (Maps(), BlackVerdict(decision)) == Apply(policies, old(Maps()), BlackEvent(session, group, row))
    {
      var key := (session, BLACK_DETECTOR, group);
      var summary := UpdateBlackWindow(key, row);
      var active := Get(blackActive, key, false);
      if active {
        if Recovers(policies.black, summary, row) {
          blackActive := blackActive[key := false];
          return BlackRecovered;
        }
        return BlackActive;
      }
      if EntersByContinuous(policies.black, row) {
        blackActive := blackActive[key := true];
        return EnteredByContinuous;
      }
      if EntersByRolling(policies.black, summary) {
        blackActive := blackActive[key := true];
        return EnteredByRolling;
      }
      decision := BlackNormal;
    }

    method TrimBlurWindow(window: seq<BlurSample>, maxItems: nat) returns (trimmed: seq<BlurSample>)
      ensures trimmed == LatestItems(window, maxItems)
    {
      trimmed := window;
      while |trimmed| > maxItems
        invariant LatestItems(trimmed, maxItems) == LatestItems(window, maxItems)
      {
        trimmed := trimmed[1..];
      }
    }

    method UpdateBlurWindow(key: RuleKey, row: BlurRow) returns (window: seq<BlurSample>, samplesSeen: nat)
      modifies `blurWindows, `blurSampleCounts
      ensures window == NextBlurWindow(policies.blur, Get(old(blurWindows), key, []), row)
      ensures samplesSeen == Get(old(blurSampleCounts), key, 0) + 1
      ensures blurWindows == old(blurWindows)[key := window]
      ensures blurSampleCounts == old(blurSampleCounts)[key := samplesSeen]
    {
      samplesSeen := Get(blurSampleCounts, key, 0) + 1;
      blurSampleCounts := blurSampleCounts[key := samplesSeen];
      window := Get(blurWindows, key, []) + [SampleOfBlur(row)];
      window := TrimBlurWindow(window, policies.blur.windowSize);
      blurWindows := blurWindows[key := window];
    }

    // Decide on a summarized window and note the switches.
    method SwitchBlur(key: RuleKey, samplesSeen: nat, summary: BlurWindowSummary) returns (decision: BlurDecision)
      modifies `blurActive
      ensures decision == DecideBlur(policies.blur, Get(old(blurActive), key, false), samplesSeen, summary)
      ensures blurActive == if decision.BlurEntered? then old(blurActive)[key := true]
                            else if decision.BlurRecovered? then old(blurActive)[key := false]
                            else old(blurActive)
    {
      var active := Get(blurActive, key, false);
      if active {
        if summary.windowIsFull && summary.medianScore <= policies.blur.recoveryThreshold {
          blurActive := blurActive[key := false];
          return BlurRecovered;
        }
        return BlurDecision.BlurActive;
      }
      decision := DecideEntry(policies.blur, samplesSeen, summary);
      if decision.BlurEntered? {
        blurActive := blurActive[key := true];
      }
    }

    method EvaluateVideoBlurRule(session: string, group: string, row: BlurRow) returns (decision: BlurDecision)
      requires ValidPolicy(policies.black)
      modifies `blurWindows, `blurActive, `blurSampleCounts
      ensures (Maps(), BlurVerdict(decision)) == Apply(policies, old(Maps()), BlurEvent(session, group, row))
    {
      var key := (session, BLUR_DETECTOR, group);
      var window, samplesSeen := UpdateBlurWindow(key, row);
      decision := SwitchBlur(key, samplesSeen, SummarizeBlur(policies.blur, window));
    }

    method ClearBlackRuleState(session: string)
      modifies `blackWindows, `blackActive
      ensures blackWindows == old(blackWindows) - OfSession(old(blackWindows).Keys, session)
      ensures blackActive == old(blackActive) - OfSession(old(blackWindows).Keys, session)
    {
      var staleKeys := OfSession(blackWindows.Keys, session);
      var left := staleKeys;
      while left != {}
        invariant left <= staleKeys
        invariant blackWindows == old(blackWindows) - (staleKeys - left)
        invariant blackActive == old(blackActive) - (staleKeys - left)
        decreases |left|
      {
        var key :| key in left;
        blackWindows := blackWindows - {key};
        blackActive := blackActive - {key};
        left := left - {key};
      }
    }

    method ClearBlurRuleState(session: string)
      modifies `blurWindows, `blurActive, `blurSampleCounts
      ensures blurWindows == old(blurWindows) - OfSession(old(blurWindows).Keys, session)
      ensures blurActive == old(blurActive) - OfSession(old(blurWindows).Keys, session)
      ensures blurSampleCounts == old(blurSampleCounts) - OfSession(old(blurWindows).Keys, session)
    {
      var staleKeys := OfSession(blurWindows.Keys, session);
      var left := staleKeys;
      while left != {}
        invariant left <= staleKeys
        invariant blurWindows == old(blurWindows) - (staleKeys - left)
        invariant blurActive == old(blurActive) - (staleKeys - left)
        invariant blurSampleCounts == old(blurSampleCounts) - (staleKeys - left)
        decreases |left|
      {
        var key :| key in left;
        blurWindows := blurWindows - {key};
        blurActive := blurActive - {key};
        blurSampleCounts := blurSampleCounts - {key};
        left := left - {key};
      }
    }

    method ResetSessionRuleState(session: string)
      requires ValidPolicy(policies.black)
      modifies this
      ensures (Maps(), Silent) == Apply(policies, old(Maps()), Reset(session))
    {
      ClearBlackRuleState(session);
      ClearBlurRuleState(session);
    }
  }
}
