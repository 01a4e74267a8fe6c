/**
 Session starts and cancellations of one caller under two budgets: a start passes a guard of its
 own and is then charged to the control budget that cancellations share.  Each check reads the
 clock for itself.  How many starts one control window can be charged is settled exactly.
 */
module RoutePolicy {
  import opened Prelude
  import opened RateLimit

  const SESSION_CONTROL_BUDGET := "session-control"
  const SESSION_START_BUDGET := "session-start"
  const CONTROL_MAX := 12
  const START_MAX := 6
  const WINDOW_SEC := 60.0

  datatype Policy = Policy(windowSec: real, startMax: nat, controlMax: nat) {
    function Start(): Budget {
      Budget(windowSec, startMax)
    }

    function Control(): Budget {
      Budget(windowSec, controlMax)
    }
  }

  const DEFAULT_POLICY := Policy(WINDOW_SEC, START_MAX, CONTROL_MAX)

  predicate ValidPolicy(policy: Policy) {
    policy.windowSec > 0.0 && policy.startMax >= 1 && policy.controlMax >= 1
  }

  // A start reads the clock at the guard and, if admitted there, once more at the control check.
  datatype Call = StartCall(guardAt: real, controlAt: real) | CancelCall(at: real)

  function FirstReading(call: Call): real {
    if call.StartCall? then call.guardAt else call.at
  }

  function LastReading(call: Call): real {
    if call.StartCall? then call.controlAt else call.at
  }

  datatype Counters = Counters(start: Option<Counter>, control: Option<Counter>)

  datatype CallResult = GuardRefused | ControlRefused | Allowed

  function Handle(policy: Policy, counters: Counters, call: Call): (Counters, CallResult) {
    match call
    case StartCall(guardAt, controlAt) =>
      var (start, passed) := Admit(counters.start, guardAt, policy.Start());
      if !passed then (Counters(start, counters.control), GuardRefused)
      else
        var (control, admitted) := Admit(counters.control, controlAt, policy.Control());
        (Counters(start, control), if admitted then Allowed else ControlRefused)
    case CancelCall(at) =>
      var (control, admitted) := Admit(counters.control, at, policy.Control());
      (Counters(counters.start, control), if admitted then Allowed else ControlRefused)
  }

  /** A start the guard refuses leaves both counters as they were. */
  lemma RefusedStartCostsNothing(policy: Policy, counters: Counters, call: Call)
    requires Handle(policy, counters, call).1.GuardRefused?
    ensures Handle(policy, counters, call).0 == counters
  {
  }

  // No reading goes back, neither from call to call nor within a start.
  ghost predicate ClockAdvances(calls: seq<Call>) {
    && (forall i :: 0 <= i < |calls| ==> FirstReading(calls[i]) <= LastReading(calls[i]))
    && (forall i, j :: 0 <= i < j < |calls| ==> LastReading(calls[i]) <= FirstReading(calls[j]))
  }

  ghost predicate OneReading(calls: seq<Call>) {
    forall i :: 0 <= i < |calls| ==> FirstReading(calls[i]) == LastReading(calls[i])
  }

  // ---- How many starts one control window can be charged --------------------------------

  // The starts past the guard whose control reading is before the given moment.
  function StartsCharged(policy: Policy, counters: Counters, calls: seq<Call>, before: real): nat
    decreases |calls|
  {
    if calls == [] then 0
    else
      var (next, result) := Handle(policy, counters, calls[0]);
      (if calls[0].StartCall? && !result.GuardRefused? && calls[0].controlAt < before then 1 else 0)
      + StartsCharged(policy, next, calls[1..], before)
  }

  lemma {:induction false} ChargesAreBounded(policy: Policy, counters: Counters, calls: seq<Call>, from: real)
    requires ValidPolicy(policy) && ValidCounter(counters.start, policy.Start()) && ClockAdvances(calls)
    requires calls != [] ==> from <= FirstReading(calls[0])
    ensures StartsCharged(policy, counters, calls, from + policy.windowSec)
            <= Remaining(counters.start, from, policy.Start())
    decreases |calls|
  {
    if calls != [] {
      var (next, result) := Handle(policy, counters, calls[0]);
      if calls[0].StartCall? {
        AdmitSpends(counters.start, calls[0].guardAt, policy.Start(), from);
      }
      if FirstReading(calls[0]) < from + policy.windowSec {
        ChargesAreBounded(policy, next, calls[1..], from);
      } else {
        NothingChargedLater(policy, counters, calls, from + policy.windowSec);
      }
    }
  }

  lemma {:induction false} NothingChargedLater(policy: Policy, counters: Counters, calls: seq<Call>, before: real)
    requires ClockAdvances(calls) && (calls != [] ==> before <= FirstReading(calls[0]))
    ensures StartsCharged(policy, counters, calls, before) == 0
    decreases |calls|
  {
    if calls != [] {
      NothingChargedLater(policy, Handle(policy, counters, calls[0]).0, calls[1..], before);
    }
  }

  // Calls that follow a moment.
  ghost predicate Follows(calls: seq<Call>, from: real) {
    ClockAdvances(calls) && (calls != [] ==> from <= FirstReading(calls[0]))
  }

  // Starts with one reading each at the same moment.
  function Burst(n: nat, at: real): (calls: seq<Call>)
    ensures |calls| == n && forall i :: 0 <= i < n ==> calls[i] == StartCall(at, at)
  {
    if n == 0 then [] else [StartCall(at, at)] + Burst(n - 1, at)
  }

  lemma {:induction false} ChargesOfAppend(policy: Policy, counters: Counters, a: seq<Call>, b: seq<Call>, before: real)
    ensures StartsCharged(policy, counters, a + b, before)
            == StartsCharged(policy, counters, a, before) + StartsCharged(policy, AfterCalls(policy, counters, a), b, before)
    decreases |a|
  {
    if a == [] {
      assert a + b == b;
    } else {
      assert (a + b)[1..] == a[1..] + b;
      ChargesOfAppend(policy, Handle(policy, counters, a[0]).0, a[1..], b, before);
    }
  }

  function AfterCalls(policy: Policy, counters: Counters, calls: seq<Call>): Counters
    decreases |calls|
  {
    if calls == [] then counters else AfterCalls(policy, Handle(policy, counters, calls[0]).0, calls[1..])
  }

  // A burst that fits into what the guard's open window has left is charged whole.
  lemma {:induction false} BurstWithinWindow(policy: Policy, counters: Counters, n: nat, at: real, before: real)
    requires counters.start.Some? && at - counters.start.value.windowStart < policy.windowSec && at < before
    requires counters.start.value.requestCount + n <= policy.startMax
    ensures StartsCharged(policy, counters, Burst(n, at), before) == n
    ensures AfterCalls(policy, counters, Burst(n, at)).start
            == Some(counters.start.value.(requestCount := counters.start.value.requestCount + n))
    decreases n
  {
    if n > 0 {
      assert Burst(n, at)[1..] == Burst(n - 1, at);
      BurstWithinWindow(policy, Handle(policy, counters, StartCall(at, at)).0, n - 1, at, before);
    }
  }

  // A full burst is charged whole when the guard opens a new window for it.
  lemma BurstInNewWindow(policy: Policy, counters: Counters, at: real, before: real)
    requires ValidPolicy(policy) && StartsNewWindow(counters.start, at, policy.windowSec) && at < before
    ensures StartsCharged(policy, counters, Burst(policy.startMax, at), before) == policy.startMax
  {
    var n := policy.startMax;
    assert Burst(n, at)[1..] == Burst(n - 1, at);
    BurstWithinWindow(policy, Handle(policy, counters, StartCall(at, at)).0, n - 1, at, before);
  }

  // The schedule that charges a control window opened at a moment as often as possible.
  function WorstSchedule(policy: Policy, start: Option<Counter>, from: real): seq<Call>
    requires ValidCounter(start, policy.Start())
  {
    if start.None? || start.value.windowStart + policy.windowSec <= from then Burst(policy.startMax, from)
    else
      Burst(policy.startMax - start.value.requestCount, from)
      + if start.value.windowStart < from
        then Burst(policy.startMax, start.value.windowStart + policy.windowSec) else []
  }

  lemma WorstScheduleFollows(policy: Policy, start: Option<Counter>, from: real)
    requires ValidPolicy(policy) && ValidCounter(start, policy.Start())
    ensures Follows(WorstSchedule(policy, start, from), from)
  {
  }

  lemma WorstScheduleIsCharged(policy: Policy, counters: Counters, from: real)
    requires ValidPolicy(policy) && ValidCounter(counters.start, policy.Start())
    requires counters.start.Some? ==> counters.start.value.windowStart <= from
    ensures StartsCharged(policy, counters, WorstSchedule(policy, counters.start, from), from + policy.windowSec)
            == Remaining(counters.start, from, policy.Start())
  {
    var before := from + policy.windowSec;
    if StartsNewWindow(counters.start, from, policy.windowSec) {
      BurstInNewWindow(policy, counters, from, before);
    } else {
      var start := counters.start.value;
      var rest := policy.startMax - start.requestCount;
      BurstWithinWindow(policy, counters, rest, from, before);
      if start.windowStart < from {
        var at := start.windowStart + policy.windowSec;
        ChargesOfAppend(policy, counters, Burst(rest, from), Burst(policy.startMax, at), before);
        BurstInNewWindow(policy, AfterCalls(policy, counters, Burst(rest, from)), at, before);
      } else {
        assert Burst(rest, from) + [] == Burst(rest, from);
      }
    }
  }

  // The call that opened a control window, counted if it is a start itself.
  function Own(opener: Call): nat {
    if opener.StartCall? then 1 else 0
  }

  // How many starts are charged to the control window a call opens: itself, if it is a start,
  // and those that may still follow within the window.
  function MostCharges(policy: Policy, counters: Counters, opener: Call): nat {
    Own(opener) + Remaining(Handle(policy, counters, opener).0.start, LastReading(opener), policy.Start())
  }

  ghost predicate OpensControlWindow(policy: Policy, counters: Counters, opener: Call) {
    && !Handle(policy, counters, opener).1.GuardRefused?
    && StartsNewWindow(counters.control, LastReading(opener), policy.windowSec)
  }

  // The starts charged to the control window a call opened, when these calls follow.
  function ChargesOf(policy: Policy, counters: Counters, opener: Call, calls: seq<Call>): nat {
    Own(opener)
    + StartsCharged(policy, Handle(policy, counters, opener).0, calls, LastReading(opener) + policy.windowSec)
  }

  // Every continuation keeps the starts charged to the opener's control window within a number.
  ghost predicate ChargesWithin(policy: Policy, counters: Counters, opener: Call, most: nat) {
    forall calls: seq<Call> :: Follows(calls, LastReading(opener)) ==> ChargesOf(policy, counters, opener, calls) <= most
  }

  ghost predicate Sane(policy: Policy, counters: Counters, opener: Call) {
    && ValidPolicy(policy) && ValidCounter(counters.start, policy.Start())
    && FirstReading(opener) <= LastReading(opener)
    && (counters.start.Some? ==> counters.start.value.windowStart <= FirstReading(opener))
  }

  lemma OpenerLeavesSane(policy: Policy, counters: Counters, opener: Call)
    requires Sane(policy, counters, opener)
    ensures var start := Handle(policy, counters, opener).0.start;
            && ValidCounter(start, policy.Start())
            && (start.Some? ==> start.value.windowStart <= LastReading(opener))
  {
    if opener.StartCall? {
      AdmitSpends(counters.start, opener.guardAt, policy.Start(), opener.guardAt);
    }
  }

  lemma ChargesReachMost(policy: Policy, counters: Counters, opener: Call) returns (worst: seq<Call>)
    requires Sane(policy, counters, opener)
    ensures Follows(worst, LastReading(opener))
    ensures ChargesOf(policy, counters, opener, worst) == MostCharges(policy, counters, opener)
  {
    var next, from := Handle(policy, counters, opener).0, LastReading(opener);
    OpenerLeavesSane(policy, counters, opener);
    worst := WorstSchedule(policy, next.start, from);
    WorstScheduleFollows(policy, next.start, from);
    WorstScheduleIsCharged(policy, next, from);
  }

  lemma ChargesStayWithinMost(policy: Policy, counters: Counters, opener: Call, calls: seq<Call>)
    requires Sane(policy, counters, opener) && Follows(calls, LastReading(opener))
    ensures ChargesOf(policy, counters, opener, calls) <= MostCharges(policy, counters, opener)
  {
    OpenerLeavesSane(policy, counters, opener);
    ChargesAreBounded(policy, Handle(policy, counters, opener).0, calls, LastReading(opener));
  }

  /** The starts charged to a control window are bounded by exactly MostCharges, whatever follows. */
  lemma ChargesWithinIff(policy: Policy, counters: Counters, opener: Call, most: nat)
    requires Sane(policy, counters, opener) && OpensControlWindow(policy, counters, opener)
    ensures ChargesWithin(policy, counters, opener, most) <==> MostCharges(policy, counters, opener) <= most
  {
    var worst := ChargesReachMost(policy, counters, opener);
    if MostCharges(policy, counters, opener) <= most {
      forall calls: seq<Call> | Follows(calls, LastReading(opener))
        ensures ChargesOf(policy, counters, opener, calls) <= most
      {
        ChargesStayWithinMost(policy, counters, opener, calls);
      }
    }
  }

  // The opener is a start that opened its guard window at an earlier reading than the control one.
  predicate ReadsTwice(policy: Policy, counters: Counters, opener: Call) {
    && opener.StartCall?
    && StartsNewWindow(counters.start, opener.guardAt, policy.windowSec)
    && opener.guardAt < opener.controlAt
    && (opener.controlAt < opener.guardAt + policy.windowSec || policy.startMax == 1)
  }

  lemma MostChargesOf(policy: Policy, counters: Counters, opener: Call)
    requires Sane(policy, counters, opener) && OpensControlWindow(policy, counters, opener)
    ensures MostCharges(policy, counters, opener) <= 2 * policy.startMax
    ensures MostCharges(policy, counters, opener) <= 2 * policy.startMax - 1 <==> !ReadsTwice(policy, counters, opener)
  {
  }

  /**
   The reserve for cancellation.  Twice the start budget less one bounds the charges to a control
   window exactly unless its opener is a start that opened its guard window at an earlier reading of
   the clock; then one more start fits, and with the configured budgets nothing is left.
   */
  lemma ReserveIff(policy: Policy, counters: Counters, opener: Call)
    requires Sane(policy, counters, opener) && OpensControlWindow(policy, counters, opener)
    ensures ChargesWithin(policy, counters, opener, 2 * policy.startMax - 1) <==> !ReadsTwice(policy, counters, opener)
    ensures ChargesWithin(policy, counters, opener, 2 * policy.startMax)
  {
    MostChargesOf(policy, counters, opener);
    ChargesWithinIff(policy, counters, opener, 2 * policy.startMax - 1);
    ChargesWithinIff(policy, counters, opener, 2 * policy.startMax);
  }

  // A start whose two readings are both where its guard window begins, or a cancellation that finds
  // no guard window, an expired one, one that begins now, or an exhausted one.
  predicate OpensAligned(policy: Policy, counters: Counters, opener: Call) {
    match opener
    case StartCall(guardAt, controlAt) =>
      && guardAt == controlAt
      && (StartsNewWindow(counters.start, guardAt, policy.windowSec) || counters.start.value.windowStart == guardAt)
    case CancelCall(at) =>
      || StartsNewWindow(counters.start, at, policy.windowSec)
      || counters.start.value.windowStart == at
      || counters.start.value.requestCount >= policy.startMax
  }

  /**
   The start budget itself, half of the configured control budget, bounds the charges to a control
   window exactly if its opener finds the guard aligned with it or with nothing left to let through.
   */
  lemma HalfReserveIff(policy: Policy, counters: Counters, opener: Call)
    requires Sane(policy, counters, opener) && OpensControlWindow(policy, counters, opener)
    ensures ChargesWithin(policy, counters, opener, policy.startMax) <==> OpensAligned(policy, counters, opener)
  {
    ChargesWithinIff(policy, counters, opener, policy.startMax);
    assert MostCharges(policy, counters, opener) <= policy.startMax <==> OpensAligned(policy, counters, opener);
  }

  // ---- Whole runs of starts and cancellations ---------------------------------------------

  // The counters, with the starts and cancellations charged to the current control window.
  datatype Ledger = Ledger(counters: Counters, starts: nat, cancels: nat)

  const EMPTY_LEDGER := Ledger(Counters(None, None), 0, 0)

  function Track(policy: Policy, ledger: Ledger, call: Call): Ledger {
    var (next, result) := Handle(policy, ledger.counters, call);
    if !result.Allowed? then ledger.(counters := next)
    else
      var opens := StartsNewWindow(ledger.counters.control, LastReading(call), policy.windowSec);
      Ledger(next,
             (if opens then 0 else ledger.starts) + Own(call),
             (if opens then 0 else ledger.cancels) + 1 - Own(call))
  }

  function TrackAll(policy: Policy, ledger: Ledger, calls: seq<Call>): Ledger
    decreases |calls|
  {
    if calls == [] then ledger else TrackAll(policy, Track(policy, ledger, calls[0]), calls[1..])
  }

  // The control counter counts both kinds, and the starts charged so far together with those the
  // guard may still let through in this control window stay within a number.
  ghost predicate Reserved(policy: Policy, ledger: Ledger, now: real, most: nat) {
    && ValidCounter(ledger.counters.start, policy.Start())
    && (ledger.counters.start.Some? ==> ledger.counters.start.value.windowStart <= now)
    && (ledger.counters.control.Some? ==>
          var control := ledger.counters.control.value;
          && control.windowStart <= now
          && control.requestCount == ledger.starts + ledger.cancels
          && ledger.starts + Remaining(ledger.counters.start, control.windowStart, policy.Start()) <= most)
  }

  lemma CancelKeepsReserve(policy: Policy, ledger: Ledger, at: real, now: real)
    requires ValidPolicy(policy) && Reserved(policy, ledger, now, 2 * policy.startMax - 1) && now <= at
    ensures Reserved(policy, Track(policy, ledger, CancelCall(at)), at, 2 * policy.startMax - 1)
  {
    if StartsNewWindow(ledger.counters.control, at, policy.windowSec) {
      MostChargesOf(policy, ledger.counters, CancelCall(at));
    }
  }

  lemma StartKeepsReserve(policy: Policy, ledger: Ledger, at: real, now: real)
    requires ValidPolicy(policy) && Reserved(policy, ledger, now, 2 * policy.startMax - 1) && now <= at
    ensures Reserved(policy, Track(policy, ledger, StartCall(at, at)), at, 2 * policy.startMax - 1)
  {
    var call := StartCall(at, at);
    if Handle(policy, ledger.counters, call).1.GuardRefused? {
      RefusedStartCostsNothing(policy, ledger.counters, call);
    } else {
      OpenerLeavesSane(policy, ledger.counters, call);
      if StartsNewWindow(ledger.counters.control, at, policy.windowSec) {
        MostChargesOf(policy, ledger.counters, call);
      } else {
        AdmitSpends(ledger.counters.start, at, policy.Start(), ledger.counters.control.value.windowStart);
      }
    }
  }

  lemma {:induction false} RunKeepsReserve(policy: Policy, ledger: Ledger, calls: seq<Call>, now: real)
    requires ValidPolicy(policy) && Reserved(policy, ledger, now, 2 * policy.startMax - 1)
    requires OneReading(calls) && Follows(calls, now)
    ensures Reserved(policy, TrackAll(policy, ledger, calls),
                     if calls == [] then now else LastReading(calls[|calls| - 1]), 2 * policy.startMax - 1)
    decreases |calls|
  {
    if calls != [] {
      var at := LastReading(calls[0]);
      if calls[0].StartCall? {
        StartKeepsReserve(policy, ledger, at, now);
      } else {
        CancelKeepsReserve(policy, ledger, at, now);
      }
      var rest := calls[1..];
      assert rest != [] ==> rest[0] == calls[1] && rest[|rest| - 1] == calls[|calls| - 1];
      RunKeepsReserve(policy, Track(policy, ledger, calls[0]), rest, at);
    }
  }

  /**
   Cancellation keeps its reserve: after any run of starts and cancellations that read the clock once
   each, a cancellation is refused only if the control window already admitted so many of them that
   the starts, twice their budget less one, fill the rest.
   */
  lemma CancelsKeepReserve(policy: Policy, calls: seq<Call>, from: real, at: real)
    requires ValidPolicy(policy) && OneReading(calls) && Follows(calls, from)
    ensures var ledger := TrackAll(policy, EMPTY_LEDGER, calls);
            Handle(policy, ledger.counters, CancelCall(at)).1.ControlRefused? ==>
              ledger.cancels >= policy.controlMax - (2 * policy.startMax - 1)
  {
    RunKeepsReserve(policy, EMPTY_LEDGER, calls, from);
  }

  /** With the configured budgets starts alone never refuse a cancellation, one reading per start. */
  lemma StartsNeverRefuseCancel(calls: seq<Call>, from: real, at: real)
    requires OneReading(calls) && Follows(calls, from)
    ensures var ledger := TrackAll(DEFAULT_POLICY, EMPTY_LEDGER, calls);
            ledger.cancels == 0 ==> Handle(DEFAULT_POLICY, ledger.counters, CancelCall(at)).1.Allowed?
  {
    CancelsKeepReserve(DEFAULT_POLICY, calls, from, at);
  }

  // ---- Two schedules -----------------------------------------------------------------------

  lemma {:induction false} BurstIsTracked(policy: Policy, ledger: Ledger, n: nat, at: real)
    requires ledger.counters.start.Some? && at - ledger.counters.start.value.windowStart < policy.windowSec
    requires ledger.counters.control.Some? && at - ledger.counters.control.value.windowStart < policy.windowSec
    requires ledger.counters.start.value.requestCount + n <= policy.startMax
    requires ledger.counters.control.value.requestCount + n <= policy.controlMax
    ensures var start, control := ledger.counters.start.value, ledger.counters.control.value;
            TrackAll(policy, ledger, Burst(n, at))
            == Ledger(Counters(Some(start.(requestCount := start.requestCount + n)),
                               Some(control.(requestCount := control.requestCount + n))),
                      ledger.starts + n, ledger.cancels)
    decreases n
  {
    if n > 0 {
      assert Burst(n, at)[1..] == Burst(n - 1, at);
      BurstIsTracked(policy, Track(policy, ledger, StartCall(at, at)), n - 1, at);
    }
  }

  lemma {:induction false} TrackOfAppend(policy: Policy, ledger: Ledger, a: seq<Call>, b: seq<Call>)
    ensures TrackAll(policy, ledger, a + b) == TrackAll(policy, TrackAll(policy, ledger, a), b)
    decreases |a|
  {
    if a == [] {
      assert a + b == b;
    } else {
      assert (a + b)[1..] == a[1..] + b;
      TrackOfAppend(policy, Track(policy, ledger, a[0]), a[1..], b);
    }
  }

  // A burst for which the guard opens a new window.
  lemma NewBurstIsTracked(policy: Policy, ledger: Ledger, n: nat, at: real)
    requires ValidPolicy(policy) && 1 <= n <= policy.startMax
    requires StartsNewWindow(ledger.counters.start, at, policy.windowSec)
    requires ledger.counters.control.Some? && at - ledger.counters.control.value.windowStart < policy.windowSec
    requires ledger.counters.control.value.requestCount + n <= policy.controlMax
    ensures var control := ledger.counters.control.value;
            TrackAll(policy, ledger, Burst(n, at))
            == Ledger(Counters(Some(Counter(at, n)), Some(control.(requestCount := control.requestCount + n))),
                      ledger.starts + n, ledger.cancels)
  {
    assert Burst(n, at)[1..] == Burst(n - 1, at);
    BurstIsTracked(policy, Track(policy, ledger, StartCall(at, at)), n - 1, at);
  }

  // Each call of a schedule, then a burst, then another burst.
  lemma TrackSchedule(policy: Policy, ledger: Ledger, head: seq<Call>, a: seq<Call>, b: seq<Call>)
    ensures TrackAll(policy, ledger, head + a + b)
            == TrackAll(policy, TrackAll(policy, TrackAll(policy, ledger, head), a), b)
  {
    TrackOfAppend(policy, ledger, head + a, b);
    TrackOfAppend(policy, ledger, head, a);
  }

  // A start whose two readings differ, the rest of its guard window, and a new one.
  function ExhaustingSchedule(policy: Policy, guardAt: real, controlAt: real): seq<Call>
    requires ValidPolicy(policy)
  {
    [StartCall(guardAt, controlAt)] + Burst(policy.startMax - 1, controlAt)
    + Burst(policy.startMax, guardAt + policy.windowSec)
  }

  lemma ExhaustingScheduleAdvances(policy: Policy, guardAt: real, controlAt: real)
    requires ValidPolicy(policy) && guardAt < controlAt < guardAt + policy.windowSec
    ensures ClockAdvances(ExhaustingSchedule(policy, guardAt, controlAt))
  {
  }

  /**
   Two readings per start are not enough: whenever they differ, this schedule of starts alone, with
   not one cancellation, fills the control window, and the first cancellation is refused.
   */
  lemma TwoReadingsExhaustControl(policy: Policy, guardAt: real, controlAt: real)
    requires ValidPolicy(policy) && policy.controlMax == 2 * policy.startMax
    requires guardAt < controlAt < guardAt + policy.windowSec
    ensures var ledger := TrackAll(policy, EMPTY_LEDGER, ExhaustingSchedule(policy, guardAt, controlAt));
            && ledger.starts == policy.controlMax && ledger.cancels == 0
            && Handle(policy, ledger.counters, CancelCall(guardAt + policy.windowSec)).1.ControlRefused?
  {
    var head, rest := [StartCall(guardAt, controlAt)], policy.startMax - 1;
    var at := guardAt + policy.windowSec;
    TrackSchedule(policy, EMPTY_LEDGER, head, Burst(rest, controlAt), Burst(policy.startMax, at));
    assert head[1..] == [];
    var first := Track(policy, EMPTY_LEDGER, head[0]);
    assert first == Ledger(Counters(Some(Counter(guardAt, 1)), Some(Counter(controlAt, 1))), 1, 0);
    BurstIsTracked(policy, first, rest, controlAt);
    NewBurstIsTracked(policy, TrackAll(policy, first, Burst(rest, controlAt)), policy.startMax, at);
  }

  // The control window opens in the middle of a guard window.
  function UnevenHead(policy: Policy, from: real, shift: real): seq<Call> {
    var again := from + policy.windowSec;
    [CancelCall(from), StartCall(from + shift, from + shift), StartCall(again, again)]
  }

  function UnevenSchedule(policy: Policy, from: real, shift: real): seq<Call>
    requires policy.startMax >= 2
  {
    UnevenHead(policy, from, shift) + Burst(policy.startMax - 2, from + policy.windowSec)
    + Burst(policy.startMax, from + shift + policy.windowSec)
  }

  lemma UnevenHeadIsTracked(policy: Policy, from: real, shift: real)
    requires 0.0 < shift < policy.windowSec && policy.startMax >= 2 && policy.controlMax >= 2
    ensures TrackAll(policy, EMPTY_LEDGER, UnevenHead(policy, from, shift))
            == Ledger(Counters(Some(Counter(from + shift, 2)), Some(Counter(from + policy.windowSec, 1))), 1, 0)
  {
    var head := UnevenHead(policy, from, shift);
    var one := Track(policy, EMPTY_LEDGER, head[0]);
    assert one == Ledger(Counters(None, Some(Counter(from, 1))), 0, 1);
    var two := Track(policy, one, head[1]);
    assert two == Ledger(Counters(Some(Counter(from + shift, 1)), Some(Counter(from, 2))), 1, 1);
    assert head[1..][0] == head[1] && head[1..][1..] == [head[2]] && [head[2]][1..] == [];
    assert TrackAll(policy, two, [head[2]]) == Track(policy, two, head[2]);
    assert TrackAll(policy, one, head[1..]) == TrackAll(policy, two, head[1..][1..]);
  }

  lemma UnevenScheduleAdvances(policy: Policy, from: real, shift: real)
    requires 0.0 < shift < policy.windowSec && policy.startMax >= 2
    ensures ClockAdvances(UnevenSchedule(policy, from, shift)) && OneReading(UnevenSchedule(policy, from, shift))
  {
  }

  /**
   The bound is reached with one reading per call: this schedule charges twice the start budget less
   one to one control window, so that half of the control budget is not reserved for cancellation.
   */
  lemma HalfIsNotReserved(policy: Policy, from: real, shift: real)
    requires 0.0 < shift < policy.windowSec && policy.startMax >= 2 && policy.controlMax >= 2 * policy.startMax
    ensures var ledger := TrackAll(policy, EMPTY_LEDGER, UnevenSchedule(policy, from, shift));
            && ledger.starts == 2 * policy.startMax - 1 && ledger.cancels == 0
            && ledger.counters.control == Some(Counter(from + policy.windowSec, 2 * policy.startMax - 1))
  {
    var rest, again, late := policy.startMax - 2, from + policy.windowSec, from + shift + policy.windowSec;
    var head := UnevenHead(policy, from, shift);
    TrackSchedule(policy, EMPTY_LEDGER, head, Burst(rest, again), Burst(policy.startMax, late));
    UnevenHeadIsTracked(policy, from, shift);
    var first := TrackAll(policy, EMPTY_LEDGER, head);
    BurstIsTracked(policy, first, rest, again);
    NewBurstIsTracked(policy, TrackAll(policy, first, Burst(rest, again)), policy.startMax, late);
  }

  // ---- The routes, over one limiter ----------------------------------------------------------

  function SubjectUnder(budgetName: string, caller: string): string {
    PrefixedSubject(caller, Some(budgetName))
  }

  function CountersOf(counters: map<string, Counter>, caller: string): Counters {
    Counters(CounterOf(counters, SubjectUnder(SESSION_START_BUDGET, caller)),
             CounterOf(counters, SubjectUnder(SESSION_CONTROL_BUDGET, caller)))
  }

  lemma RouteBudgetsDiffer(caller: string)
    ensures SubjectUnder(SESSION_START_BUDGET, caller) != SubjectUnder(SESSION_CONTROL_BUDGET, caller)
  {
    assert |SESSION_START_BUDGET| == 13 && |SESSION_CONTROL_BUDGET| == 15;
    if SubjectUnder(SESSION_START_BUDGET, caller) == SubjectUnder(SESSION_CONTROL_BUDGET, caller) {
      BudgetsAreSeparate(SESSION_START_BUDGET, SESSION_CONTROL_BUDGET, caller, caller);
    }
  }

  /** A start: the stricter guard first, and the shared budget only if that admits it. */
  method RequireSessionStart(limiter: InMemoryFixedWindowRateLimiter, policy: Policy, caller: string,
                             guardAt: real, controlAt: real) returns (result: CallResult)
    modifies limiter`counters
    ensures (CountersOf(limiter.counters, caller), result)
            == Handle(policy, CountersOf(old(limiter.counters), caller), StartCall(guardAt, controlAt))
    ensures result.GuardRefused? ==> limiter.counters == old(limiter.counters)
    ensures forall subject :: subject != SubjectUnder(SESSION_START_BUDGET, caller)
                              && subject != SubjectUnder(SESSION_CONTROL_BUDGET, caller) ==>
              CounterOf(limiter.counters, subject) == CounterOf(old(limiter.counters), subject)
  {
    RouteBudgetsDiffer(caller);
    var passed := limiter.CheckAndIncrement(SubjectUnder(SESSION_START_BUDGET, caller), policy.Start(), guardAt);
    if !passed {
      return GuardRefused;
    }
    var admitted := limiter.CheckAndIncrement(SubjectUnder(SESSION_CONTROL_BUDGET, caller), policy.Control(), controlAt);
    result := if admitted then Allowed else ControlRefused;
  }

  method RequireSessionCancel(limiter: InMemoryFixedWindowRateLimiter, policy: Policy, caller: string, at: real)
    returns (result: CallResult)
    modifies limiter`counters
    ensures (CountersOf(limiter.counters, caller), result)
            == Handle(policy, CountersOf(old(limiter.counters), caller), CancelCall(at))
    ensures forall subject :: subject != SubjectUnder(SESSION_CONTROL_BUDGET, caller) ==>
              CounterOf(limiter.counters, subject) == CounterOf(old(limiter.counters), subject)
  {
    RouteBudgetsDiffer(caller);
    var admitted := limiter.CheckAndIncrement(SubjectUnder(SESSION_CONTROL_BUDGET, caller), policy.Control(), at);
    result := if admitted then Allowed else ControlRefused;
  }
}
