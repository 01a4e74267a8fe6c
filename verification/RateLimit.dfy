/** The fixed-window rate limiter, one counter per subject, and what it bounds. */
module RateLimit {
  import opened Prelude

  datatype Counter = Counter(windowStart: real, requestCount: nat)

  datatype Budget = Budget(windowSec: real, maxRequests: nat)

  predicate ValidBudget(budget: Budget) {
    budget.windowSec > 0.0 && budget.maxRequests >= 1
  }

  predicate StartsNewWindow(counter: Option<Counter>, now: real, windowSec: real) {
    counter.None? || now - counter.value.windowStart >= windowSec
  }

  // One request of a subject: the counter after it, and whether it is admitted.
  function Admit(counter: Option<Counter>, now: real, budget: Budget): (Option<Counter>, bool) {
    if StartsNewWindow(counter, now, budget.windowSec) then (Some(Counter(now, 1)), true)
    else if counter.value.requestCount >= budget.maxRequests then (counter, false)
    else (Some(counter.value.(requestCount := counter.value.requestCount + 1)), true)
  }

  // ---- One subject over time -----------------------------------------------------------

  ghost predicate Chronological(times: seq<real>) {
    forall i, j :: 0 <= i <= j < |times| ==> times[i] <= times[j]
  }

  // How many of the requests are admitted at a time in [from, to).
  function AdmittedIn(counter: Option<Counter>, times: seq<real>, budget: Budget, from: real, to: real): nat
    decreases |times|
  {
    if times == [] then 0
    else
      var (next, admitted) := Admit(counter, times[0], budget);
      (if admitted && from <= times[0] < to then 1 else 0) + AdmittedIn(next, times[1..], budget, from, to)
  }

  // What a counter may still admit in [from, from + window) when all requests come from then on.
  function Remaining(counter: Option<Counter>, from: real, budget: Budget): nat {
    if counter.None? then budget.maxRequests
    else
      var left := if counter.value.requestCount >= budget.maxRequests then 0
                  else budget.maxRequests - counter.value.requestCount;
      if counter.value.windowStart >= from then left
      else if counter.value.windowStart + budget.windowSec <= from then budget.maxRequests
      else left + budget.maxRequests
  }

  ghost predicate ValidCounter(counter: Option<Counter>, budget: Budget) {
    counter.Some? ==> 1 <= counter.value.requestCount <= budget.maxRequests
  }

  lemma AdmitSpends(counter: Option<Counter>, now: real, budget: Budget, from: real)
    requires ValidBudget(budget) && from <= now && ValidCounter(counter, budget)
    ensures var (next, admitted) := Admit(counter, now, budget);
            && ValidCounter(next, budget)
            && (now < from + budget.windowSec ==>
                  Remaining(next, from, budget) + (if admitted then 1 else 0) <= Remaining(counter, from, budget))
  {
  }

  lemma {:induction false} AdmitsNoMoreThanRemaining(counter: Option<Counter>, times: seq<real>, budget: Budget, from: real)
    requires ValidBudget(budget) && ValidCounter(counter, budget) && Chronological(times)
    requires times != [] ==> from <= times[0]
    ensures AdmittedIn(counter, times, budget, from, from + budget.windowSec) <= Remaining(counter, from, budget)
    decreases |times|
  {
    if times != [] {
      var next := Admit(counter, times[0], budget).0;
      assert Chronological(times[1..]);
      AdmitSpends(counter, times[0], budget, from);
      if times[0] < from + budget.windowSec {
        AdmitsNoMoreThanRemaining(next, times[1..], budget, from);
      } else {
        NoneAdmittedLater(counter, times, budget, from, from + budget.windowSec);
      }
    }
  }

  lemma {:induction false} NoneAdmittedLater(counter: Option<Counter>, times: seq<real>, budget: Budget, from: real, to: real)
    requires Chronological(times) && (times != [] ==> to <= times[0])
    ensures AdmittedIn(counter, times, budget, from, to) == 0
    decreases |times|
  {
    if times != [] {
      NoneAdmittedLater(Admit(counter, times[0], budget).0, times[1..], budget, from, to);
    }
  }

  /** A window a request opens admits at most the budget, that request included. */
  lemma WindowAdmitsAtMostBudget(counter: Option<Counter>, times: seq<real>, budget: Budget)
    requires ValidBudget(budget) && ValidCounter(counter, budget) && Chronological(times) && times != []
    requires StartsNewWindow(counter, times[0], budget.windowSec)
    ensures AdmittedIn(counter, times, budget, times[0], times[0] + budget.windowSec) <= budget.maxRequests
  {
    AdmitsNoMoreThanRemaining(counter, times, budget, times[0]);
  }

  /** Any half-open stretch of window length, aligned or not, admits at most twice the budget less one. */
  lemma {:induction false} AnyStretchIsBounded(counter: Option<Counter>, times: seq<real>, budget: Budget, from: real)
    requires ValidBudget(budget) && ValidCounter(counter, budget) && Chronological(times)
    requires counter.Some? && times != [] ==> counter.value.windowStart <= times[0]
    ensures AdmittedIn(counter, times, budget, from, from + budget.windowSec) <= 2 * budget.maxRequests - 1
    decreases |times|
  {
    if times != [] {
      if from <= times[0] {
        AdmitsNoMoreThanRemaining(counter, times, budget, from);
      } else {
        AdmitSpends(counter, times[0], budget, times[0]);
        assert Chronological(times[1..]);
        AnyStretchIsBounded(Admit(counter, times[0], budget).0, times[1..], budget, from);
      }
    }
  }

  // ---- Many subjects ---------------------------------------------------------------------

  datatype Request = Request(subject: string, budget: Budget, now: real)

  function CounterOf(counters: map<string, Counter>, subject: string): Option<Counter> {
    if subject in counters then Some(counters[subject]) else None
  }

  function Serve(counters: map<string, Counter>, request: Request): (map<string, Counter>, bool) {
    var (next, admitted) := Admit(CounterOf(counters, request.subject), request.now, request.budget);
    (if next.Some? then counters[request.subject := next.value] else counters, admitted)
  }

  // The decisions a subject gets among the given requests.
  function DecisionsFor(counters: map<string, Counter>, requests: seq<Request>, subject: string): seq<bool>
    decreases |requests|
  {
    if requests == [] then []
    else
      var (counters', admitted) := Serve(counters, requests[0]);
      (if requests[0].subject == subject then [admitted] else []) + DecisionsFor(counters', requests[1..], subject)
  }

  function OwnRequests(requests: seq<Request>, subject: string): seq<Request> {
    if requests == [] then []
    else (if requests[0].subject == subject then [requests[0]] else []) + OwnRequests(requests[1..], subject)
  }

  /** The requests of other subjects never change a subject's decisions. */
  lemma {:induction false} SubjectsAreIndependent(counters: map<string, Counter>, own: map<string, Counter>,
                                                  requests: seq<Request>, subject: string)
    requires CounterOf(counters, subject) == CounterOf(own, subject)
    ensures DecisionsFor(counters, requests, subject) == DecisionsFor(own, OwnRequests(requests, subject), subject)
    decreases |requests|
  {
    if requests != [] {
      var request := requests[0];
      var counters' := Serve(counters, request).0;
      if request.subject == subject {
        SubjectsAreIndependent(counters', Serve(own, request).0, requests[1..], subject);
        assert OwnRequests(requests, subject)[1..] == OwnRequests(requests[1..], subject);
      } else {
        SubjectsAreIndependent(counters', own, requests[1..], subject);
        assert OwnRequests(requests, subject) == OwnRequests(requests[1..], subject);
      }
    }
  }

  // How many requests of a subject are admitted at a time in [from, to).
  function ServedIn(counters: map<string, Counter>, requests: seq<Request>, subject: string, from: real, to: real): nat
    decreases |requests|
  {
    if requests == [] then 0
    else
      var (counters', admitted) := Serve(counters, requests[0]);
      (if requests[0].subject == subject && admitted && from <= requests[0].now < to then 1 else 0)
      + ServedIn(counters', requests[1..], subject, from, to)
  }

  function OwnTimes(requests: seq<Request>, subject: string): seq<real> {
    if requests == [] then []
    else (if requests[0].subject == subject then [requests[0].now] else []) + OwnTimes(requests[1..], subject)
  }

  // Every request of the subject is made under this budget.
  ghost predicate UnderBudget(requests: seq<Request>, subject: string, budget: Budget) {
    forall i :: 0 <= i < |requests| && requests[i].subject == subject ==> requests[i].budget == budget
  }

  lemma {:induction false} ServedAreAdmitted(counters: map<string, Counter>, requests: seq<Request>, subject: string,
                                             budget: Budget, from: real, to: real)
    requires UnderBudget(requests, subject, budget)
    ensures ServedIn(counters, requests, subject, from, to)
            == AdmittedIn(CounterOf(counters, subject), OwnTimes(requests, subject), budget, from, to)
    decreases |requests|
  {
    if requests != [] {
      var counters' := Serve(counters, requests[0]).0;
      ServedAreAdmitted(counters', requests[1..], subject, budget, from, to);
      if requests[0].subject == subject {
        assert OwnTimes(requests, subject)[0] == requests[0].now;
        assert OwnTimes(requests, subject)[1..] == OwnTimes(requests[1..], subject);
      } else {
        assert CounterOf(counters', subject) == CounterOf(counters, subject);
        assert OwnTimes(requests, subject) == OwnTimes(requests[1..], subject);
      }
    }
  }

  /**
   The same bound for the limiter: among any requests of other subjects, any half-open stretch of
   window length admits at most twice the budget less one of a subject's.
   */
  lemma AnyStretchOfSubjectIsBounded(counters: map<string, Counter>, requests: seq<Request>, subject: string,
                                     budget: Budget, from: real)
    requires ValidBudget(budget) && UnderBudget(requests, subject, budget)
    requires Chronological(OwnTimes(requests, subject)) && ValidCounter(CounterOf(counters, subject), budget)
    requires CounterOf(counters, subject).Some? && OwnTimes(requests, subject) != [] ==>
               CounterOf(counters, subject).value.windowStart <= OwnTimes(requests, subject)[0]
    ensures ServedIn(counters, requests, subject, from, from + budget.windowSec) <= 2 * budget.maxRequests - 1
  {
    ServedAreAdmitted(counters, requests, subject, budget, from, from + budget.windowSec);
    AnyStretchIsBounded(CounterOf(counters, subject), OwnTimes(requests, subject), budget, from);
  }

  function PrefixedSubject(subject: string, budgetName: Option<string>): string {
    if budgetName.None? then subject else "budget:" + budgetName.value + ":" + subject
  }

  /** Budgets of different route families never share a counter. */
  lemma BudgetsAreSeparate(budgetName: string, otherName: string, subject: string, other: string)
    requires PrefixedSubject(subject, Some(budgetName)) == PrefixedSubject(other, Some(otherName))
    requires ':' !in budgetName && ':' !in otherName
    ensures budgetName == otherName && subject == other
  {
    var a, b := budgetName + ":" + subject, otherName + ":" + other;
    assert PrefixedSubject(subject, Some(budgetName)) == "budget:" + a;
    assert PrefixedSubject(other, Some(otherName)) == "budget:" + b;
    assert ("budget:" + a)[7..] == a && ("budget:" + b)[7..] == b;
    FirstColon(budgetName, otherName, subject, other);
  }

  lemma FirstColon(name: string, otherName: string, rest: string, otherRest: string)
    requires ':' !in name && ':' !in otherName
    requires name + ":" + rest == otherName + ":" + otherRest
    ensures name == otherName && rest == otherRest
  {
    var a, b := name + ":" + rest, otherName + ":" + otherRest;
    assert a[|name|] == ':' && b[|otherName|] == ':';
    assert a[..|name|] == name && b[..|otherName|] == otherName;
    assert a[|name| + 1..] == rest && b[|otherName| + 1..] == otherRest;
  }

  // ---- The limiter, updated in place -------------------------------------------------------

  class InMemoryFixedWindowRateLimiter {
    var counters: map<string, Counter>

    constructor ()
      ensures counters == map[]
    {
      counters := map[];
    }

    /** Record one request, or refuse it and leave everything as it was. */
    method CheckAndIncrement(subject: string, budget: Budget, now: real) returns (admitted: bool)
      modifies `counters
      ensures (counters, admitted) == Serve(old(counters), Request(subject, budget, now))
      ensures !admitted ==> counters == old(counters)
    {
      var counter := CounterOf(counters, subject);
      if StartsNewWindow(counter, now, budget.windowSec) {
        counters := counters[subject := Counter(now, 1)];
        return true;
      }
      if counter.value.requestCount >= budget.maxRequests {
        assert counters[subject := counter.value] == counters;
        return false;
      }
      counters := counters[subject := counter.value.(requestCount := counter.value.requestCount + 1)];
      admitted := true;
    }
  }
}
