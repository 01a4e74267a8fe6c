/**
 The throttled view of cancel intent.  Between two reads of the store a bounded number of
 unforced checks answer from the cache; intent itself, once durable, stays.
 */
module CancelCache {

  const CANCEL_CHECK_SKIP_COUNT := 8

  datatype Cache = Cache(requested: bool, skipBudget: nat)

  const FRESH_CACHE := Cache(false, 0)

  function Check(cache: Cache, force: bool, stored: bool): (bool, Cache) {
    if cache.requested then (true, cache)
    else if !force && cache.skipBudget > 0 then (false, cache.(skipBudget := cache.skipBudget - 1))
    else (stored, Cache(stored, if stored then 0 else CANCEL_CHECK_SKIP_COUNT))
  }

  // One check: whether it is forced, and what the store holds at that moment.
  datatype Ask = Ask(force: bool, stored: bool)

  function Answers(cache: Cache, asks: seq<Ask>): (answers: seq<bool>)
    ensures |answers| == |asks|
    decreases |asks|
  {
    if asks == [] then []
    else
      var (answer, cache') := Check(cache, asks[0].force, asks[0].stored);
      [answer] + Answers(cache', asks[1..])
  }

  function Denials(answers: seq<bool>): nat {
    if answers == [] then 0 else (if answers[0] then 0 else 1) + Denials(answers[1..])
  }

  ghost predicate IntentStays(asks: seq<Ask>) {
    forall i, j :: 0 <= i < j < |asks| && asks[i].stored ==> asks[j].stored
  }

  // A cache that has not been told anything the store does not hold by now.
  ghost predicate Honest(cache: Cache, asks: seq<Ask>) {
    && cache.skipBudget <= CANCEL_CHECK_SKIP_COUNT
    && (cache.requested && asks != [] ==> asks[0].stored)
    && IntentStays(asks)
  }

  lemma HonestStep(cache: Cache, asks: seq<Ask>)
    requires asks != [] && Honest(cache, asks)
    ensures Honest(Check(cache, asks[0].force, asks[0].stored).1, asks[1..])
  {
    assert forall i :: 0 <= i < |asks[1..]| ==> asks[1..][i] == asks[i + 1];
  }

  /** A positive answer is never wrong, and a forced check answers exactly what the store holds. */
  lemma {:induction false} AnswersAgreeWithStore(cache: Cache, asks: seq<Ask>)
    requires Honest(cache, asks)
    ensures forall i :: 0 <= i < |asks| ==>
              && (Answers(cache, asks)[i] ==> asks[i].stored)
              && (asks[i].force ==> Answers(cache, asks)[i] == asks[i].stored)
    decreases |asks|
  {
    if asks != [] {
      HonestStep(cache, asks);
      var cache' := Check(cache, asks[0].force, asks[0].stored).1;
      AnswersAgreeWithStore(cache', asks[1..]);
      forall i | 0 <= i < |asks|
        ensures Answers(cache, asks)[i] ==> asks[i].stored
        ensures asks[i].force ==> Answers(cache, asks)[i] == asks[i].stored
      {
        if i > 0 {
          assert Answers(cache, asks)[i] == Answers(cache', asks[1..])[i - 1];
          assert asks[1..][i - 1] == asks[i];
        }
      }
    }
  }

  /**
   Once intent is durable, at most eight further checks deny it, and after the first that
   admits it none does.
   */
  lemma {:induction false} IntentSurfacesSoon(cache: Cache, asks: seq<Ask>)
    requires cache.skipBudget <= CANCEL_CHECK_SKIP_COUNT
    requires forall i :: 0 <= i < |asks| ==> asks[i].stored
    ensures Denials(Answers(cache, asks)) <= cache.skipBudget <= CANCEL_CHECK_SKIP_COUNT
    ensures cache.requested ==> Denials(Answers(cache, asks)) == 0
    ensures forall i, j :: 0 <= i < j < |asks| && Answers(cache, asks)[i] ==> Answers(cache, asks)[j]
    decreases |asks|
  {
    if asks != [] {
      var (answer, cache') := Check(cache, asks[0].force, asks[0].stored);
      IntentSurfacesSoon(cache', asks[1..]);
      var rest := Answers(cache', asks[1..]);
      assert Answers(cache, asks) == [answer] + rest;
      if answer {
        NoDenials(rest);
      }
      assert Answers(cache, asks)[1..] == rest;
    }
  }

  lemma {:induction false} NoDenials(answers: seq<bool>)
    ensures Denials(answers) == 0 <==> forall i :: 0 <= i < |answers| ==> answers[i]
  {
    if answers != [] {
      NoDenials(answers[1..]);
      assert forall i :: 0 <= i < |answers[1..]| ==> answers[1..][i] == answers[i + 1];
    }
  }

  // Whether the answer of each check depends on the store, and is not the cache's.
  function Reads(cache: Cache, asks: seq<Ask>): (looked: seq<bool>)
    ensures |looked| == |asks|
    decreases |asks|
  {
    if asks == [] then []
    else
      var depends := Check(cache, asks[0].force, true).0 != Check(cache, asks[0].force, false).0;
      [depends] + Reads(Check(cache, asks[0].force, asks[0].stored).1, asks[1..])
  }

  // With skips left no unforced check reads before they are used up, and none once intent is known.
  lemma {:induction false} SkipsDelayReads(cache: Cache, asks: seq<Ask>, i: nat)
    requires i < |asks| && (i < cache.skipBudget || cache.requested) && forall k :: 0 <= k <= i ==> !asks[k].force
    ensures !Reads(cache, asks)[i]
    decreases |asks|
  {
    if i > 0 {
      var cache' := Check(cache, asks[0].force, asks[0].stored).1;
      SkipsDelayReads(cache', asks[1..], i - 1);
      assert Reads(cache, asks)[i] == Reads(cache', asks[1..])[i - 1];
    }
  }

  /** The throttle: two unforced checks that read the store, with only unforced ones between, are nine apart. */
  lemma {:induction false} ReadsAreRare(cache: Cache, asks: seq<Ask>, i: nat, j: nat)
    requires i < j < |asks| && forall k :: i <= k <= j ==> !asks[k].force
    requires Reads(cache, asks)[i] && Reads(cache, asks)[j]
    ensures j - i >= CANCEL_CHECK_SKIP_COUNT + 1
    decreases |asks|
  {
    var cache' := Check(cache, asks[0].force, asks[0].stored).1;
    var rest := Reads(cache', asks[1..]);
    assert forall k :: 0 < k < |asks| ==> Reads(cache, asks)[k] == rest[k - 1];
    if i == 0 {
      if j < CANCEL_CHECK_SKIP_COUNT + 1 || cache'.requested {
        SkipsDelayReads(cache', asks[1..], j - 1);
      }
    } else {
      ReadsAreRare(cache', asks[1..], i - 1, j - 1);
    }
  }
}
