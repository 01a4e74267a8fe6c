/**
 The facade's judgement of what a loader hands it, the durable de-duplication log it
 writes ahead of every yield, and what that gives over many runs of one session,
 for any loader whatsoever.
 */
module FacadeMachine {
  import opened Prelude
  import opened StreamContracts
  import opened LoaderMachine
  import opened DedupLog

  // The local variables of one facade run, plus the durable log they are backed by.
  datatype Ledger = Ledger(
    attempts: nat,
    previous: Option<Slice>,
    seen: set<IdentityKey>,
    log: Log)

  datatype Effect =
    | Again                      // pull the loader once more
    | Yield(slice: Slice)        // hand the slice to the consumer
    | Finish(reason: StopReason) // the loader is drained, and why
    | Fail(message: string)      // a value error carrying the failure
    | Escape(crash: Crash)       // an exception the facade does not handle
    | Killed                     // the process is gone

  predicate Ends(effect: Effect) {
    !effect.Again? && !effect.Yield?
  }

  datatype Verdict = Invalid | Replayed | Accepted(key: IdentityKey)

  function Judge(previous: Option<Slice>, seen: set<IdentityKey>, slice: Slice): Verdict {
    if !ValidSuccessor(previous, slice) then Invalid
    else if Identity(slice).None? then Invalid
    else if Identity(slice).value in seen then Replayed
    else Accepted(Identity(slice).value)
  }

  const BUDGET_EXHAUSTED := "api_stream reconnect budget exhausted: "

  function Accept(ledger: Ledger, slice: Slice, key: IdentityKey, append: AppendReply): (Ledger, Effect) {
    var log := ledger.log.After(key, append);
    match append
    case Refused => (ledger, Escape(OsError))
    case Torn(_, died) => (ledger.(log := log), if died then Killed else Escape(OsError))
    case DiedAfterWrite => (ledger.(log := log), Killed)
    case Written => (Ledger(ledger.attempts, Some(slice), ledger.seen + {key}, log), Yield(slice))
  }

  function React(reconnectBudget: nat, ledger: Ledger, outcome: Outcome, append: AppendReply): (Ledger, Effect) {
    match outcome
    case Continue => (ledger, Again)
    case Stopped(reason) => (ledger, Finish(reason))
    case Crashed(crash) => (ledger, Escape(crash))
    case Raised(kind, message) =>
      (match kind
       case Temporary => (ledger, Again)
       case Terminal => (ledger, Fail(message))
       case Retryable =>
         var ledger' := ledger.(attempts := ledger.attempts + 1);
         if ledger'.attempts <= reconnectBudget then (ledger', Again)
         else (ledger', Fail(BUDGET_EXHAUSTED + message)))
    case Produced(slice) =>
      match Judge(ledger.previous, ledger.seen, slice)
      case Invalid => (ledger, Again)
      case Replayed => (ledger, Again)
      case Accepted(key) => Accept(ledger, slice, key, append)
  }

  // One run: what an arbitrary loader offers, and how each append would end.
  datatype Offer = Offer(outcome: Outcome, append: AppendReply)

  // The slices a run yields from a ledger, up to its end or to where it is cut off.
  function Yields(budget: nat, ledger: Ledger, offers: seq<Offer>): seq<Slice>
    decreases |offers|
  {
    if offers == [] then []
    else
      var (ledger', effect) := React(budget, ledger, offers[0].outcome, offers[0].append);
      (if effect.Yield? then [effect.slice] else [])
      + (if Ends(effect) then [] else Yields(budget, ledger', offers[1..]))
  }

  function LogAfter(budget: nat, ledger: Ledger, offers: seq<Offer>): Log
    decreases |offers|
  {
    if offers == [] then ledger.log
    else
      var (ledger', effect) := React(budget, ledger, offers[0].outcome, offers[0].append);
      if Ends(effect) then ledger'.log else LogAfter(budget, ledger', offers[1..])
  }

  // Successive runs of one session.  A run that cannot read the log starts with no keys.
  datatype Life = Life(logReadable: bool, offers: seq<Offer>)

  function Opened(log: Log, logReadable: bool): Ledger {
    Ledger(0, None, if logReadable then KeySet(log) else {}, log)
  }

  function LifetimeYields(budget: nat, log: Log, lives: seq<Life>): seq<Slice>
    decreases |lives|
  {
    if lives == [] then []
    else
      var ledger := Opened(log, lives[0].logReadable);
      Yields(budget, ledger, lives[0].offers)
      + LifetimeYields(budget, LogAfter(budget, ledger, lives[0].offers), lives[1..])
  }

  // ---- One run ----------------------------------------------------------------

  predicate Follows(a: Slice, b: Slice) {
    && a.windowIndex.Some? && b.windowIndex.Some?
    && a.windowIndex.value < b.windowIndex.value
    && a.sourceGroup == b.sourceGroup
  }

  // The slices come in order, and after the previous one if there is one.
  ghost predicate Ordered(previous: Option<Slice>, slices: seq<Slice>) {
    && (forall i :: 0 <= i < |slices| ==>
          slices[i].windowIndex.Some? && (previous.Some? ==> Follows(previous.value, slices[i])))
    && (forall i, j :: 0 <= i < j < |slices| ==> Follows(slices[i], slices[j]))
  }

  /** Within one run indexes strictly increase and the source group never changes. */
  lemma {:induction false} YieldsAreOrdered(budget: nat, ledger: Ledger, offers: seq<Offer>)
    requires ledger.previous.Some? ==> ledger.previous.value.windowIndex.Some?
    ensures Ordered(ledger.previous, Yields(budget, ledger, offers))
    decreases |offers|
  {
    if offers != [] {
      var (ledger', effect) := React(budget, ledger, offers[0].outcome, offers[0].append);
      if !Ends(effect) {
        YieldsAreOrdered(budget, ledger', offers[1..]);
        var rest := Yields(budget, ledger', offers[1..]);
        assert Yields(budget, ledger, offers) == (if effect.Yield? then [effect.slice] else []) + rest;
        assert effect.Yield? ==> ledger'.previous == Some(effect.slice);
      }
    }
  }

  // ---- Many runs --------------------------------------------------------------

  // No slice carries a key of the set, and no two slices carry the same key.
  ghost predicate Fresh(before: set<IdentityKey>, slices: seq<Slice>) {
    && (forall i :: 0 <= i < |slices| ==> Identity(slices[i]).Some? && Identity(slices[i]).value !in before)
    && (forall i, j :: 0 <= i < j < |slices| ==> Identity(slices[i]) != Identity(slices[j]))
  }

  // Every yielded key is readable in the log.
  ghost predicate Logged(slices: seq<Slice>, log: Log) {
    forall i :: 0 <= i < |slices| ==> Identity(slices[i]).Some? && Identity(slices[i]).value in log.Keys()
  }

  /** A run yields no key it has seen and none twice. */
  lemma {:induction false} RunIsFresh(budget: nat, ledger: Ledger, offers: seq<Offer>)
    ensures Fresh(ledger.seen, Yields(budget, ledger, offers))
    decreases |offers|
  {
    if offers != [] {
      var (ledger', effect) := React(budget, ledger, offers[0].outcome, offers[0].append);
      if !Ends(effect) {
        RunIsFresh(budget, ledger', offers[1..]);
      }
    }
  }

  /** On a log without a tail every key stays readable, and every yielded key becomes so. */
  lemma {:induction false} RunIsLogged(budget: nat, ledger: Ledger, offers: seq<Offer>)
    requires ledger.log.tail.NoTail?
    ensures Logged(Yields(budget, ledger, offers), LogAfter(budget, ledger, offers))
    ensures ledger.log.lines <= LogAfter(budget, ledger, offers).lines
    decreases |offers|
  {
    if offers != [] {
      var (ledger', effect) := React(budget, ledger, offers[0].outcome, offers[0].append);
      if !Ends(effect) {
        RunIsLogged(budget, ledger', offers[1..]);
        if effect.Yield? {
          var key := Identity(effect.slice).value;
          assert ledger'.log.lines[|ledger.log.lines|] == key;
          assert LogAfter(budget, ledger, offers).lines[|ledger.log.lines|] == key;
        }
      }
    }
  }

  // Every run can read the log and finds it without a tail.
  ghost predicate AlwaysSound(budget: nat, log: Log, lives: seq<Life>)
    decreases |lives|
  {
    lives == [] ||
    (&& lives[0].logReadable && log.tail.NoTail?
     && AlwaysSound(budget, LogAfter(budget, Opened(log, true), lives[0].offers), lives[1..]))
  }

  /**
   At most once: over any number of successive runs, each cut off at any point and offered
   anything by its loader, no identity key is yielded twice or yielded although it was in the
   log at the start, as long as every run can read the log and no append before was cut.
   */
  lemma {:induction false} AtMostOnce(budget: nat, log: Log, lives: seq<Life>)
    requires AlwaysSound(budget, log, lives)
    ensures Fresh(KeySet(log), LifetimeYields(budget, log, lives))
    decreases |lives|
  {
    if lives != [] {
      var ledger := Opened(log, true);
      var first, log' := Yields(budget, ledger, lives[0].offers), LogAfter(budget, ledger, lives[0].offers);
      RunIsFresh(budget, ledger, lives[0].offers);
      RunIsLogged(budget, ledger, lives[0].offers);
      AtMostOnce(budget, log', lives[1..]);
      FreshFollows(log, first, log', LifetimeYields(budget, log', lives[1..]));
    }
  }

  // Fresh slices followed by ones fresh against a log that holds the first.
  lemma FreshFollows(log: Log, first: seq<Slice>, log': Log, rest: seq<Slice>)
    requires log.tail.NoTail? && log.lines <= log'.lines
    requires Fresh(KeySet(log), first) && Logged(first, log') && Fresh(KeySet(log'), rest)
    ensures Fresh(KeySet(log), first + rest)
  {
    forall key | key in log.Keys() ensures key in log'.Keys() {
    }
    forall i, j | 0 <= i < |first| && 0 <= j < |rest|
      ensures Identity(first[i]) != Identity(rest[j])
    {
      assert Identity(first[i]).value in KeySet(log');
    }
  }

  // No run opened on this log ever yields a key of it, whatever its loader offers.
  ghost predicate NeverReplays(budget: nat, log: Log, logReadable: bool) {
    forall offers: seq<Offer>, i ::
      0 <= i < |Yields(budget, Opened(log, logReadable), offers)| ==>
        Identity(Yields(budget, Opened(log, logReadable), offers)[i]) !in Somes(log.Keys())
  }

  function Somes(keys: seq<IdentityKey>): set<Option<IdentityKey>> {
    set key | key in keys :: Some(key)
  }

  // The run that is offered a slice with this key.
  function OfferOf(key: IdentityKey): Offer {
    Offer(Produced(Slice("", key.0, key.2, Some(key.1), 0.0, 0.0)), Written)
  }

  /**
   The read of the log ignores an unreadable file and starts from no keys, so the promise
   depends on it: a run never replays the log exactly when it can read it or it holds no key.
   */
  lemma ReplayFreeIffLogReadable(budget: nat, log: Log, logReadable: bool)
    ensures NeverReplays(budget, log, logReadable) <==> logReadable || log.Keys() == []
  {
    if logReadable || log.Keys() == [] {
      forall offers: seq<Offer>, i | 0 <= i < |Yields(budget, Opened(log, logReadable), offers)|
        ensures Identity(Yields(budget, Opened(log, logReadable), offers)[i]) !in Somes(log.Keys())
      {
        RunIsFresh(budget, Opened(log, logReadable), offers);
      }
    } else {
      var offers := [OfferOf(log.Keys()[0])];
      var y := Yields(budget, Opened(log, logReadable), offers);
      assert offers[1..] == [];
      assert Identity(y[0]) == Some(log.Keys()[0]);
      assert Some(log.Keys()[0]) in Somes(log.Keys());
    }
  }

  // Whatever a run on this log yields can be read back from it afterwards.
  ghost predicate NeverForgets(budget: nat, log: Log, logReadable: bool) {
    forall offers: seq<Offer> ::
      Logged(Yields(budget, Opened(log, logReadable), offers), LogAfter(budget, Opened(log, logReadable), offers))
  }

  // A key no line holds: its window index is beyond theirs.
  function UnusedIndex(keys: seq<IdentityKey>): (index: int)
    ensures forall key :: key in keys ==> key.1 < index
  {
    if keys == [] then 0
    else
      var before, last := UnusedIndex(keys[..|keys| - 1]), keys[|keys| - 1];
      assert keys == keys[..|keys| - 1] + [last];
      if before <= last.1 then last.1 + 1 else before
  }

  /**
   An append glued to a tail is lost, so a run forgets nothing it yields exactly when the log it
   was opened on has no tail, that is, when the last append before it was not cut.
   */
  lemma NeverForgetsIffNoTail(budget: nat, log: Log, logReadable: bool)
    ensures NeverForgets(budget, log, logReadable) <==> log.tail.NoTail?
  {
    if log.tail.NoTail? {
      forall offers: seq<Offer>
        ensures Logged(Yields(budget, Opened(log, logReadable), offers),
                       LogAfter(budget, Opened(log, logReadable), offers))
      {
        RunIsLogged(budget, Opened(log, logReadable), offers);
      }
    } else {
      var key := ("", UnusedIndex(log.Keys()), "");
      var offers := [OfferOf(key)];
      assert key !in log.Keys();
      assert offers[1..] == [];
      var y := Yields(budget, Opened(log, logReadable), offers);
      assert Identity(y[0]) == Some(key);
      assert key !in LogAfter(budget, Opened(log, logReadable), offers).Keys();
    }
  }
}
