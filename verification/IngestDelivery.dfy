/**
 What the runs of the ingest system deliver, as runs of the facade over what the loader offers it,
 and so at most once over successive connections of one session.
 */
module IngestDelivery {
  import opened Prelude
  import opened StreamContracts
  import opened LoaderMachine
  import opened DedupLog
  import opened FacadeMachine
  import opened IngestSystem

  // What the loader of a system offers its facade, up to the system's end.
  function Offers(settings: Settings, s: System, ticks: seq<Tick>): seq<Offer>
    decreases |ticks|
  {
    if ticks == [] || s.end.Some? then []
    else
      [Offer(Iterate(settings, s.live, ticks[0].env).1, ticks[0].append)]
      + Offers(settings, Step(settings, s, ticks[0]), ticks[1..])
  }

  lemma {:induction false} EndedStays(settings: Settings, s: System, ticks: seq<Tick>)
    requires s.end.Some?
    ensures Run(settings, s, ticks) == s
    decreases |ticks|
  {
    if ticks != [] {
      EndedStays(settings, s, ticks[1..]);
    }
  }

  lemma StepReacts(settings: Settings, s: System, tick: Tick)
    requires s.end.None?
    ensures var (ledger, effect) := React(settings.maxReconnectAttempts, s.ledger,
                                          Iterate(settings, s.live, tick.env).1, tick.append);
            var s' := Step(settings, s, tick);
            && s'.ledger == ledger && (s'.end.Some? <==> Ends(effect))
            && s'.history.yielded == s.history.yielded + if effect.Yield? then [effect.slice] else []
  {
  }

  /** A run yields what the facade yields of the loader's offers, and leaves the log it leaves. */
  lemma {:induction false} RunYields(settings: Settings, s: System, ticks: seq<Tick>)
    requires s.end.None?
    ensures var budget, offers := settings.maxReconnectAttempts, Offers(settings, s, ticks);
            && Run(settings, s, ticks).history.yielded == s.history.yielded + Yields(budget, s.ledger, offers)
            && Run(settings, s, ticks).ledger.log == LogAfter(budget, s.ledger, offers)
    decreases |ticks|
  {
    if ticks != [] {
      var budget, s' := settings.maxReconnectAttempts, Step(settings, s, ticks[0]);
      var offers, rest := Offers(settings, s, ticks), Offers(settings, s', ticks[1..]);
      StepReacts(settings, s, ticks[0]);
      assert offers[1..] == rest;
      if s'.end.Some? {
        EndedStays(settings, s', ticks[1..]);
      } else {
        RunYields(settings, s', ticks[1..]);
      }
    }
  }

  // One connection of a session: whether it reads the log, its first playlist, and what it meets.
  datatype Connection = Connection(settings: Settings, first: Snapshot, logReadable: bool, ticks: seq<Tick>)

  function Start(log: Log, c: Connection): System {
    Connected(c.settings, c.first, log, c.logReadable)
  }

  function RunOf(log: Log, c: Connection): System {
    Run(c.settings, Start(log, c), c.ticks)
  }

  predicate StartsAs(log: Log, c: Connection, s: System) {
    s == Start(log, c)
  }

  // A connection opened on this log ran, through all its ticks, to this system.
  ghost predicate RanTo(log: Log, c: Connection, s: System) {
    forall s0 {:trigger StartsAs(log, c, s0)} :: StartsAs(log, c, s0) ==> Ran(c.settings, s0, c.ticks, s)
  }

  lemma RanToIff(log: Log, c: Connection, s: System)
    ensures RanTo(log, c, s) <==> Ran(c.settings, Start(log, c), c.ticks, s)
  {
    assert StartsAs(log, c, Start(log, c));
  }

  // The keys a connection reads from the log at its start.
  function KeysRead(log: Log, readable: bool): set<IdentityKey> {
    if readable then KeySet(log) else {}
  }

  // What successive connections yield, each opened on the log the one before it left.
  function Delivered(log: Log, connections: seq<Connection>): seq<Slice>
    decreases |connections|
  {
    if connections == [] then []
    else
      var s := RunOf(log, connections[0]);
      s.history.yielded + Delivered(s.ledger.log, connections[1..])
  }

  // Every connection reads the log and finds it without a tail.
  ghost predicate AlwaysFoundSound(log: Log, connections: seq<Connection>)
    decreases |connections|
  {
    connections == [] ||
    (&& connections[0].logReadable && log.tail.NoTail?
     && AlwaysFoundSound(RunOf(log, connections[0]).ledger.log, connections[1..]))
  }

  /** One connection yields nothing the log held, nothing twice, and leaves every key in the log. */
  lemma ConnectionIsFresh(log: Log, c: Connection)
    requires c.logReadable && log.tail.NoTail?
    ensures var s := RunOf(log, c);
            && Fresh(KeySet(log), s.history.yielded) && Logged(s.history.yielded, s.ledger.log)
            && log.lines <= s.ledger.log.lines
  {
    var s := Connected(c.settings, c.first, log, true);
    var budget, offers := c.settings.maxReconnectAttempts, Offers(c.settings, s, c.ticks);
    RunYields(c.settings, s, c.ticks);
    assert s.history.yielded + Yields(budget, s.ledger, offers) == Yields(budget, s.ledger, offers);
    RunIsFresh(budget, s.ledger, offers);
    RunIsLogged(budget, s.ledger, offers);
  }

  /**
   Over any number of successive connections of a session, whatever server, disk and clock answer
   and wherever each of them is cut off, no identity key is yielded twice or although the log held
   it, as long as every connection can read the log and no append before it was cut.
   */
  lemma {:induction false} DeliveredAtMostOnce(log: Log, connections: seq<Connection>)
    requires AlwaysFoundSound(log, connections)
    ensures Fresh(KeySet(log), Delivered(log, connections))
    decreases |connections|
  {
    if connections != [] {
      var s := RunOf(log, connections[0]);
      ConnectionIsFresh(log, connections[0]);
      DeliveredAtMostOnce(s.ledger.log, connections[1..]);
      FreshFollows(log, s.history.yielded, s.ledger.log, Delivered(s.ledger.log, connections[1..]));
    }
  }

  // ---- Successive sessions ---------------------------------------------------------

  // The log a session leaves and what it yields; one that never connected leaves the log alone.
  function LogLeft(log: Log, session: Option<Connection>): Log {
    if session.None? then log else RunOf(log, session.value).ledger.log
  }

  function YieldedBy(log: Log, session: Option<Connection>): seq<Slice> {
    if session.None? then [] else RunOf(log, session.value).history.yielded
  }

  lemma SessionLeaves(log: Log, c: Connection, s: System)
    requires RanTo(log, c, s)
    ensures s.ledger.log == LogLeft(log, Some(c)) && s.history.yielded == YieldedBy(log, Some(c))
  {
    RanToIff(log, c, s);
    RanWhole(c.settings, Start(log, c), c.ticks, s);
  }

  // Each session finds the log the one before it left.
  ghost predicate Succeed(logs: seq<Log>, sessions: seq<Option<Connection>>) {
    && |logs| == |sessions| + 1
    && forall i, j :: 0 <= i < |sessions| && j == i + 1 ==> logs[j] == LogLeft(logs[i], sessions[i])
  }

  // Each session that connects can read the log it finds, and finds it without a tail.
  ghost predicate FindsSound(log: Log, session: Option<Connection>) {
    session.Some? ==> session.value.logReadable && log.tail.NoTail?
  }

  function AllYielded(logs: seq<Log>, sessions: seq<Option<Connection>>): seq<Slice>
    requires |logs| == |sessions| + 1
  {
    if sessions == [] then [] else YieldedBy(logs[0], sessions[0]) + AllYielded(logs[1..], sessions[1..])
  }

  /** Over any number of successive sessions on one log no identity key is yielded twice, or once more. */
  lemma {:induction false} SessionsDeliverAtMostOnce(logs: seq<Log>, sessions: seq<Option<Connection>>)
    requires Succeed(logs, sessions)
    requires forall i :: 0 <= i < |sessions| ==> FindsSound(logs[i], sessions[i])
    ensures Fresh(KeySet(logs[0]), AllYielded(logs, sessions))
    decreases |sessions|
  {
    if sessions != [] {
      var later := AllYielded(logs[1..], sessions[1..]);
      SessionsDeliverAtMostOnce(logs[1..], sessions[1..]);
      assert logs[1] == LogLeft(logs[0], sessions[0]) && FindsSound(logs[0], sessions[0]);
      if sessions[0].None? {
        assert AllYielded(logs, sessions) == later;
      } else {
        ConnectionIsFresh(logs[0], sessions[0].value);
        FreshFollows(logs[0], YieldedBy(logs[0], sessions[0]), logs[1], later);
      }
    }
  }
}
