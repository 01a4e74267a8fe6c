/**
 Delivery against a server that keeps to section 6.2.2 of RFC 8216: windows are contiguous,
 their first sequence number never decreases, and a sequence number keeps its file name.
 */
module ExactlyOnce {
  import opened Prelude
  import opened StreamContracts
  import opened HlsPolicy
  import opened LoaderMachine
  import opened FacadeMachine
  import opened DedupLog
  import opened IngestSystem
  import opened IngestTermination

  // The file name the server gives to each sequence number.
  type Naming = int -> string

  ghost predicate Window(segments: seq<Segment>, naming: Naming) {
    forall i :: 0 <= i < |segments| ==>
      && segments[i].sequence == segments[0].sequence + i
      && segments[i].fileName == naming(segments[i].sequence)
      && segments[i].sequence >= 0
  }

  ghost predicate Compliant(merged: seq<Snapshot>, naming: Naming) {
    && (forall i :: 0 <= i < |merged| ==> Window(merged[i].segments, naming))
    && (forall i, j :: 0 <= i < j < |merged| && merged[i].segments != [] && merged[j].segments != [] ==>
          merged[i].segments[0].sequence <= merged[j].segments[0].sequence)
  }

  ghost predicate Visible(merged: seq<Snapshot>, n: int) {
    exists i, j :: 0 <= i < |merged| && 0 <= j < |merged[i].segments| && merged[i].segments[j].sequence == n
  }

  ghost predicate Has(segments: seq<Segment>, n: int) {
    exists i :: 0 <= i < |segments| && segments[i].sequence == n
  }

  ghost predicate Increasing(segments: seq<Segment>) {
    forall i, j :: 0 <= i < j < |segments| ==> segments[i].sequence < segments[j].sequence
  }

  // In how many of the reported gaps a sequence number lies.
  function GapCount(gaps: seq<Gap>, n: int): nat {
    if gaps == [] then 0
    else
      var last := gaps[|gaps| - 1];
      GapCount(gaps[..|gaps| - 1], n) + if last.resumeFrom - last.missed <= n < last.resumeFrom then 1 else 0
  }

  // ---- Queueing one window -----------------------------------------------------------

  function Newer(segments: seq<Segment>, last: Option<int>): seq<Segment> {
    if segments == [] then []
    else (if last.None? || segments[0].sequence > last.value then [segments[0]] else [])
         + Newer(segments[1..], last)
  }

  // What the queue knows splits the window at the last sequence number seen.
  ghost predicate SplitsAt(q: Queue, segments: seq<Segment>, last: Option<int>) {
    forall i :: 0 <= i < |segments| ==>
      (Known(q, segments[i]) <==> last.Some? && segments[i].sequence <= last.value)
  }

  lemma {:induction false} UnseenAreTheNewer(q: Queue, segments: seq<Segment>, last: Option<int>)
    requires Increasing(segments) && SplitsAt(q, segments, last)
    ensures Unseen(q, segments) == Newer(segments, last)
    decreases |segments|
  {
    if segments != [] {
      var q' := Enqueue(q, segments[0]);
      forall i | 0 <= i < |segments[1..]|
        ensures Known(q', segments[1..][i]) <==> last.Some? && segments[1..][i].sequence <= last.value
      {
        assert segments[1..][i] == segments[i + 1];
        assert segments[0].sequence < segments[i + 1].sequence;
      }
      UnseenAreTheNewer(q', segments[1..], last);
    }
  }

  lemma {:induction false} EnqueuedAreKnown(q: Queue, segments: seq<Segment>)
    ensures var q' := EnqueueAll(q, segments);
            && q'.emitted == q.emitted
            && q.queued <= q'.queued
            && (forall i :: 0 <= i < |segments| ==> Known(q', segments[i]))
            && (forall key :: key in q'.queued ==> key in q.queued || key in Keys(segments))
    decreases |segments|
  {
    if segments != [] {
      EnqueuedAreKnown(Enqueue(q, segments[0]), segments[1..]);
    }
  }

  // ---- The invariant -------------------------------------------------------------------

  // The queue's memory: nothing beyond the last sequence number seen, and everything from
  // the floor of the current window up to it.
  ghost predicate Remembers(q: Queue, naming: Naming, floor: int, last: int) {
    && (forall key :: key in q.queued || key in q.emitted ==> key.0 <= last)
    && (forall n :: floor <= n <= last ==> (n, naming(n)) in q.queued || (n, naming(n)) in q.emitted)
  }

  // The first sequence number of the latest window that showed any segment.
  function Floor(merged: seq<Snapshot>): Option<int> {
    if merged == [] then None
    else if merged[|merged| - 1].segments != [] then Some(merged[|merged| - 1].segments[0].sequence)
    else Floor(merged[..|merged| - 1])
  }

  // Everything queued so far, against everything shown and reported so far.
  ghost predicate Covers(h: History, floor: int, last: int) {
    && h.everQueued != []
    && Increasing(h.everQueued)
    && h.everQueued[0].sequence <= floor <= last
    && (forall i :: 0 <= i < |h.everQueued| ==> 0 <= h.everQueued[i].sequence <= last)
    && (forall n :: floor <= n <= last ==> Has(h.everQueued, n))
    && (forall n :: h.everQueued[0].sequence <= n <= last ==>
          GapCount(h.gaps, n) == if Has(h.everQueued, n) then 0 else 1)
    && (forall n :: n > last || n < h.everQueued[0].sequence ==> GapCount(h.gaps, n) == 0)
  }

  ghost predicate Faithful(live: Live, h: History, naming: Naming) {
    && Floor(h.merged).Some? == live.lastSeenMax.Some?
    && (live.lastSeenMax.None? ==>
          && live.queue.queued == {} && live.queue.emitted == {}
          && h.everQueued == [] && h.gaps == [])
    && (live.lastSeenMax.Some? ==>
          && Remembers(live.queue, naming, Floor(h.merged).value, live.lastSeenMax.value)
          && Covers(h, Floor(h.merged).value, live.lastSeenMax.value))
    && (forall n :: Visible(h.merged, n) <==> Has(h.everQueued, n))
  }

  // ---- Windows as intervals ------------------------------------------------------------

  lemma HasOfConcat(a: seq<Segment>, b: seq<Segment>, n: int)
    ensures Has(a + b, n) <==> Has(a, n) || Has(b, n)
  {
    if i :| 0 <= i < |a| && a[i].sequence == n {
      assert (a + b)[i] == a[i];
    }
    if i :| 0 <= i < |b| && b[i].sequence == n {
      assert (a + b)[|a| + i] == b[i];
    }
  }

  lemma HasOfSuffix(segments: seq<Segment>, naming: Naming, d: nat, n: int)
    requires Window(segments, naming) && d <= |segments| && segments != []
    ensures Has(segments[d..], n) <==> segments[0].sequence + d <= n < segments[0].sequence + |segments|
  {
    if segments[0].sequence + d <= n < segments[0].sequence + |segments| {
      assert segments[d..][n - segments[0].sequence - d].sequence == n;
    }
  }

  lemma TailIsWindow(segments: seq<Segment>, naming: Naming)
    requires Window(segments, naming) && segments != []
    ensures Window(segments[1..], naming)
    ensures |segments| > 1 ==> segments[1..][0] == segments[1]
  {
    forall i | 0 <= i < |segments[1..]|
      ensures segments[1..][i] == segments[i + 1]
    {
    }
  }

  lemma {:induction false} NewerOfWindow(segments: seq<Segment>, naming: Naming, last: int, d: nat)
    requires Window(segments, naming) && d <= |segments|
    requires d < |segments| ==> segments[d].sequence > last
    requires d > 0 ==> segments[d - 1].sequence <= last
    ensures Newer(segments, Some(last)) == segments[d..]
    decreases |segments|
  {
    if segments != [] {
      TailIsWindow(segments, naming);
      NewerOfWindow(segments[1..], naming, last, if d > 0 then d - 1 else 0);
    }
  }

  lemma {:induction false} NewerOfNothing(segments: seq<Segment>)
    ensures Newer(segments, None) == segments
  {
    if segments != [] {
      NewerOfNothing(segments[1..]);
    }
  }

  // How many leading entries of a window were already seen.
  function SeenPart(segments: seq<Segment>, last: Option<int>): (d: nat)
    ensures d <= |segments|
  {
    if segments == [] || last.None? || last.value < segments[0].sequence then 0
    else if last.value - segments[0].sequence + 1 <= |segments| then last.value - segments[0].sequence + 1
    else |segments|
  }

  lemma NewerIsSuffix(segments: seq<Segment>, naming: Naming, last: Option<int>)
    requires Window(segments, naming)
    ensures Newer(segments, last) == segments[SeenPart(segments, last)..]
  {
    if last.None? {
      NewerOfNothing(segments);
    } else {
      NewerOfWindow(segments, naming, last.value, SeenPart(segments, last));
    }
  }

  lemma BoundsOfWindow(segments: seq<Segment>, naming: Naming)
    requires Window(segments, naming) && segments != []
    ensures MinSequence(segments) == segments[0].sequence
    ensures MaxSequence(segments) == segments[0].sequence + |segments| - 1
  {
    assert segments[|segments| - 1].sequence == segments[0].sequence + |segments| - 1;
  }

  // ---- One merge -------------------------------------------------------------------------

  lemma {:induction false} FloorIsShown(merged: seq<Snapshot>)
    ensures Floor(merged).Some? ==>
              exists i :: 0 <= i < |merged| && merged[i].segments != []
                          && merged[i].segments[0].sequence == Floor(merged).value
  {
    if merged != [] && merged[|merged| - 1].segments == [] {
      FloorIsShown(merged[..|merged| - 1]);
    }
  }

  lemma WindowSplits(live: Live, h: History, snapshot: Snapshot, naming: Naming)
    requires Faithful(live, h, naming) && snapshot.segments != []
    requires Window(snapshot.segments, naming)
    requires Floor(h.merged).Some? ==> Floor(h.merged).value <= snapshot.segments[0].sequence
    ensures SplitsAt(Pruned(live.queue, snapshot), snapshot.segments, live.lastSeenMax)
  {
    BoundsOfWindow(snapshot.segments, naming);
  }

  // A merge queues exactly the part of the window beyond the last sequence number seen.
  lemma MergeQueuesSuffix(live: Live, h: History, snapshot: Snapshot, naming: Naming)
    requires Faithful(live, h, naming)
    requires Window(snapshot.segments, naming)
    requires snapshot.segments != [] && Floor(h.merged).Some? ==>
               Floor(h.merged).value <= snapshot.segments[0].sequence
    ensures NewSegments(live, snapshot) == snapshot.segments[SeenPart(snapshot.segments, live.lastSeenMax)..]
  {
    if snapshot.segments != [] {
      WindowSplits(live, h, snapshot, naming);
      UnseenAreTheNewer(Pruned(live.queue, snapshot), snapshot.segments, live.lastSeenMax);
      NewerIsSuffix(snapshot.segments, naming, live.lastSeenMax);
    }
  }

  // What both halves of remembering start from.
  ghost predicate Mergeable(live: Live, h: History, snapshot: Snapshot, naming: Naming) {
    && Faithful(live, h, naming) && snapshot.segments != []
    && Window(snapshot.segments, naming)
    && (Floor(h.merged).Some? ==> Floor(h.merged).value <= snapshot.segments[0].sequence)
  }

  // The queue after a merge knows the keys of the window and of the pruned queue, and no others.
  lemma MergeKnows(settings: Settings, live: Live, snapshot: Snapshot, key: SegmentKey)
    ensures var q, q' := Pruned(live.queue, snapshot), Refresh(settings, live, snapshot).queue;
            key in q'.queued || key in q'.emitted
            <==> key in q.queued || key in q.emitted || key in Keys(snapshot.segments)
  {
    var segments := snapshot.segments;
    EnqueuedAreKnown(Pruned(live.queue, snapshot), segments);
    KeysMembership(segments, key);
    if key in Keys(segments) {
      var i :| 0 <= i < |segments| && segments[i].Key() == key;
      assert Known(Refresh(settings, live, snapshot).queue, segments[i]);
    }
  }

  lemma NothingBeyondLast(settings: Settings, live: Live, h: History, snapshot: Snapshot, naming: Naming, key: SegmentKey)
    requires Mergeable(live, h, snapshot, naming)
    requires var q' := Refresh(settings, live, snapshot).queue; key in q'.queued || key in q'.emitted
    ensures LastSeen(live, snapshot).Some? && key.0 <= LastSeen(live, snapshot).value
  {
    MergeKnows(settings, live, snapshot, key);
    BoundsOfWindow(snapshot.segments, naming);
    if key in Keys(snapshot.segments) {
      KeysMembership(snapshot.segments, key);
    }
  }

  lemma ShownIsKnown(settings: Settings, live: Live, snapshot: Snapshot, naming: Naming, i: nat)
    requires Window(snapshot.segments, naming) && i < |snapshot.segments|
    ensures var q', n := Refresh(settings, live, snapshot).queue, snapshot.segments[0].sequence + i;
            (n, naming(n)) in q'.queued || (n, naming(n)) in q'.emitted
  {
    var key := snapshot.segments[i].Key();
    KeysMembership(snapshot.segments, key);
    MergeKnows(settings, live, snapshot, key);
  }

  lemma RememberedIsKept(settings: Settings, live: Live, h: History, snapshot: Snapshot, naming: Naming, n: int)
    requires Mergeable(live, h, snapshot, naming)
    requires live.lastSeenMax.Some? && snapshot.segments[0].sequence <= n <= live.lastSeenMax.value
    ensures var q' := Refresh(settings, live, snapshot).queue;
            (n, naming(n)) in q'.queued || (n, naming(n)) in q'.emitted
  {
    BoundsOfWindow(snapshot.segments, naming);
    MergeKnows(settings, live, snapshot, (n, naming(n)));
  }

  lemma AllSinceFloorKnown(settings: Settings, live: Live, h: History, snapshot: Snapshot, naming: Naming, n: int)
    requires Mergeable(live, h, snapshot, naming)
    requires LastSeen(live, snapshot).Some? && snapshot.segments[0].sequence <= n <= LastSeen(live, snapshot).value
    ensures var q' := Refresh(settings, live, snapshot).queue;
            (n, naming(n)) in q'.queued || (n, naming(n)) in q'.emitted
  {
    var i := n - snapshot.segments[0].sequence;
    if i < |snapshot.segments| {
      ShownIsKnown(settings, live, snapshot, naming, i);
    } else {
      BoundsOfWindow(snapshot.segments, naming);
      RememberedIsKept(settings, live, h, snapshot, naming, n);
    }
  }

  /** Pruning forgets no key the window can still show, and a merge learns all of the window's. */
  lemma MergeRemembers(settings: Settings, live: Live, h: History, snapshot: Snapshot, naming: Naming)
    requires Mergeable(live, h, snapshot, naming)
    ensures LastSeen(live, snapshot).Some?
    ensures Remembers(Refresh(settings, live, snapshot).queue, naming, snapshot.segments[0].sequence,
                      LastSeen(live, snapshot).value)
  {
    var q', last := Refresh(settings, live, snapshot).queue, LastSeen(live, snapshot).value;
    forall key | key in q'.queued || key in q'.emitted
      ensures key.0 <= last
    {
      NothingBeyondLast(settings, live, h, snapshot, naming, key);
    }
    forall n | snapshot.segments[0].sequence <= n <= last
      ensures (n, naming(n)) in q'.queued || (n, naming(n)) in q'.emitted
    {
      AllSinceFloorKnown(settings, live, h, snapshot, naming, n);
    }
  }

  lemma GapCountOfAppend(gaps: seq<Gap>, gap: Gap, n: int)
    ensures GapCount(gaps + [gap], n)
            == GapCount(gaps, n) + if gap.resumeFrom - gap.missed <= n < gap.resumeFrom then 1 else 0
  {
    assert (gaps + [gap])[..|gaps|] == gaps;
  }

  // What a merge of a non-empty window queues, and which gap it reports, at one sequence number.
  lemma MergeQueuesAt(live: Live, h: History, snapshot: Snapshot, naming: Naming, n: int)
    requires Mergeable(live, h, snapshot, naming)
    ensures var segments := snapshot.segments;
            var d := SeenPart(segments, live.lastSeenMax);
            Has(Merge(h, live, snapshot).everQueued, n) <==>
            Has(h.everQueued, n) || segments[0].sequence + d <= n < segments[0].sequence + |segments|
  {
    var d := SeenPart(snapshot.segments, live.lastSeenMax);
    MergeQueuesSuffix(live, h, snapshot, naming);
    HasOfConcat(h.everQueued, snapshot.segments[d..], n);
    HasOfSuffix(snapshot.segments, naming, d, n);
  }

  lemma MergeReportsAt(live: Live, h: History, snapshot: Snapshot, naming: Naming, n: int)
    requires Mergeable(live, h, snapshot, naming)
    ensures GapCount(Merge(h, live, snapshot).gaps, n) ==
            GapCount(h.gaps, n)
            + if live.lastSeenMax.Some? && live.lastSeenMax.value < n < snapshot.segments[0].sequence then 1 else 0
  {
    BoundsOfWindow(snapshot.segments, naming);
    if ReportedGap(live, snapshot).Some? {
      GapCountOfAppend(h.gaps, ReportedGap(live, snapshot).value, n);
    } else {
      assert Merge(h, live, snapshot).gaps == h.gaps;
    }
  }

  // Adding the unseen part of a window to an increasing history keeps it increasing.
  lemma WindowExtends(ever: seq<Segment>, segments: seq<Segment>, naming: Naming, last: Option<int>)
    requires Increasing(ever) && Window(segments, naming) && segments != []
    requires if last.None? then ever == []
             else ever != [] && forall i :: 0 <= i < |ever| ==> 0 <= ever[i].sequence <= last.value
    ensures var ever' := ever + segments[SeenPart(segments, last)..];
            var most := segments[0].sequence + |segments| - 1;
            && Increasing(ever')
            && ever' != []
            && ever'[0] == (if ever != [] then ever[0] else segments[0])
            && (forall i :: 0 <= i < |ever'| ==>
                  0 <= ever'[i].sequence <= if last.None? then most else Max(last.value, most))
  {
    var unseen := segments[SeenPart(segments, last)..];
    UnseenLiesBeyond(segments, naming, last);
    forall i, j | 0 <= i < |ever| && 0 <= j < |unseen|
      ensures ever[i].sequence < unseen[j].sequence
    {
    }
    IncreasingConcat(ever, unseen);
  }

  lemma UnseenLiesBeyond(segments: seq<Segment>, naming: Naming, last: Option<int>)
    requires Window(segments, naming) && segments != []
    ensures var unseen := segments[SeenPart(segments, last)..];
            && Increasing(unseen)
            && (forall i :: 0 <= i < |unseen| ==>
                  && (last.Some? ==> unseen[i].sequence > last.value)
                  && 0 <= unseen[i].sequence <= segments[0].sequence + |segments| - 1)
  {
    var d := SeenPart(segments, last);
    forall i | 0 <= i < |segments[d..]|
      ensures segments[d..][i].sequence == segments[0].sequence + d + i
    {
      SuffixAt(segments, naming, d, i);
    }
    assert segments[0].sequence >= 0;
  }

  lemma SuffixAt(segments: seq<Segment>, naming: Naming, d: nat, i: nat)
    requires Window(segments, naming) && d + i < |segments|
    ensures segments[d..][i].sequence == segments[0].sequence + d + i
  {
    assert segments[d..][i] == segments[d + i];
  }

  lemma IncreasingConcat(a: seq<Segment>, b: seq<Segment>)
    requires Increasing(a) && Increasing(b)
    requires forall i, j :: 0 <= i < |a| && 0 <= j < |b| ==> a[i].sequence < b[j].sequence
    ensures Increasing(a + b)
  {
  }

  lemma MergeStaysIncreasing(live: Live, h: History, snapshot: Snapshot, naming: Naming)
    requires Mergeable(live, h, snapshot, naming)
    ensures var ever := Merge(h, live, snapshot).everQueued;
            && Increasing(ever)
            && ever != []
            && ever[0] == (if h.everQueued != [] then h.everQueued[0] else snapshot.segments[0])
            && (forall i :: 0 <= i < |ever| ==> 0 <= ever[i].sequence <= LastSeen(live, snapshot).value)
  {
    BoundsOfWindow(snapshot.segments, naming);
    MergeQueuesSuffix(live, h, snapshot, naming);
    WindowExtends(h.everQueued, snapshot.segments, naming, live.lastSeenMax);
  }

  lemma MergeCovers(settings: Settings, live: Live, h: History, snapshot: Snapshot, naming: Naming)
    requires Mergeable(live, h, snapshot, naming)
    ensures Covers(Merge(h, live, snapshot), snapshot.segments[0].sequence,
                   Refresh(settings, live, snapshot).lastSeenMax.value)
  {
    var h' := Merge(h, live, snapshot);
    BoundsOfWindow(snapshot.segments, naming);
    MergeStaysIncreasing(live, h, snapshot, naming);
    var last := Refresh(settings, live, snapshot).lastSeenMax.value;
    forall n
      ensures snapshot.segments[0].sequence <= n <= last ==> Has(h'.everQueued, n)
      ensures h'.everQueued[0].sequence <= n <= last ==>
                GapCount(h'.gaps, n) == if Has(h'.everQueued, n) then 0 else 1
      ensures n > last || n < h'.everQueued[0].sequence ==> GapCount(h'.gaps, n) == 0
    {
      MergeQueuesAt(live, h, snapshot, naming, n);
      MergeReportsAt(live, h, snapshot, naming, n);
      assert live.lastSeenMax.Some? && Has(h.everQueued, n) ==> n <= live.lastSeenMax.value;
    }
  }

  lemma VisibleOfAppend(merged: seq<Snapshot>, snapshot: Snapshot, n: int)
    ensures Visible(merged + [snapshot], n) <==> Visible(merged, n) || Has(snapshot.segments, n)
  {
    var merged' := merged + [snapshot];
    if Visible(merged, n) {
      var i, j :| 0 <= i < |merged| && 0 <= j < |merged[i].segments| && merged[i].segments[j].sequence == n;
      assert merged'[i].segments[j].sequence == n;
    }
    if j :| 0 <= j < |snapshot.segments| && snapshot.segments[j].sequence == n {
      assert merged'[|merged|].segments[j].sequence == n;
    }
  }

  lemma MergeShows(live: Live, h: History, snapshot: Snapshot, naming: Naming, n: int)
    requires Faithful(live, h, naming)
    requires Window(snapshot.segments, naming)
    requires snapshot.segments != [] && Floor(h.merged).Some? ==>
               Floor(h.merged).value <= snapshot.segments[0].sequence
    ensures Visible(Merge(h, live, snapshot).merged, n) <==> Has(Merge(h, live, snapshot).everQueued, n)
  {
    var segments := snapshot.segments;
    var d := SeenPart(segments, live.lastSeenMax);
    MergeQueuesSuffix(live, h, snapshot, naming);
    HasOfConcat(h.everQueued, segments[d..], n);
    VisibleOfAppend(h.merged, snapshot, n);
    if segments != [] {
      HasOfSuffix(segments, naming, d, n);
      HasOfSuffix(segments, naming, 0, n);
      assert segments[0..] == segments;
    }
  }

  lemma FloorIsBelow(h: History, snapshot: Snapshot, naming: Naming)
    requires Compliant(h.merged + [snapshot], naming)
    ensures Window(snapshot.segments, naming)
    ensures snapshot.segments != [] && Floor(h.merged).Some? ==>
              Floor(h.merged).value <= snapshot.segments[0].sequence
  {
    var merged' := h.merged + [snapshot];
    assert merged'[|h.merged|] == snapshot;
    FloorIsShown(h.merged);
    if snapshot.segments != [] && Floor(h.merged).Some? {
      var i :| 0 <= i < |h.merged| && h.merged[i].segments != []
               && h.merged[i].segments[0].sequence == Floor(h.merged).value;
      assert merged'[i].segments[0].sequence <= merged'[|h.merged|].segments[0].sequence;
    }
  }

  lemma MergeStaysFaithful(settings: Settings, live: Live, h: History, snapshot: Snapshot, naming: Naming)
    requires Faithful(live, h, naming) && Compliant(h.merged + [snapshot], naming)
    ensures Faithful(Refresh(settings, live, snapshot), Merge(h, live, snapshot), naming)
  {
    var merged' := h.merged + [snapshot];
    assert merged'[|h.merged|] == snapshot && merged'[..|h.merged|] == h.merged;
    FloorIsBelow(h, snapshot, naming);
    forall n
      ensures Visible(merged', n) <==> Has(Merge(h, live, snapshot).everQueued, n)
    {
      MergeShows(live, h, snapshot, naming, n);
    }
    if snapshot.segments != [] {
      MergeRemembers(settings, live, h, snapshot, naming);
      MergeCovers(settings, live, h, snapshot, naming);
    } else {
      assert Merge(h, live, snapshot).everQueued == h.everQueued;
      assert Merge(h, live, snapshot).gaps == h.gaps;
    }
  }

  lemma ConsumeStaysFaithful(live: Live, h: History, naming: Naming, fate: Fate)
    requires Faithful(live, h, naming) && QueueInvariant(live.queue) && live.queue.pending != []
    ensures Faithful(Consume(live), h.(attempted := h.attempted + [Attempted(live.queue.pending[0], fate)]), naming)
  {
    KeysMembership(live.queue.pending, live.queue.pending[0].Key());
  }

  // ---- Whole runs --------------------------------------------------------------------------

  lemma CompliantPrefix(merged: seq<Snapshot>, longer: seq<Snapshot>, naming: Naming)
    requires merged <= longer && Compliant(longer, naming)
    ensures Compliant(merged, naming)
  {
    assert forall i :: 0 <= i < |merged| ==> merged[i] == longer[i];
  }

  lemma {:induction false} MergedGrows(settings: Settings, s: System, ticks: seq<Tick>)
    ensures s.history.merged <= Run(settings, s, ticks).history.merged
    decreases |ticks|
  {
    if ticks != [] {
      MergedGrows(settings, Step(settings, s, ticks[0]), ticks[1..]);
    }
  }

  // The delivered segments, in order.
  function DeliveredOnly(attempted: seq<Attempted>): seq<Segment> {
    if attempted == [] then []
    else
      var last := attempted[|attempted| - 1];
      DeliveredOnly(attempted[..|attempted| - 1]) + if last.fate == Delivered then [last.segment] else []
  }

  predicate SliceOf(settings: Settings, slice: Slice, segment: Segment) {
    && slice.windowIndex == Some(segment.sequence)
    && slice.sourceGroup == settings.source
    && slice.sourceName == CurrentItem(SegmentName(segment), segment.sequence)
  }

  predicate CutShort(end: Option<End>) {
    end.Some? && (end.value.Escaped? || end.value.Dead?)
  }

  // The facade yields what was delivered; only a failing append loses the last one.
  ghost predicate Delivers(settings: Settings, s: System) {
    var delivered := DeliveredOnly(s.history.attempted);
    && |s.history.yielded| <= |delivered| <= |s.history.yielded| + 1
    && (!CutShort(s.end) ==> |s.history.yielded| == |delivered|)
    && (forall i :: 0 <= i < |s.history.yielded| ==> SliceOf(settings, s.history.yielded[i], delivered[i]))
  }

  // Everything the facade remembers lies before everything still pending.
  ghost predicate FacadeBehind(settings: Settings, s: System) {
    s.end.None? ==>
      && (s.ledger.previous.None? ==> s.ledger.seen == {})
      && (s.ledger.previous.Some? ==>
            && s.ledger.previous.value.sourceGroup == settings.source
            && s.ledger.previous.value.windowIndex.Some?
            && (forall key :: key in s.ledger.seen ==> key.1 <= s.ledger.previous.value.windowIndex.value)
            && (forall i :: 0 <= i < |s.live.queue.pending| ==>
                  s.ledger.previous.value.windowIndex.value < s.live.queue.pending[i].sequence)
            && s.live.lastSeenMax.Some?
            && s.ledger.previous.value.windowIndex.value <= s.live.lastSeenMax.value)
  }

  lemma HeadIsNext(s: System, naming: Naming)
    requires FirstInFirstOut(s) && Faithful(s.live, s.history, naming)
    ensures Increasing(s.live.queue.pending)
    ensures forall i :: 0 <= i < |s.live.queue.pending| ==>
              s.live.lastSeenMax.Some? && 0 <= s.live.queue.pending[i].sequence <= s.live.lastSeenMax.value
  {
    IncreasingSuffix(Segments(s.history.attempted), s.live.queue.pending);
    var done, pending := Segments(s.history.attempted), s.live.queue.pending;
    forall i | 0 <= i < |pending|
      ensures s.live.lastSeenMax.Some? && 0 <= pending[i].sequence <= s.live.lastSeenMax.value
    {
      assert pending[i] == s.history.everQueued[|done| + i];
    }
  }

  lemma IncreasingSuffix(a: seq<Segment>, b: seq<Segment>)
    requires Increasing(a + b)
    ensures Increasing(b)
  {
    forall i, j | 0 <= i < j < |b|
      ensures b[i].sequence < b[j].sequence
    {
      assert b[i] == (a + b)[|a| + i] && b[j] == (a + b)[|a| + j];
    }
  }

  lemma DeliveredOfAppend(attempted: seq<Attempted>, last: Attempted)
    ensures DeliveredOnly(attempted + [last])
            == DeliveredOnly(attempted) + if last.fate == Delivered then [last.segment] else []
  {
    assert (attempted + [last])[..|attempted|] == attempted;
  }

  lemma NewBeyondLast(live: Live, h: History, snapshot: Snapshot, naming: Naming)
    requires Faithful(live, h, naming) && Compliant(h.merged + [snapshot], naming)
    ensures var unseen := NewSegments(live, snapshot);
            forall i :: 0 <= i < |unseen| && live.lastSeenMax.Some? ==> unseen[i].sequence > live.lastSeenMax.value
  {
    FloorIsBelow(h, snapshot, naming);
    MergeQueuesSuffix(live, h, snapshot, naming);
    var d := SeenPart(snapshot.segments, live.lastSeenMax);
    assert forall i :: 0 <= i < |snapshot.segments[d..]| ==> snapshot.segments[d..][i] == snapshot.segments[d + i];
  }

  // An iteration merges a snapshot, takes the head off the queue, or leaves both alone.
  lemma StepShape(settings: Settings, s: System, tick: Tick)
    requires s.end.None?
    ensures var s' := Step(settings, s, tick);
            if Iterate(settings, s.live, tick.env).1.Continue? then
              && tick.env.playlist.MediaPlaylist?
              && s'.live == Refresh(settings, s.live, tick.env.playlist.snapshot)
              && s'.history == Merge(s.history, s.live, tick.env.playlist.snapshot)
            else
              && s'.history.merged == s.history.merged
              && s'.history.everQueued == s.history.everQueued
              && s'.history.gaps == s.history.gaps
              && (s'.live == s.live || (s.live.queue.pending != [] && s'.live == Consume(s.live)))
  {
  }

  lemma FaithfulDependsOn(live: Live, h: History, h': History, naming: Naming)
    requires Faithful(live, h, naming)
    requires h'.merged == h.merged && h'.everQueued == h.everQueued && h'.gaps == h.gaps
    ensures Faithful(live, h', naming)
  {
  }

  lemma StepStaysFaithful(settings: Settings, s: System, tick: Tick, naming: Naming)
    requires s.end.None? && QueueInvariant(s.live.queue) && Faithful(s.live, s.history, naming)
    requires Compliant(Step(settings, s, tick).history.merged, naming)
    ensures Faithful(Step(settings, s, tick).live, Step(settings, s, tick).history, naming)
  {
    StepShape(settings, s, tick);
    var s' := Step(settings, s, tick);
    if Iterate(settings, s.live, tick.env).1.Continue? {
      MergeStaysFaithful(settings, s.live, s.history, tick.env.playlist.snapshot, naming);
    } else if s'.live == s.live {
      FaithfulDependsOn(s.live, s.history, s'.history, naming);
    } else {
      ConsumeStaysFaithful(s.live, s.history, naming, Lost);
      var h := s.history.(attempted := s.history.attempted + [Attempted(s.live.queue.pending[0], Lost)]);
      FaithfulDependsOn(s'.live, h, s'.history, naming);
    }
  }

  lemma LossDelivers(settings: Settings, s: System, tick: Tick)
    requires s.end.None? && Delivers(settings, s)
    requires Iterate(settings, s.live, tick.env).1.Raised? && s.live.queue.pending != []
    ensures Delivers(settings, Step(settings, s, tick))
  {
    DeliveredOfAppend(s.history.attempted, Attempted(s.live.queue.pending[0], Lost));
  }

  lemma LossKeepsBehind(settings: Settings, s: System, tick: Tick)
    requires s.end.None? && FacadeBehind(settings, s)
    requires Iterate(settings, s.live, tick.env).1.Raised? && s.live.queue.pending != []
    ensures FacadeBehind(settings, Step(settings, s, tick))
  {
    var pending := s.live.queue.pending;
    assert forall i :: 0 <= i < |pending[1..]| ==> pending[1..][i] == pending[i + 1];
  }

  // The slice of the head is never taken for a replay or for out of order.
  lemma HeadIsAccepted(settings: Settings, s: System, tick: Tick)
    requires s.end.None? && FacadeBehind(settings, s) && s.live.queue.pending != []
    requires Iterate(settings, s.live, tick.env).1.Produced?
    ensures var slice := Iterate(settings, s.live, tick.env).1.slice;
            && SliceOf(settings, slice, s.live.queue.pending[0])
            && Judge(s.ledger.previous, s.ledger.seen, slice) == Accepted(Identity(slice).value)
  {
  }

  lemma DeliveryYields(settings: Settings, s: System, tick: Tick)
    requires s.end.None? && Delivers(settings, s) && FacadeBehind(settings, s) && s.live.queue.pending != []
    requires Iterate(settings, s.live, tick.env).1.Produced?
    ensures Delivers(settings, Step(settings, s, tick))
  {
    HeadIsAccepted(settings, s, tick);
    DeliveredOfAppend(s.history.attempted, Attempted(s.live.queue.pending[0], Delivered));
  }

  lemma DeliveryAdvances(settings: Settings, s: System, tick: Tick)
    requires s.end.None? && FacadeBehind(settings, s)
    requires Increasing(s.live.queue.pending) && s.live.queue.pending != []
    requires s.live.lastSeenMax.Some? && s.live.queue.pending[0].sequence <= s.live.lastSeenMax.value
    requires Iterate(settings, s.live, tick.env).1.Produced?
    ensures FacadeBehind(settings, Step(settings, s, tick))
  {
    HeadIsAccepted(settings, s, tick);
    var pending := s.live.queue.pending;
    assert forall i :: 0 <= i < |pending[1..]| ==> pending[1..][i] == pending[i + 1];
  }

  // An attempt at the head keeps the facade behind the queue and its yields in step.
  lemma AttemptDelivers(settings: Settings, s: System, tick: Tick)
    requires s.end.None? && Delivers(settings, s) && FacadeBehind(settings, s)
    requires Increasing(s.live.queue.pending)
    requires forall i :: 0 <= i < |s.live.queue.pending| ==>
               s.live.lastSeenMax.Some? && s.live.queue.pending[i].sequence <= s.live.lastSeenMax.value
    requires !Iterate(settings, s.live, tick.env).1.Continue?
    ensures Delivers(settings, Step(settings, s, tick)) && FacadeBehind(settings, Step(settings, s, tick))
  {
    var outcome := Iterate(settings, s.live, tick.env).1;
    if outcome.Produced? {
      DeliveryYields(settings, s, tick);
      DeliveryAdvances(settings, s, tick);
    } else if outcome.Raised? && s.live.queue.pending != [] {
      LossDelivers(settings, s, tick);
      LossKeepsBehind(settings, s, tick);
    }
  }

  // A merge keeps every attempt and yield, and the facade.
  lemma MergeShape(settings: Settings, s: System, tick: Tick)
    requires s.end.None? && Iterate(settings, s.live, tick.env).1.Continue?
    ensures var s', snapshot := Step(settings, s, tick), tick.env.playlist.snapshot;
            && s'.end.None? && s'.ledger == s.ledger
            && s'.history.attempted == s.history.attempted && s'.history.yielded == s.history.yielded
            && s'.live.queue.pending == NewSegments(s.live, snapshot)
            && s'.live.lastSeenMax == LastSeen(s.live, snapshot)
  {
    var snapshot := tick.env.playlist.snapshot;
    EnqueueAllAppends(Pruned(s.live.queue, snapshot), snapshot.segments);
    assert s.live.queue.pending == [];
  }

  lemma NewLeaveFacadeBehind(settings: Settings, s: System, s': System, snapshot: Snapshot)
    requires s.end.None? && s'.end.None? && FacadeBehind(settings, s) && s'.ledger == s.ledger
    requires s'.live.lastSeenMax == LastSeen(s.live, snapshot)
    requires forall i :: 0 <= i < |s'.live.queue.pending| && s.live.lastSeenMax.Some? ==>
               s'.live.queue.pending[i].sequence > s.live.lastSeenMax.value
    ensures FacadeBehind(settings, s')
  {
  }

  lemma MergeDelivers(settings: Settings, s: System, tick: Tick)
    requires s.end.None? && Delivers(settings, s) && FacadeBehind(settings, s)
    requires Iterate(settings, s.live, tick.env).1.Continue?
    requires var unseen := NewSegments(s.live, tick.env.playlist.snapshot);
             forall i :: 0 <= i < |unseen| && s.live.lastSeenMax.Some? ==>
               unseen[i].sequence > s.live.lastSeenMax.value
    ensures Delivers(settings, Step(settings, s, tick)) && FacadeBehind(settings, Step(settings, s, tick))
  {
    MergeShape(settings, s, tick);
    NewLeaveFacadeBehind(settings, s, Step(settings, s, tick), tick.env.playlist.snapshot);
  }

  lemma StepDelivers(settings: Settings, s: System, tick: Tick, naming: Naming)
    requires s.end.None? && Accounted(s) && Faithful(s.live, s.history, naming)
    requires Delivers(settings, s) && FacadeBehind(settings, s)
    requires Compliant(Step(settings, s, tick).history.merged, naming)
    ensures Delivers(settings, Step(settings, s, tick)) && FacadeBehind(settings, Step(settings, s, tick))
  {
    if Iterate(settings, s.live, tick.env).1.Continue? {
      NewBeyondLast(s.live, s.history, tick.env.playlist.snapshot, naming);
      MergeDelivers(settings, s, tick);
    } else {
      HeadIsNext(s, naming);
      AttemptDelivers(settings, s, tick);
    }
  }

  lemma {:induction false} RunDelivers(settings: Settings, s: System, ticks: seq<Tick>, naming: Naming)
    requires Accounted(s) && Faithful(s.live, s.history, naming)
    requires Delivers(settings, s) && FacadeBehind(settings, s)
    requires Compliant(Run(settings, s, ticks).history.merged, naming)
    ensures var s' := Run(settings, s, ticks);
            Accounted(s') && Faithful(s'.live, s'.history, naming) && Delivers(settings, s')
    decreases |ticks|
  {
    if ticks != [] {
      var next := Step(settings, s, ticks[0]);
      if s.end.None? {
        MergedGrows(settings, next, ticks[1..]);
        CompliantPrefix(next.history.merged, Run(settings, next, ticks[1..]).history.merged, naming);
        StepKeepsAccount(settings, s, ticks[0]);
        StepStaysFaithful(settings, s, ticks[0], naming);
        StepDelivers(settings, s, ticks[0], naming);
      }
      RunDelivers(settings, next, ticks[1..], naming);
    }
  }

  lemma ConnectedIsFaithful(settings: Settings, snapshot: Snapshot, naming: Naming)
    requires Compliant([snapshot], naming)
    ensures var s := Connected(settings, snapshot, EMPTY_LOG, true);
            && Accounted(s) && Faithful(s.live, s.history, naming)
            && Delivers(settings, s) && FacadeBehind(settings, s)
  {
    ConnectedIsAccounted(settings, snapshot, EMPTY_LOG, true);
    var none := History([], [], [], [], [], []);
    assert [] + [snapshot] == [snapshot];
    MergeStaysFaithful(settings, InitialLive(settings), none, snapshot, naming);
  }

  /**
   Exactly once, in order.  Against a compliant server and with an empty log, after any run:
   the sequence numbers ever visible are exactly those ever queued, each once and in increasing
   order although the replay cache is pruned; what was queued is what was attempted, in the same
   order, followed by what is pending; each attempt was either yielded once or lost to one
   temporary failure; and every number from the first one queued up to the highest one seen is
   either queued or lies in exactly one reported gap.
   */
  lemma ExactlyOnceInOrder(settings: Settings, snapshot: Snapshot, ticks: seq<Tick>, naming: Naming)
    requires Compliant(Run(settings, Connected(settings, snapshot, EMPTY_LOG, true), ticks).history.merged, naming)
    ensures var s := Run(settings, Connected(settings, snapshot, EMPTY_LOG, true), ticks);
            && Increasing(s.history.everQueued)
            && (forall n :: Visible(s.history.merged, n) <==> Has(s.history.everQueued, n))
            && s.history.everQueued == Segments(s.history.attempted) + s.live.queue.pending
            && Delivers(settings, s)
            && (s.history.everQueued != [] ==>
                  && s.live.lastSeenMax.Some?
                  && forall n :: s.history.everQueued[0].sequence <= n <= s.live.lastSeenMax.value ==>
                       GapCount(s.history.gaps, n) == if Has(s.history.everQueued, n) then 0 else 1)
  {
    var s0 := Connected(settings, snapshot, EMPTY_LOG, true);
    MergedGrows(settings, s0, ticks);
    CompliantPrefix(s0.history.merged, Run(settings, s0, ticks).history.merged, naming);
    assert s0.history.merged == [snapshot];
    ConnectedIsFaithful(settings, snapshot, naming);
    RunDelivers(settings, s0, ticks, naming);
  }

  /**
   A run that drains its queue, by ENDLIST or by idling, has attempted every segment ever visible,
   and has yielded all of them but those lost to a temporary failure.
   */
  lemma DrainedRunDeliversAll(settings: Settings, snapshot: Snapshot, ticks: seq<Tick>, naming: Naming)
    requires Compliant(Run(settings, Connected(settings, snapshot, EMPTY_LOG, true), ticks).history.merged, naming)
    requires Run(settings, Connected(settings, snapshot, EMPTY_LOG, true), ticks).end
             in {Some(Drained(EndlistReached)), Some(Drained(IdlePollBudgetExhausted))}
    ensures var h := Run(settings, Connected(settings, snapshot, EMPTY_LOG, true), ticks).history;
            && (forall n :: Visible(h.merged, n) <==> Has(Segments(h.attempted), n))
            && Increasing(Segments(h.attempted))
            && |h.yielded| == |DeliveredOnly(h.attempted)|
            && (forall i :: 0 <= i < |h.yielded| ==>
                  SliceOf(settings, h.yielded[i], DeliveredOnly(h.attempted)[i]))
  {
    ExactlyOnceInOrder(settings, snapshot, ticks, naming);
    ConnectedCountsIdle(settings, snapshot, EMPTY_LOG, true);
    StopsAreEarned(settings, Connected(settings, snapshot, EMPTY_LOG, true), ticks);
    var s := Run(settings, Connected(settings, snapshot, EMPTY_LOG, true), ticks);
    assert s.history.everQueued == Segments(s.history.attempted);
  }
}
