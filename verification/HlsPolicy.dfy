/**
 The loader's queue bookkeeping: replay-cache pruning, gap detection, queueing of
 unseen playlist segments and removal of the attempted head.  The functions say what
 each step does to a queue value; the class at the end updates the fields in place and
 is proved against them.
 */
module HlsPolicy {
  import opened Prelude
  import opened StreamContracts

  datatype Queue = Queue(
    pending: seq<Segment>,
    queued: set<SegmentKey>,
    emitted: set<SegmentKey>,
    startOffsets: map<SegmentKey, real>,
    nextWindowStart: real)

  const EMPTY_QUEUE := Queue([], {}, {}, map[], 0.0)

  function PruneEmitted(emitted: set<SegmentKey>, firstVisible: int): set<SegmentKey> {
    set key | key in emitted && key.0 >= firstVisible
  }

  function WindowAdvanceGap(lastSeenMax: Option<int>, firstVisible: int): (gap: Option<int>)
    ensures gap.Some? <==> lastSeenMax.Some? && lastSeenMax.value + 1 < firstVisible
    ensures gap.Some? ==> gap.value > 0 && lastSeenMax.value + gap.value + 1 == firstVisible
  {
    if lastSeenMax.None? then None
    else if firstVisible <= lastSeenMax.value + 1 then None
    else Some(firstVisible - lastSeenMax.value - 1)
  }

  predicate Known(q: Queue, segment: Segment) {
    segment.Key() in q.queued || segment.Key() in q.emitted
  }

  // Queue one playlist entry, or leave the queue alone when its key is already known.
  function Enqueue(q: Queue, segment: Segment): Queue {
    if Known(q, segment) then q
    else Queue(
           q.pending + [segment],
           q.queued + {segment.Key()},
           q.emitted,
           q.startOffsets[segment.Key() := q.nextWindowStart],
           q.nextWindowStart + segment.Span())
  }

  function EnqueueAll(q: Queue, segments: seq<Segment>): Queue
    decreases |segments|
  {
    if segments == [] then q else EnqueueAll(Enqueue(q, segments[0]), segments[1..])
  }

  // The entries of a playlist that queueing it appends, in playlist order.
  function Unseen(q: Queue, segments: seq<Segment>): seq<Segment>
    decreases |segments|
  {
    if segments == [] then []
    else (if Known(q, segments[0]) then [] else [segments[0]])
         + Unseen(Enqueue(q, segments[0]), segments[1..])
  }

  // Drop the attempted head from the queue.
  function Finalize(q: Queue, key: SegmentKey, markEmitted: bool): Queue
    requires q.pending != []
  {
    Queue(
      q.pending[1..],
      q.queued - {key},
      if markEmitted then q.emitted + {key} else q.emitted,
      q.startOffsets - {key},
      q.nextWindowStart)
  }

  function Keys(segments: seq<Segment>): set<SegmentKey> {
    if segments == [] then {} else {segments[0].Key()} + Keys(segments[1..])
  }

  // Pending segments follow one another on the stream clock without gap or overlap,
  // and the next segment to be queued starts where the last one ends.
  ghost predicate Tiles(pending: seq<Segment>, starts: map<SegmentKey, real>, next: real) {
    && (forall i :: 0 <= i < |pending| ==> pending[i].Key() in starts)
    && (forall i, j :: 0 <= i < |pending| && j == i + 1 && j < |pending| ==>
          starts[pending[i].Key()] + pending[i].Span() == starts[pending[j].Key()])
    && (pending != [] ==>
          starts[pending[|pending| - 1].Key()] + pending[|pending| - 1].Span() == next)
  }

  /** What every step keeps, whatever the server sends. */
  ghost predicate QueueInvariant(q: Queue) {
    && (forall i, j :: 0 <= i < j < |q.pending| ==> q.pending[i].Key() != q.pending[j].Key())
    && q.queued == Keys(q.pending)
    && q.queued !! q.emitted
    && q.startOffsets.Keys == q.queued
    && Tiles(q.pending, q.startOffsets, q.nextWindowStart)
  }

  lemma {:induction false} KeysOfAppend(segments: seq<Segment>, last: Segment)
    ensures Keys(segments + [last]) == Keys(segments) + {last.Key()}
  {
    if segments == [] {
      assert segments + [last] == [last];
    } else {
      assert (segments + [last])[1..] == segments[1..] + [last];
      KeysOfAppend(segments[1..], last);
    }
  }

  lemma {:induction false} KeysMembership(segments: seq<Segment>, key: SegmentKey)
    ensures key in Keys(segments) <==> exists i :: 0 <= i < |segments| && segments[i].Key() == key
  {
    if segments != [] {
      KeysMembership(segments[1..], key);
      if key in Keys(segments[1..]) {
        var i :| 0 <= i < |segments[1..]| && segments[1..][i].Key() == key;
        assert segments[i + 1].Key() == key;
      }
      if i :| 0 < i < |segments| && segments[i].Key() == key {
        assert segments[1..][i - 1].Key() == key;
      }
    }
  }

  lemma EnqueueKeepsInvariant(q: Queue, segment: Segment)
    requires QueueInvariant(q)
    ensures QueueInvariant(Enqueue(q, segment))
  {
    if !Known(q, segment) {
      KeysOfAppend(q.pending, segment);
      KeysMembership(q.pending, segment.Key());
    }
  }

  lemma FinalizeKeepsInvariant(q: Queue, markEmitted: bool)
    requires QueueInvariant(q) && q.pending != []
    ensures QueueInvariant(Finalize(q, q.pending[0].Key(), markEmitted))
  {
    KeysMembership(q.pending[1..], q.pending[0].Key());
  }

  lemma PruneKeepsInvariant(q: Queue, firstVisible: int)
    requires QueueInvariant(q)
    ensures QueueInvariant(q.(emitted := PruneEmitted(q.emitted, firstVisible)))
  {
  }

  lemma {:induction false} EnqueueAllKeepsInvariant(q: Queue, segments: seq<Segment>)
    requires QueueInvariant(q)
    ensures QueueInvariant(EnqueueAll(q, segments))
    decreases |segments|
  {
    if segments != [] {
      EnqueueKeepsInvariant(q, segments[0]);
      EnqueueAllKeepsInvariant(Enqueue(q, segments[0]), segments[1..]);
    }
  }

  // Queueing a playlist appends exactly its unseen entries and touches nothing emitted.
  lemma {:induction false} EnqueueAllAppends(q: Queue, segments: seq<Segment>)
    ensures EnqueueAll(q, segments).pending == q.pending + Unseen(q, segments)
    ensures EnqueueAll(q, segments).emitted == q.emitted
    ensures |Unseen(q, segments)| <= |segments|
    decreases |segments|
  {
    if segments != [] {
      EnqueueAllAppends(Enqueue(q, segments[0]), segments[1..]);
    }
  }

  /** The queue fields of the loader's runtime state, updated in place. */
  class SegmentQueue {
    var pendingSegments: seq<Segment>
    var queuedSegmentKeys: set<SegmentKey>
    var emittedSegmentKeys: set<SegmentKey>
    var segmentStartOffsets: map<SegmentKey, real>
    var nextWindowStartSec: real

    ghost function Contents(): Queue
      reads this
    {
      Queue(pendingSegments, queuedSegmentKeys, emittedSegmentKeys, segmentStartOffsets, nextWindowStartSec)
    }

    constructor ()
      ensures Contents() == EMPTY_QUEUE
    {
      pendingSegments, queuedSegmentKeys, emittedSegmentKeys := [], {}, {};
      segmentStartOffsets, nextWindowStartSec := map[], 0.0;
    }

    method Reset()
      modifies this
      ensures Contents() == EMPTY_QUEUE
    {
      pendingSegments, queuedSegmentKeys, emittedSegmentKeys := [], {}, {};
      segmentStartOffsets, nextWindowStartSec := map[], 0.0;
    }

    method PruneEmittedKeys(firstVisible: int)
      modifies this
      ensures Contents() == old(Contents()).(emitted := PruneEmitted(old(emittedSegmentKeys), firstVisible))
    {
      emittedSegmentKeys := set key | key in emittedSegmentKeys && key.0 >= firstVisible;
    }

    method QueueUnseenSegments(segments: seq<Segment>) returns (newCount: nat, replayCount: nat)
      modifies this
      ensures Contents() == EnqueueAll(old(Contents()), segments)
      ensures newCount == |Unseen(old(Contents()), segments)|
      ensures replayCount == |segments| - newCount
      ensures pendingSegments == old(pendingSegments) + Unseen(old(Contents()), segments)
    {
      newCount, replayCount := 0, 0;
      EnqueueAllAppends(Contents(), segments);
      var i := 0;
      while i < |segments|
        invariant 0 <= i <= |segments|
        invariant EnqueueAll(Contents(), segments[i..]) == EnqueueAll(old(Contents()), segments)
        invariant |Unseen(old(Contents()), segments)| == newCount + |Unseen(Contents(), segments[i..])|
        invariant newCount + replayCount == i
      {
        var segment := segments[i];
        assert segments[i..][0] == segment && segments[i..][1..] == segments[i + 1..];
        i := i + 1;
        var key := segment.Key();
        if key in queuedSegmentKeys || key in emittedSegmentKeys {
          replayCount := replayCount + 1;
          continue;
        }
        segmentStartOffsets := segmentStartOffsets[key := nextWindowStartSec];
        nextWindowStartSec := nextWindowStartSec + RealMax(segment.durationSec, 0.1);
        pendingSegments := pendingSegments + [segment];
        queuedSegmentKeys := queuedSegmentKeys + {key};
        newCount := newCount + 1;
      }
    }

    method FinalizePending(key: SegmentKey, markEmitted: bool)
      requires pendingSegments != []
      modifies this
      ensures Contents() == Finalize(old(Contents()), key, markEmitted)
    {
      pendingSegments := pendingSegments[1..];
      queuedSegmentKeys := queuedSegmentKeys - {key};
      if markEmitted {
        emittedSegmentKeys := emittedSegmentKeys + {key};
      }
      segmentStartOffsets := segmentStartOffsets - {key};
    }
  }
}
