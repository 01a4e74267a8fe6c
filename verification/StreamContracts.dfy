/** The shared shapes of the live loader and the identity rules for its slices. */
module StreamContracts {
  import opened Prelude
  import opened Decimal
  import opened Rounding

  // A segment is identified by its media sequence number and the file name of its URI.
  type SegmentKey = (int, string)

  datatype Segment = Segment(sequence: int, uri: string, fileName: string, durationSec: real) {
    function Key(): SegmentKey {
      (sequence, fileName)
    }

    // The stretch of the stream clock the segment occupies.
    function Span(): real {
      RealMax(durationSec, 0.1)
    }
  }

  datatype Snapshot = Snapshot(segments: seq<Segment>, isEndlist: bool, targetDurationSec: Option<real>)

  datatype Slice = Slice(
    path: string,
    sourceGroup: string,
    sourceName: string,
    windowIndex: Option<int>,
    windowStartSec: real,
    windowDurationSec: real)

  type IdentityKey = (string, int, string)

  datatype FailureKind = Temporary | Retryable | Terminal

  // Exceptions that are not loader failures and leave the loop as they are.  The runner handles
  // the first two kinds; a broken HTTP exchange, say, raises one of the last.
  datatype Crash = OsError | ValueError | Unhandled

  // What a look for cancel intent in the session store answers.
  datatype Look = NoIntent | Intent | LookFailed(crash: Crash)

  predicate IsSpace(c: char) {
    c == ' ' || c == '\t' || c == '\n' || c == '\r'
  }

  function StripLeft(text: string): string {
    if text != [] && IsSpace(text[0]) then StripLeft(text[1..]) else text
  }

  function StripRight(text: string): string {
    if text != [] && IsSpace(text[|text| - 1]) then StripRight(text[..|text| - 1]) else text
  }

  function Strip(text: string): string {
    StripRight(StripLeft(text))
  }

  function SegmentName(segment: Segment): string {
    if segment.fileName != "" then segment.fileName
    else "segment-" + SixDigits(segment.sequence) + ".ts"
  }

  function TempPath(segment: Segment): string {
    SixDigits(segment.sequence) + "-" + SegmentName(segment)
  }

  function CurrentItem(item: string, chunkIndex: int): string {
    if Strip(item) != "" then Strip(item) else "live-chunk-" + SixDigits(chunkIndex)
  }

  // The slice of a materialized segment; a negative index is refused.
  function BuildSlice(source: string, segment: Segment, startSec: real): (slice: Option<Slice>)
    ensures slice.Some? <==> segment.sequence >= 0
    ensures slice.Some? ==>
              && slice.value.windowIndex == Some(segment.sequence)
              && slice.value.sourceGroup == source
              && slice.value.path == TempPath(segment)
  {
    if segment.sequence < 0 then None
    else Some(Slice(
                TempPath(segment),
                source,
                CurrentItem(SegmentName(segment), segment.sequence),
                Some(segment.sequence),
                Round3(startSec),
                Round3(segment.Span())))
  }

  /**
   The slice is named after the segment's file and stands where the segment does on the stream clock,
   to half a millisecond, and it never lasts less than a tenth of a second.
   */
  lemma SliceOfSegment(source: string, segment: Segment, startSec: real)
    requires segment.sequence >= 0
    ensures var slice := BuildSlice(source, segment, startSec).value;
            && (Strip(segment.fileName) != "" ==> slice.sourceName == Strip(segment.fileName))
            && slice.windowStartSec - 0.0005 <= startSec <= slice.windowStartSec + 0.0005
            && slice.windowDurationSec - 0.0005 <= segment.Span() <= slice.windowDurationSec + 0.0005
            && slice.windowDurationSec >= 0.1
  {
    Round3IsClose(startSec);
    Round3IsClose(segment.Span());
    Round3KeepsThreshold(segment.Span(), 0.1);
  }

  // Whether a slice may follow the last accepted one.
  predicate ValidSuccessor(previous: Option<Slice>, next: Slice) {
    previous.None? ||
    (&& next.sourceGroup == previous.value.sourceGroup
     && previous.value.windowIndex.Some?
     && next.windowIndex.Some?
     && next.windowIndex.value > previous.value.windowIndex.value)
  }

  function Identity(slice: Slice): Option<IdentityKey> {
    if slice.windowIndex.None? then None
    else Some((slice.sourceGroup, slice.windowIndex.value, slice.sourceName))
  }
}
