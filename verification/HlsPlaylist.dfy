/**
 Interpreting playlist text: the kind of a playlist, the variants of a master playlist and
 the segments of a media playlist, with the loops of the source proved against folds over lines.
 */
module HlsPlaylist {
  import opened Prelude
  import opened Decimal
  import opened StreamContracts

  // How a line is resolved against the playlist's address, and the file name of a URI.
  datatype UriRules = UriRules(join: (string, string) -> string, fileName: string -> string)

  predicate Contains(text: string, word: string) {
    word <= text || (text != [] && Contains(text[1..], word))
  }

  datatype PlaylistKind = Master | Media | Unknown

  function DetectKind(text: string): PlaylistKind {
    if !Contains(text, HEADER) then Unknown
    else if Contains(text, STREAM_INF) then Master
    else if Contains(text, EXTINF_WORD) || Contains(text, TARGET_WORD) then Media
    else Unknown
  }

  const HEADER := "#EXTM3U"
  const STREAM_INF := "#EXT-X-STREAM-INF"
  const EXTINF_WORD := "#EXTINF"
  const TARGET_WORD := "#EXT-X-TARGETDURATION"
  const MEDIA_SEQUENCE := "#EXT-X-MEDIA-SEQUENCE:"
  const TARGET_DURATION := "#EXT-X-TARGETDURATION:"
  const EXTINF := "#EXTINF:"
  const ENDLIST := "#EXT-X-ENDLIST"

  predicate IsLineBreak(c: char) {
    c == '\n' || c == '\r'
  }

  // The length of the first line of a text.
  function LineLength(text: string): (n: nat)
    ensures n <= |text|
    ensures forall i :: 0 <= i < n ==> !IsLineBreak(text[i])
    ensures n < |text| ==> IsLineBreak(text[n])
  {
    if text == [] || IsLineBreak(text[0]) then 0 else LineLength(text[1..]) + 1
  }

  function SplitLines(text: string): seq<string>
    decreases |text|
  {
    if text == [] then []
    else
      var n := LineLength(text);
      [text[..n]] + if n < |text| then SplitLines(text[n + 1..]) else []
  }

  function BeforeComma(text: string): string {
    if text == [] || text[0] == ',' then [] else [text[0]] + BeforeComma(text[1..])
  }

  // ---- Media playlists -------------------------------------------------------------

  datatype MediaState = MediaState(
    mediaSequence: int,
    targetDuration: Option<real>,
    currentDuration: Option<real>,
    nextOffset: nat,
    isEndlist: bool,
    segments: seq<Segment>)

  const MEDIA_START := MediaState(0, None, None, 0, false, [])

  function DurationOf(value: string): Option<real> {
    if value == "" then Some(0.0) else ParseDecimal(value)
  }

  function AddSegment(rules: UriRules, base: string, st: MediaState, line: string): MediaState {
    var duration := if st.currentDuration.Some? then st.currentDuration.value else 1.0;
    var uri := rules.join(base, line);
    st.(
      segments := st.segments
                  + [Segment(st.mediaSequence + st.nextOffset, uri, rules.fileName(uri), RealMax(duration, 0.1))],
      nextOffset := st.nextOffset + 1,
      currentDuration := None)
  }

  // What one line of a media playlist says; a value is missing when it cannot be read.
  datatype Tag =
    | Nothing
    | SequenceTag(value: Option<int>)
    | TargetTag(seconds: Option<real>)
    | DurationTag(seconds: Option<real>)
    | EndTag
    | UriLine(line: string)

  function ReadLine(rawLine: string): Tag {
    var line := Strip(rawLine);
    if line == "" then Nothing
    else if MEDIA_SEQUENCE <= line then
      var value := Strip(line[|MEDIA_SEQUENCE|..]);
      SequenceTag(if value == "" then Some(0) else ParseInt(value))
    else if TARGET_DURATION <= line then
      TargetTag(DurationOf(Strip(line[|TARGET_DURATION|..])))
    else if EXTINF <= line then
      DurationTag(DurationOf(Strip(BeforeComma(line[|EXTINF|..]))))
    else if line == ENDLIST then EndTag
    else if "#" <= line then Nothing
    else UriLine(line)
  }

  // A document read line by line.
  function ReadLines(read: string -> Tag, lines: seq<string>): (tags: seq<Tag>)
    ensures |tags| == |lines|
  {
    if lines == [] then [] else [read(lines[0])] + ReadLines(read, lines[1..])
  }

  // One tag of a media playlist; no state means a value error.
  function FeedTag(rules: UriRules, base: string, st: MediaState, tag: Tag): Option<MediaState> {
    match tag
    case Nothing => Some(st)
    case SequenceTag(value) =>
      if value.None? then None else Some(st.(mediaSequence := value.value, nextOffset := 0))
    case TargetTag(seconds) =>
      if seconds.None? then None else Some(st.(targetDuration := seconds))
    case DurationTag(seconds) =>
      if seconds.None? then None else Some(st.(currentDuration := seconds))
    case EndTag => Some(st.(isEndlist := true))
    case UriLine(line) => Some(AddSegment(rules, base, st, line))
  }

  function FeedTags(rules: UriRules, base: string, st: MediaState, tags: seq<Tag>): Option<MediaState>
    decreases |tags|
  {
    if tags == [] then Some(st)
    else
      var next := FeedTag(rules, base, st, tags[0]);
      if next.None? then None else FeedTags(rules, base, next.value, tags[1..])
  }

  function MediaSnapshot(st: MediaState): Snapshot {
    Snapshot(
      st.segments,
      st.isEndlist,
      if st.targetDuration.Some? && st.targetDuration.value > 0.0 then st.targetDuration else None)
  }

  // What a media playlist means; no snapshot means a value error.
  function MediaMeaning(rules: UriRules, text: string, base: string): Option<Snapshot> {
    if !Contains(text, HEADER) then None
    else
      var st := FeedLines(rules, base, MEDIA_START, SplitLines(text));
      if st.None? then None else Some(MediaSnapshot(st.value))
  }

  // What the lines from some place on make of a state.
  function FeedLines(rules: UriRules, base: string, st: MediaState, lines: seq<string>): Option<MediaState> {
    FeedTags(rules, base, st, ReadLines(ReadLine, lines))
  }

  lemma FirstLine(rules: UriRules, base: string, st: MediaState, lines: seq<string>, i: nat)
    requires i < |lines|
    ensures FeedLines(rules, base, st, lines[i..])
            == var next := FeedTag(rules, base, st, ReadLine(lines[i]));
               if next.None? then None else FeedLines(rules, base, next.value, lines[i + 1..])
  {
    assert lines[i..][1..] == lines[i + 1..];
  }

  method ParseMediaPlaylist(rules: UriRules, text: string, base: string) returns (snapshot: Option<Snapshot>)
    ensures snapshot == MediaMeaning(rules, text, base)
  {
    if !Contains(text, HEADER) {
      return None;
    }
    var lines := SplitLines(text);
    var mediaSequence: int := 0;
    var targetDuration: Option<real> := None;
    var currentDuration: Option<real> := None;
    var nextOffset: nat := 0;
    var isEndlist := false;
    var segments: seq<Segment> := [];
    var i := 0;
    while i < |lines|
      invariant 0 <= i <= |lines|
      invariant FeedLines(rules, base, MEDIA_START, lines)
                == FeedLines(rules, base,
                             MediaState(mediaSequence, targetDuration, currentDuration, nextOffset, isEndlist, segments),
                             lines[i..])
    {
      var line := Strip(lines[i]);
      FirstLine(rules, base,
                MediaState(mediaSequence, targetDuration, currentDuration, nextOffset, isEndlist, segments), lines, i);
      i := i + 1;
      if line == "" {
        continue;
      }
      if MEDIA_SEQUENCE <= line {
        var value := Strip(line[|MEDIA_SEQUENCE|..]);
        var n := if value == "" then Some(0) else ParseInt(value);
        if n.None? {
          return None;
        }
        mediaSequence := n.value;
        nextOffset := 0;
        continue;
      }
      if TARGET_DURATION <= line {
        var x := DurationOf(Strip(line[|TARGET_DURATION|..]));
        if x.None? {
          return None;
        }
        targetDuration := x;
        continue;
      }
      if EXTINF <= line {
        var x := DurationOf(Strip(BeforeComma(line[|EXTINF|..])));
        if x.None? {
          return None;
        }
        currentDuration := x;
        continue;
      }
      if line == ENDLIST {
        isEndlist := true;
        continue;
      }
      if "#" <= line {
        continue;
      }
      var duration := if currentDuration.Some? then currentDuration.value else 1.0;
      var uri := rules.join(base, line);
      segments := segments + [Segment(mediaSequence + nextOffset, uri, rules.fileName(uri), RealMax(duration, 0.1))];
      nextOffset := nextOffset + 1;
      currentDuration := None;
    }
    snapshot := Some(Snapshot(
                       segments,
                       isEndlist,
                       if targetDuration.Some? && targetDuration.value > 0.0 then targetDuration else None));
  }

  // ---- Master playlists ------------------------------------------------------------

  function FeedMaster(rules: UriRules, base: string, expectUri: bool, lines: seq<string>): seq<string>
    decreases |lines|
  {
    if lines == [] then []
    else
      var line := Strip(lines[0]);
      if line == "" then FeedMaster(rules, base, expectUri, lines[1..])
      else if STREAM_INF <= line then FeedMaster(rules, base, true, lines[1..])
      else if "#" <= line then FeedMaster(rules, base, expectUri, lines[1..])
      else if expectUri then [rules.join(base, line)] + FeedMaster(rules, base, false, lines[1..])
      else FeedMaster(rules, base, false, lines[1..])
  }

  method ParseMasterVariants(rules: UriRules, text: string, base: string) returns (variants: seq<string>)
    ensures variants == FeedMaster(rules, base, false, SplitLines(text))
  {
    variants := [];
    var expectUri := false;
    var lines := SplitLines(text);
    var i := 0;
    while i < |lines|
      invariant 0 <= i <= |lines|
      invariant FeedMaster(rules, base, false, lines) == variants + FeedMaster(rules, base, expectUri, lines[i..])
    {
      var line := Strip(lines[i]);
      assert lines[i..][0] == lines[i] && lines[i..][1..] == lines[i + 1..];
      i := i + 1;
      if line == "" {
        continue;
      }
      if STREAM_INF <= line {
        expectUri := true;
        continue;
      }
      if "#" <= line {
        continue;
      }
      if expectUri {
        variants := variants + [rules.join(base, line)];
        expectUri := false;
      }
    }
  }

  // The first variant that is not blank; none is a value error.
  function SelectVariant(variants: seq<string>): Option<string> {
    if variants == [] then None
    else if Strip(variants[0]) != "" then Some(Strip(variants[0]))
    else SelectVariant(variants[1..])
  }

  /** The variant followed is the first that is not blank. */
  lemma {:induction false} SelectsFirstUsable(variants: seq<string>, i: nat)
    requires i < |variants| && Strip(variants[i]) != ""
    requires forall j :: 0 <= j < i ==> Strip(variants[j]) == ""
    ensures SelectVariant(variants) == Some(Strip(variants[i]))
    decreases i
  {
    if i > 0 {
      SelectsFirstUsable(variants[1..], i - 1);
    }
  }

  /** Nothing is followed exactly if every variant is blank. */
  lemma {:induction false} SelectsNothingIff(variants: seq<string>)
    ensures SelectVariant(variants) == None <==> forall j :: 0 <= j < |variants| ==> Strip(variants[j]) == ""
    decreases |variants|
  {
    if variants != [] {
      SelectsNothingIff(variants[1..]);
      assert forall j :: 0 <= j < |variants| - 1 ==> variants[1..][j] == variants[j + 1];
    }
  }
}
