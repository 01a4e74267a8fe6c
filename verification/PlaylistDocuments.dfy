/**
 Playlists as documents: what a server writes is what the parser reads, for media and for master
 playlists, and lines that mean nothing change nothing.
 */
module PlaylistDocuments {
  import opened Prelude
  import opened Decimal
  import opened StreamContracts
  import opened HlsPlaylist

  // ---- Lines and text ------------------------------------------------------------------

  predicate OneLine(line: string) {
    forall i :: 0 <= i < |line| ==> !IsLineBreak(line[i])
  }

  function JoinLines(lines: seq<string>): string {
    if lines == [] then [] else lines[0] + "\n" + JoinLines(lines[1..])
  }

  lemma LineLengthOf(line: string, rest: string)
    requires OneLine(line)
    ensures LineLength(line + "\n" + rest) == |line|
  {
    var text := line + "\n" + rest;
    assert text[|line|] == '\n';
    assert forall i :: 0 <= i < |line| ==> text[i] == line[i];
  }

  lemma SplitFirst(line: string, rest: string)
    requires OneLine(line)
    ensures SplitLines(line + "\n" + rest) == [line] + SplitLines(rest)
  {
    var text := line + "\n" + rest;
    LineLengthOf(line, rest);
    assert text[..|line|] == line && text[|line| + 1..] == rest;
  }

  ghost predicate AllOneLine(lines: seq<string>) {
    forall i :: 0 <= i < |lines| ==> OneLine(lines[i])
  }

  lemma AllOneLineConcat(a: seq<string>, b: seq<string>)
    requires AllOneLine(a) && AllOneLine(b)
    ensures AllOneLine(a + b)
  {
  }

  lemma PartsAreLines(a: seq<string>, b: seq<string>)
    requires AllOneLine(a + b)
    ensures AllOneLine(a) && AllOneLine(b)
  {
    forall i | 0 <= i < |a| ensures OneLine(a[i]) {
      assert (a + b)[i] == a[i];
    }
    forall i | 0 <= i < |b| ensures OneLine(b[i]) {
      assert (a + b)[|a| + i] == b[i];
    }
  }

  lemma {:induction false} SplitJoin(lines: seq<string>)
    requires AllOneLine(lines)
    ensures SplitLines(JoinLines(lines)) == lines
    decreases |lines|
  {
    if lines != [] {
      var rest := JoinLines(lines[1..]);
      SplitJoin(lines[1..]);
      SplitFirst(lines[0], rest);
      assert lines == [lines[0]] + lines[1..];
    }
  }

  lemma {:induction false} JoinConcat(a: seq<string>, b: seq<string>)
    ensures JoinLines(a + b) == JoinLines(a) + JoinLines(b)
    ensures a != [] ==> JoinLines(a) != "" && JoinLines(a)[|JoinLines(a)| - 1] == '\n'
  {
    if a == [] {
      assert a + b == b;
    } else {
      assert (a + b)[1..] == a[1..] + b;
      JoinConcat(a[1..], b);
    }
  }

  // ---- Master playlists ------------------------------------------------------------------

  // Announces no variant.
  predicate Unannounced(line: string) {
    !(STREAM_INF <= Strip(line))
  }

  // Blank or a comment or tag: it leaves an announced variant waiting for its address.
  predicate Passed(line: string) {
    Strip(line) == "" || "#" <= Strip(line)
  }

  // A variant: lines that announce none, its stream-info line, and its address after lines passed over.
  datatype Variant = Variant(before: seq<string>, info: string, between: seq<string>, address: string) {
    function Lines(): seq<string> {
      before + [info] + between + [address]
    }

    predicate WellWritten() {
      && (forall i :: 0 <= i < |before| ==> Unannounced(before[i]))
      && STREAM_INF <= Strip(info)
      && (forall i :: 0 <= i < |between| ==> Passed(between[i]))
      && !Passed(address)
    }
  }

  function VariantLines(variants: seq<Variant>): seq<string> {
    if variants == [] then [] else variants[0].Lines() + VariantLines(variants[1..])
  }

  function JoinedVariants(rules: UriRules, base: string, variants: seq<Variant>): (addresses: seq<string>)
    ensures |addresses| == |variants|
    ensures forall i :: 0 <= i < |variants| ==> addresses[i] == rules.join(base, Strip(variants[i].address))
  {
    seq(|variants|, i requires 0 <= i < |variants| => rules.join(base, Strip(variants[i].address)))
  }

  lemma {:induction false} SkipUnannounced(rules: UriRules, base: string, lines: seq<string>, rest: seq<string>)
    requires forall i :: 0 <= i < |lines| ==> Unannounced(lines[i])
    ensures FeedMaster(rules, base, false, lines + rest) == FeedMaster(rules, base, false, rest)
    decreases |lines|
  {
    if lines == [] {
      assert lines + rest == rest;
    } else {
      assert (lines + rest)[1..] == lines[1..] + rest;
      SkipUnannounced(rules, base, lines[1..], rest);
    }
  }

  lemma {:induction false} SkipPassed(rules: UriRules, base: string, lines: seq<string>, rest: seq<string>)
    requires forall i :: 0 <= i < |lines| ==> Passed(lines[i])
    ensures FeedMaster(rules, base, true, lines + rest) == FeedMaster(rules, base, true, rest)
    decreases |lines|
  {
    if lines == [] {
      assert lines + rest == rest;
    } else {
      assert (lines + rest)[1..] == lines[1..] + rest;
      SkipPassed(rules, base, lines[1..], rest);
    }
  }

  lemma ReadInfo(rules: UriRules, base: string, info: string, rest: seq<string>)
    requires STREAM_INF <= Strip(info)
    ensures FeedMaster(rules, base, false, [info] + rest) == FeedMaster(rules, base, true, rest)
  {
    assert Strip(info) != "" && ([info] + rest)[1..] == rest;
  }

  lemma ReadAddress(rules: UriRules, base: string, address: string, rest: seq<string>)
    requires !Passed(address)
    ensures FeedMaster(rules, base, true, [address] + rest)
            == [rules.join(base, Strip(address))] + FeedMaster(rules, base, false, rest)
  {
    assert ([address] + rest)[1..] == rest;
    assert STREAM_INF[0] == '#' && Strip(address)[0] != '#';
  }

  lemma ReadVariant(rules: UriRules, base: string, variant: Variant, rest: seq<string>)
    requires variant.WellWritten()
    ensures FeedMaster(rules, base, false, variant.Lines() + rest)
            == [rules.join(base, Strip(variant.address))] + FeedMaster(rules, base, false, rest)
  {
    var (before, info, between, address) := (variant.before, variant.info, variant.between, variant.address);
    assert variant.Lines() + rest == before + ([info] + (between + ([address] + rest)));
    SkipUnannounced(rules, base, before, [info] + (between + ([address] + rest)));
    ReadInfo(rules, base, info, between + ([address] + rest));
    SkipPassed(rules, base, between, [address] + rest);
    ReadAddress(rules, base, address, rest);
  }

  lemma JoinedFirst(rules: UriRules, base: string, variants: seq<Variant>)
    requires variants != []
    ensures JoinedVariants(rules, base, variants)
            == [rules.join(base, Strip(variants[0].address))] + JoinedVariants(rules, base, variants[1..])
  {
  }

  lemma NoMoreVariants(rules: UriRules, base: string, after: seq<string>)
    requires forall i :: 0 <= i < |after| ==> Unannounced(after[i])
    ensures FeedMaster(rules, base, false, after) == []
  {
    SkipUnannounced(rules, base, after, []);
    assert after + [] == after;
  }

  lemma {:induction false} ReadVariants(rules: UriRules, base: string, variants: seq<Variant>, after: seq<string>)
    requires forall i :: 0 <= i < |variants| ==> variants[i].WellWritten()
    requires FeedMaster(rules, base, false, after) == []
    ensures FeedMaster(rules, base, false, VariantLines(variants) + after) == JoinedVariants(rules, base, variants)
    decreases |variants|
  {
    if variants == [] {
      assert VariantLines(variants) + after == after;
    } else {
      var rest := VariantLines(variants[1..]) + after;
      ReadVariants(rules, base, variants[1..], after);
      ReadVariant(rules, base, variants[0], rest);
      JoinedFirst(rules, base, variants);
      assert VariantLines(variants) + after == variants[0].Lines() + rest;
    }
  }

  /**
   The variants of a master playlist's text are the addresses its stream-info lines announce, in
   order, whatever blank lines, comments and stray addresses stand around them.
   */
  lemma MasterRoundTrip(rules: UriRules, base: string, variants: seq<Variant>, after: seq<string>)
    requires forall i :: 0 <= i < |variants| ==> variants[i].WellWritten()
    requires forall i :: 0 <= i < |after| ==> Unannounced(after[i])
    requires AllOneLine(VariantLines(variants) + after)
    ensures FeedMaster(rules, base, false, SplitLines(JoinLines(VariantLines(variants) + after)))
            == JoinedVariants(rules, base, variants)
  {
    SplitJoin(VariantLines(variants) + after);
    NoMoreVariants(rules, base, after);
    ReadVariants(rules, base, variants, after);
  }

  // ---- Writing a media playlist and reading it back ------------------------------------

  // A segment as a server announces it: a decimal duration, whatever title, and an address.
  datatype Entry = Entry(line: string, whole: DigitText, fraction: DigitText, title: string) {
    function Seconds(): real {
      DecimalValue(whole, fraction)
    }
  }

  // A media playlist as a server means it.
  datatype MediaDocument = MediaDocument(
    mediaSequence: nat,
    targetSec: Option<nat>,
    entries: seq<Entry>,
    ended: bool)

  predicate Trimmed(line: string) {
    line != "" && !IsSpace(line[0]) && !IsSpace(line[|line| - 1])
  }

  predicate WellWrittenEntry(entry: Entry) {
    && entry.whole != "" && OneLine(entry.title)
    && OneLine(entry.line) && Trimmed(entry.line) && entry.line[0] != '#'
  }

  predicate WellWritten(d: MediaDocument) {
    forall i :: 0 <= i < |d.entries| ==> WellWrittenEntry(d.entries[i])
  }

  function DurationLine(entry: Entry): string {
    EXTINF + DecimalText(entry.whole, entry.fraction) + "," + entry.title
  }

  function EntryLines(entries: seq<Entry>): seq<string> {
    if entries == [] then [] else [DurationLine(entries[0]), entries[0].line] + EntryLines(entries[1..])
  }

  function SequenceLine(n: nat): string {
    MEDIA_SEQUENCE + NatText(n)
  }

  function TargetLine(seconds: nat): string {
    TARGET_DURATION + NatText(seconds)
  }

  function TargetLines(targetSec: Option<nat>): seq<string> {
    if targetSec.None? then [] else [TargetLine(targetSec.value)]
  }

  function DocumentLines(d: MediaDocument): seq<string> {
    [HEADER] + TargetLines(d.targetSec) + [SequenceLine(d.mediaSequence)]
    + EntryLines(d.entries) + EndLines(d.ended)
  }

  function EntrySegment(rules: UriRules, base: string, entry: Entry, sequence: int): Segment {
    var uri := rules.join(base, entry.line);
    Segment(sequence, uri, rules.fileName(uri), RealMax(entry.Seconds(), 0.1))
  }

  function EntrySegments(rules: UriRules, base: string, entries: seq<Entry>, sequence: int): seq<Segment> {
    if entries == [] then []
    else [EntrySegment(rules, base, entries[0], sequence)] + EntrySegments(rules, base, entries[1..], sequence + 1)
  }

  function DocumentSnapshot(rules: UriRules, base: string, d: MediaDocument): Snapshot {
    Snapshot(
      EntrySegments(rules, base, d.entries, d.mediaSequence),
      d.ended,
      if d.targetSec.None? || d.targetSec.value == 0 then None else DocumentTarget(d))
  }

  lemma TrimmedStays(line: string)
    requires Trimmed(line)
    ensures Strip(line) == line
  {
  }

  lemma DecimalIsTrimmed(whole: DigitText, fraction: DigitText)
    requires whole != ""
    ensures Trimmed(DecimalText(whole, fraction)) && OneLine(DecimalText(whole, fraction))
    ensures forall i :: 0 <= i < |DecimalText(whole, fraction)| ==> DecimalText(whole, fraction)[i] != ','
  {
    var text := DecimalText(whole, fraction);
    assert forall i :: 0 <= i < |text| ==> IsDigit(text[i]) || text[i] == '.';
    assert IsDigit(text[0]) && IsDigit(text[|text| - 1]);
  }

  lemma {:induction false} BeforeCommaOf(text: string, rest: string)
    requires forall i :: 0 <= i < |text| ==> text[i] != ','
    ensures BeforeComma(text + "," + rest) == text
    decreases |text|
  {
    var whole := text + "," + rest;
    if text == [] {
      assert whole == "," + rest;
    } else {
      BeforeCommaOf(text[1..], rest);
      assert whole[1..] == text[1..] + "," + rest;
    }
  }

  // Stripping does not reach past a character that is no space.
  lemma {:induction false} StripRightAfter(prefix: string, rest: string)
    requires prefix != "" && !IsSpace(prefix[|prefix| - 1])
    ensures StripRight(prefix + rest) == prefix + StripRight(rest)
    decreases |rest|
  {
    if rest == "" {
      assert prefix + rest == prefix;
    } else {
      var text, init := prefix + rest, rest[..|rest| - 1];
      assert text[..|text| - 1] == prefix + init;
      StripRightAfter(prefix, init);
    }
  }

  /** A duration line means the number before its comma, whatever that number's text and the title after it. */
  lemma ReadExtinf(text: string, title: string)
    requires Trimmed(text) && forall i :: 0 <= i < |text| ==> text[i] != ','
    ensures ReadLine(EXTINF + text + "," + title) == DurationTag(DurationOf(text))
  {
    var start := EXTINF + text + ",";
    var line := start + StripRight(title);
    StripRightAfter(start, title);
    assert Strip(start + title) == line;
    assert line[0] == '#' && line[4] == 'I';
    assert EXTINF <= line && line[|EXTINF|..] == text + "," + StripRight(title);
    assert MEDIA_SEQUENCE[4] == '-' && TARGET_DURATION[4] == '-';
    BeforeCommaOf(text, StripRight(title));
    TrimmedStays(text);
  }

  lemma ReadDurationLine(entry: Entry)
    requires entry.whole != ""
    ensures ReadLine(DurationLine(entry)) == DurationTag(Some(entry.Seconds()))
  {
    DecimalIsTrimmed(entry.whole, entry.fraction);
    ReadExtinf(DecimalText(entry.whole, entry.fraction), entry.title);
    ReadDecimal(entry.whole, entry.fraction);
  }

  lemma ReadUriLine(line: string)
    requires Trimmed(line) && line[0] != '#'
    ensures ReadLine(line) == UriLine(line)
  {
    TrimmedStays(line);
  }

  lemma ReadTargetLine(seconds: nat)
    ensures ReadsTarget(ReadLine, seconds)
  {
    var text := NatText(seconds);
    var line := TargetLine(seconds);
    assert IsDigit(text[0]) && IsDigit(text[|text| - 1]);
    assert line[0] == '#' && line[7] == 'T' && line[|line| - 1] == text[|text| - 1];
    TrimmedStays(line);
    assert MEDIA_SEQUENCE[7] == 'M';
    assert line[|TARGET_DURATION|..] == text;
    TrimmedStays(text);
    ReadNatDecimal(seconds);
  }

  lemma ReadSequenceLine(n: nat)
    ensures ReadsSequence(ReadLine, n)
  {
    var text := NatText(n);
    var line := SequenceLine(n);
    assert line[0] == '#' && line[|line| - 1] == text[|text| - 1];
    assert IsDigit(text[0]) && IsDigit(text[|text| - 1]);
    TrimmedStays(line);
    assert line[|MEDIA_SEQUENCE|..] == text;
    TrimmedStays(text);
    ReadNat(n);
  }

  // ---- A document as tags ---------------------------------------------------------------

  function EntryTags(entries: seq<Entry>): seq<Tag> {
    if entries == [] then []
    else [DurationTag(Some(entries[0].Seconds())), UriLine(entries[0].line)] + EntryTags(entries[1..])
  }

  function DocumentTarget(d: MediaDocument): Option<real> {
    if d.targetSec.None? then None else Some(d.targetSec.value as real)
  }

  function TargetTags(targetSec: Option<nat>): seq<Tag> {
    if targetSec.None? then [] else [TargetTag(Some(targetSec.value as real))]
  }

  function DocumentTags(d: MediaDocument): seq<Tag> {
    [Nothing] + TargetTags(d.targetSec) + [SequenceTag(Some(d.mediaSequence))]
    + EntryTags(d.entries) + EndTags(d.ended)
  }

  lemma {:induction false} ReadLinesConcat(read: string -> Tag, a: seq<string>, b: seq<string>)
    ensures ReadLines(read, a + b) == ReadLines(read, a) + ReadLines(read, b)
  {
    if a == [] {
      assert a + b == b;
    } else {
      assert (a + b)[0] == a[0] && (a + b)[1..] == a[1..] + b;
      ReadLinesConcat(read, a[1..], b);
    }
  }

  lemma ReadLinesOne(read: string -> Tag, line: string)
    ensures ReadLines(read, [line]) == [read(line)]
  {
    assert [line][1..] == [];
  }

  lemma ReadTwo(read: string -> Tag, first: string, second: string, rest: seq<string>)
    ensures ReadLines(read, [first, second] + rest) == [read(first), read(second)] + ReadLines(read, rest)
  {
    assert [first, second] + rest == [first] + ([second] + rest);
    ReadLinesConcat(read, [first], [second] + rest);
    ReadLinesConcat(read, [second], rest);
    ReadLinesOne(read, first);
    ReadLinesOne(read, second);
  }

  // A reader that understands the lines of an entry.
  ghost predicate ReadsEntry(read: string -> Tag, entry: Entry) {
    && read(DurationLine(entry)) == DurationTag(Some(entry.Seconds()))
    && read(entry.line) == UriLine(entry.line)
  }

  lemma {:induction false} ReadEntryLines(read: string -> Tag, entries: seq<Entry>)
    requires forall i :: 0 <= i < |entries| ==> ReadsEntry(read, entries[i])
    ensures ReadLines(read, EntryLines(entries)) == EntryTags(entries)
  {
    if entries != [] {
      ReadTwo(read, DurationLine(entries[0]), entries[0].line, EntryLines(entries[1..]));
      ReadEntryLines(read, entries[1..]);
    }
  }

  function EndLines(ended: bool): seq<string> {
    if ended then [ENDLIST] else []
  }

  function EndTags(ended: bool): seq<Tag> {
    if ended then [EndTag] else []
  }

  // Readers that understand the plain tags, the target duration and the first sequence number.
  ghost predicate ReadsPlain(read: string -> Tag) {
    read(HEADER) == Nothing && read(ENDLIST) == EndTag
  }

  ghost predicate ReadsTarget(read: string -> Tag, seconds: nat) {
    read(TargetLine(seconds)) == TargetTag(Some(seconds as real))
  }

  ghost predicate ReadsSequence(read: string -> Tag, n: nat) {
    read(SequenceLine(n)) == SequenceTag(Some(n))
  }

  ghost predicate ReadsEntries(read: string -> Tag, entries: seq<Entry>) {
    forall i :: 0 <= i < |entries| ==> ReadsEntry(read, entries[i])
  }

  lemma ReadDocument(read: string -> Tag, d: MediaDocument)
    requires ReadsPlain(read) && ReadsSequence(read, d.mediaSequence) && ReadsEntries(read, d.entries)
    requires d.targetSec.Some? ==> ReadsTarget(read, d.targetSec.value)
    ensures ReadLines(read, DocumentLines(d)) == DocumentTags(d)
  {
    var target, sequence := TargetLines(d.targetSec), [SequenceLine(d.mediaSequence)];
    var entries, ending := EntryLines(d.entries), EndLines(d.ended);
    ReadLinesConcat(read, [HEADER] + target + sequence + entries, ending);
    ReadLinesConcat(read, [HEADER] + target + sequence, entries);
    ReadLinesConcat(read, [HEADER] + target, sequence);
    ReadLinesConcat(read, [HEADER], target);
    ReadLinesOne(read, HEADER);
    ReadLinesOne(read, SequenceLine(d.mediaSequence));
    ReadLinesOne(read, ENDLIST);
    ReadEntryLines(read, d.entries);
    if d.targetSec.Some? {
      ReadLinesOne(read, TargetLine(d.targetSec.value));
    }
  }

  lemma ReadPlainTags()
    ensures ReadsPlain(ReadLine)
  {
    TrimmedStays(HEADER);
    TrimmedStays(ENDLIST);
    assert ENDLIST[7] == 'E' && MEDIA_SEQUENCE[7] == 'M' && TARGET_DURATION[7] == 'T';
  }

  lemma ReadsEntryLines(entry: Entry)
    requires WellWrittenEntry(entry)
    ensures ReadsEntry(ReadLine, entry)
  {
    ReadDurationLine(entry);
    ReadUriLine(entry.line);
  }

  lemma ReadsAllEntries(entries: seq<Entry>)
    requires forall i :: 0 <= i < |entries| ==> WellWrittenEntry(entries[i])
    ensures ReadsEntries(ReadLine, entries)
  {
    forall i | 0 <= i < |entries| ensures ReadsEntry(ReadLine, entries[i]) {
      ReadsEntryLines(entries[i]);
    }
  }

  lemma ReadsDocument(d: MediaDocument)
    requires WellWritten(d)
    ensures ReadLines(ReadLine, DocumentLines(d)) == DocumentTags(d)
  {
    if d.targetSec.Some? {
      ReadTargetLine(d.targetSec.value);
    }
    ReadPlainTags();
    ReadSequenceLine(d.mediaSequence);
    ReadsAllEntries(d.entries);
    ReadDocument(ReadLine, d);
  }

  lemma {:induction false} FeedConcat(rules: UriRules, base: string, st: MediaState, a: seq<Tag>, b: seq<Tag>)
    ensures var mid := FeedTags(rules, base, st, a);
            FeedTags(rules, base, st, a + b) == if mid.None? then None else FeedTags(rules, base, mid.value, b)
    decreases |a|
  {
    if a == [] {
      assert a + b == b;
    } else {
      assert (a + b)[0] == a[0] && (a + b)[1..] == a[1..] + b;
      var next := FeedTag(rules, base, st, a[0]);
      if next.Some? {
        FeedConcat(rules, base, next.value, a[1..], b);
      }
    }
  }

  function WithEntry(rules: UriRules, base: string, st: MediaState, entry: Entry): MediaState {
    st.(segments := st.segments + [EntrySegment(rules, base, entry, st.mediaSequence + st.nextOffset)],
        nextOffset := st.nextOffset + 1)
  }

  lemma FeedEntry(rules: UriRules, base: string, st: MediaState, entry: Entry)
    requires st.currentDuration.None?
    ensures FeedTags(rules, base, st, [DurationTag(Some(entry.Seconds())), UriLine(entry.line)])
            == Some(WithEntry(rules, base, st, entry))
  {
    var duration, uri := DurationTag(Some(entry.Seconds())), UriLine(entry.line);
    assert [duration, uri][1..] == [uri] && [uri][1..] == [];
    assert FeedTags(rules, base, st.(currentDuration := duration.seconds), [uri])
           == Some(WithEntry(rules, base, st, entry));
  }

  lemma {:induction false} FeedEntries(rules: UriRules, base: string, st: MediaState, entries: seq<Entry>)
    requires st.currentDuration.None?
    ensures FeedTags(rules, base, st, EntryTags(entries))
            == Some(st.(segments := st.segments
                                    + EntrySegments(rules, base, entries, st.mediaSequence + st.nextOffset),
                        nextOffset := st.nextOffset + |entries|))
    decreases |entries|
  {
    if entries != [] {
      var first := [DurationTag(Some(entries[0].Seconds())), UriLine(entries[0].line)];
      FeedEntry(rules, base, st, entries[0]);
      FeedConcat(rules, base, st, first, EntryTags(entries[1..]));
      FeedEntries(rules, base, WithEntry(rules, base, st, entries[0]), entries[1..]);
      var head := EntrySegment(rules, base, entries[0], st.mediaSequence + st.nextOffset);
      var rest := EntrySegments(rules, base, entries[1..], st.mediaSequence + st.nextOffset + 1);
      assert st.segments + [head] + rest == st.segments + ([head] + rest);
    } else {
      assert st.segments + [] == st.segments;
    }
  }

  lemma FeedHead(rules: UriRules, base: string, target: Option<real>, n: int)
    ensures FeedTags(rules, base, MEDIA_START,
                     [Nothing] + (if target.None? then [] else [TargetTag(target)]) + [SequenceTag(Some(n))])
            == Some(MEDIA_START.(targetDuration := target, mediaSequence := n))
  {
    var number := SequenceTag(Some(n));
    var st := MEDIA_START.(targetDuration := target);
    assert [number][1..] == [];
    assert FeedTags(rules, base, st, [number]) == Some(st.(mediaSequence := n));
    if target.None? {
      assert [Nothing] + [] + [number] == [Nothing, number];
      assert [Nothing, number][1..] == [number];
    } else {
      assert [Nothing] + [TargetTag(target)] + [number] == [Nothing, TargetTag(target), number];
      assert [Nothing, TargetTag(target), number][1..] == [TargetTag(target), number];
      assert [TargetTag(target), number][1..] == [number];
      assert FeedTags(rules, base, MEDIA_START, [TargetTag(target), number]) == Some(st.(mediaSequence := n));
    }
  }

  lemma FeedDocument(rules: UriRules, base: string, d: MediaDocument)
    requires WellWritten(d)
    ensures var st := FeedTags(rules, base, MEDIA_START, DocumentTags(d));
            st.Some? && MediaSnapshot(st.value) == DocumentSnapshot(rules, base, d)
  {
    var head := [Nothing] + TargetTags(d.targetSec) + [SequenceTag(Some(d.mediaSequence))];
    var ending := EndTags(d.ended);
    var st := MEDIA_START.(targetDuration := DocumentTarget(d), mediaSequence := d.mediaSequence);
    FeedHead(rules, base, DocumentTarget(d), d.mediaSequence);
    FeedConcat(rules, base, MEDIA_START, head, EntryTags(d.entries) + ending);
    assert DocumentTags(d) == head + (EntryTags(d.entries) + ending);
    FeedConcat(rules, base, st, EntryTags(d.entries), ending);
    FeedEntries(rules, base, st, d.entries);
  }

  lemma {:induction false} EntryLinesAreLines(entries: seq<Entry>)
    requires forall i :: 0 <= i < |entries| ==> WellWrittenEntry(entries[i])
    ensures AllOneLine(EntryLines(entries))
  {
    if entries != [] {
      DecimalIsTrimmed(entries[0].whole, entries[0].fraction);
      EntryLinesAreLines(entries[1..]);
    }
  }

  lemma HeadLinesAreLines(d: MediaDocument)
    ensures AllOneLine([HEADER]) && AllOneLine(TargetLines(d.targetSec))
    ensures AllOneLine([SequenceLine(d.mediaSequence)]) && AllOneLine(EndLines(d.ended))
  {
    assert AreDigits(NatText(d.mediaSequence));
    if d.targetSec.Some? {
      assert AreDigits(NatText(d.targetSec.value));
    }
  }

  lemma DocumentLinesAreLines(d: MediaDocument)
    requires WellWritten(d)
    ensures AllOneLine(DocumentLines(d))
  {
    EntryLinesAreLines(d.entries);
    HeadLinesAreLines(d);
    var target, sequence := TargetLines(d.targetSec), [SequenceLine(d.mediaSequence)];
    AllOneLineConcat([HEADER], target);
    AllOneLineConcat([HEADER] + target, sequence);
    AllOneLineConcat([HEADER] + target + sequence, EntryLines(d.entries));
    AllOneLineConcat([HEADER] + target + sequence + EntryLines(d.entries), EndLines(d.ended));
  }

  /**
   Reading a media playlist inverts writing it with the tags of RFC 8216 sections 4.3.1.1, 4.3.2.1,
   4.3.3.1, 4.3.3.2 and 4.3.3.4: the same consecutively numbered segments, target duration and end
   flag come back, durations floored at a tenth of a second and a target of zero dropped.
   */
  lemma MediaRoundTrip(rules: UriRules, base: string, d: MediaDocument)
    requires WellWritten(d)
    ensures MediaMeaning(rules, JoinLines(DocumentLines(d)), base) == Some(DocumentSnapshot(rules, base, d))
  {
    var lines := DocumentLines(d);
    DocumentLinesAreLines(d);
    SplitJoin(lines);
    ReadsDocument(d);
    FeedDocument(rules, base, d);
    assert lines[0] == HEADER;
    assert HEADER <= JoinLines(lines);
  }

  // ---- The kind of a playlist --------------------------------------------------------------

  ghost predicate SomeLineHas(lines: seq<string>, word: string) {
    exists i :: 0 <= i < |lines| && Contains(lines[i], word)
  }

  // A text holds a word exactly if one of its lines does.
  lemma {:induction false} JoinContainsIff(lines: seq<string>, word: string)
    requires OneLine(word) && word != ""
    ensures Contains(JoinLines(lines), word) <==> SomeLineHas(lines, word)
  {
    if lines != [] {
      var first, rest := lines[0] + "\n", JoinLines(lines[1..]);
      JoinContainsIff(lines[1..], word);
      if Contains(first + rest, word) {
        ContainsEither(first, rest, word);
        if Contains(first, word) {
          EndOfLineIsNoWord(lines[0], word);
        } else {
          var i :| 0 <= i < |lines[1..]| && Contains(lines[1..][i], word);
          assert Contains(lines[i + 1], word);
        }
      }
      if i :| 0 <= i < |lines| && Contains(lines[i], word) {
        if i == 0 {
          ContainsBefore(lines[0], "\n", word);
          ContainsBefore(first, rest, word);
        } else {
          assert Contains(lines[1..][i - 1], word);
          ContainsAfter(first, rest, word);
        }
      }
    }
  }

  /** A playlist is told by its lines: the header, a stream-info line or none, a duration or target line. */
  lemma KindFollowsLines(lines: seq<string>)
    ensures DetectKind(JoinLines(lines)) == Master
            <==> SomeLineHas(lines, "#EXTM3U") && SomeLineHas(lines, "#EXT-X-STREAM-INF")
    ensures DetectKind(JoinLines(lines)) == Media
            <==> && SomeLineHas(lines, "#EXTM3U") && !SomeLineHas(lines, "#EXT-X-STREAM-INF")
                 && (SomeLineHas(lines, "#EXTINF") || SomeLineHas(lines, "#EXT-X-TARGETDURATION"))
  {
    JoinContainsIff(lines, HEADER);
    JoinContainsIff(lines, STREAM_INF);
    JoinContainsIff(lines, EXTINF_WORD);
    JoinContainsIff(lines, TARGET_WORD);
  }

  /** A written media playlist with a segment or a target is taken for one unless a line of it names a stream. */
  lemma WrittenIsMedia(d: MediaDocument)
    requires (d.entries != [] || d.targetSec.Some?) && !SomeLineHas(DocumentLines(d), STREAM_INF)
    ensures DetectKind(JoinLines(DocumentLines(d))) == Media
  {
    var lines := DocumentLines(d);
    KindFollowsLines(lines);
    assert lines[0] == HEADER && Contains(lines[0], HEADER);
    if d.targetSec.Some? {
      assert lines[1] == TargetLine(d.targetSec.value) && TARGET_WORD <= lines[1];
      assert Contains(lines[1], TARGET_WORD);
    } else {
      assert lines[2] == DurationLine(d.entries[0]) && EXTINF_WORD <= lines[2];
      assert Contains(lines[2], EXTINF_WORD);
    }
  }

  // ---- Lines that mean nothing ------------------------------------------------------------

  // Blank, or a comment or tag the parser does not recognise.
  predicate Meaningless(rawLine: string) {
    ReadLine(rawLine) == Nothing
  }

  lemma {:induction false} ContainsAfter(prefix: string, text: string, word: string)
    requires Contains(text, word)
    ensures Contains(prefix + text, word)
  {
    if prefix == [] {
      assert prefix + text == text;
    } else {
      ContainsAfter(prefix[1..], text, word);
      assert (prefix + text)[1..] == prefix[1..] + text;
    }
  }

  lemma {:induction false} ContainsBefore(text: string, suffix: string, word: string)
    requires Contains(text, word)
    ensures Contains(text + suffix, word)
  {
    if !(word <= text) {
      ContainsBefore(text[1..], suffix, word);
      assert (text + suffix)[1..] == text[1..] + suffix;
    }
  }

  // A word without line breaks does not straddle the end of a line.
  lemma WordFitsLine(a: string, b: string, word: string)
    requires a != "" && a[|a| - 1] == '\n'
    requires OneLine(word) && word <= a + b
    ensures word <= a
  {
    assert (a + b)[|a| - 1] == '\n';
    assert forall i :: 0 <= i < |word| ==> word[i] == (a + b)[i] && !IsLineBreak((a + b)[i]);
  }

  lemma {:induction false} ContainsEither(a: string, b: string, word: string)
    requires a == "" || a[|a| - 1] == '\n'
    requires OneLine(word) && Contains(a + b, word)
    ensures Contains(a, word) || Contains(b, word)
  {
    if a == "" {
      assert a + b == b;
    } else if word <= a + b {
      WordFitsLine(a, b, word);
    } else {
      assert (a + b)[1..] == a[1..] + b;
      ContainsEither(a[1..], b, word);
    }
  }

  lemma HeaderInFirst(before: string, between: string, after: string)
    requires Contains(before, HEADER)
    ensures Contains(before + between + after, HEADER)
  {
    ContainsBefore(before, between, HEADER);
    ContainsBefore(before + between, after, HEADER);
  }

  lemma JoinThree(a: seq<string>, line: string, b: seq<string>)
    ensures JoinLines(a + b) == JoinLines(a) + JoinLines(b)
    ensures JoinLines(a + [line] + b) == JoinLines(a) + JoinLines([line]) + JoinLines(b)
    ensures a != [] ==> JoinLines(a) != "" && JoinLines(a)[|JoinLines(a)| - 1] == '\n'
  {
    JoinConcat(a, b);
    JoinConcat(a + [line], b);
    JoinConcat(a, [line]);
  }

  lemma HeaderSurvives(a: seq<string>, line: string, b: seq<string>)
    requires Contains(JoinLines(a + b), HEADER)
    ensures Contains(JoinLines(a + [line] + b), HEADER)
  {
    var before, between, after := JoinLines(a), JoinLines([line]), JoinLines(b);
    JoinThree(a, line, b);
    ContainsEither(before, after, HEADER);
    if Contains(before, HEADER) {
      HeaderInFirst(before, between, after);
    } else {
      ContainsAfter(before + between, after, HEADER);
    }
  }

  lemma HeaderNeedsLine(a: seq<string>, line: string, b: seq<string>)
    requires OneLine(line) && !Contains(line, HEADER)
    requires !Contains(JoinLines(a + b), HEADER)
    ensures !Contains(JoinLines(a + [line] + b), HEADER)
  {
    var before, after := JoinLines(a), JoinLines(b);
    var between := JoinLines([line]);
    JoinThree(a, line, b);
    if Contains(before + between + after, HEADER) {
      ContainsEither(before + between, after, HEADER);
      if Contains(after, HEADER) {
        ContainsAfter(before, after, HEADER);
      } else {
        ContainsEither(before, between, HEADER);
        if Contains(before, HEADER) {
          ContainsBefore(before, after, HEADER);
        } else {
          assert [line][1..] == [] && between == line + "\n" + "" == line + "\n";
          EndOfLineIsNoWord(line, HEADER);
        }
      }
    }
  }

  // What a line break ends is no part of a word.
  lemma {:induction false} EndOfLineIsNoWord(line: string, word: string)
    requires OneLine(word) && Contains(line + "\n", word)
    ensures Contains(line, word)
    decreases |line|
  {
    var text := line + "\n";
    if word <= text {
      assert text[|line|] == '\n';
      assert forall i :: 0 <= i < |word| ==> word[i] == text[i] && word[i] != '\n';
      assert word <= line;
    } else {
      assert line != "" && text[1..] == line[1..] + "\n";
      EndOfLineIsNoWord(line[1..], word);
    }
  }

  lemma IgnoredLine(read: string -> Tag, rules: UriRules, base: string, a: seq<string>, line: string, b: seq<string>)
    requires read(line) == Nothing
    ensures FeedTags(rules, base, MEDIA_START, ReadLines(read, a + [line] + b))
            == FeedTags(rules, base, MEDIA_START, ReadLines(read, a + b))
  {
    ReadLinesConcat(read, a, b);
    ReadLinesConcat(read, a + [line], b);
    ReadLinesConcat(read, a, [line]);
    ReadLinesOne(read, line);
    MeaninglessFeed(rules, base, MEDIA_START, ReadLines(read, a), ReadLines(read, b));
  }

  lemma SplitWithout(a: seq<string>, line: string, b: seq<string>)
    requires AllOneLine(a + b) && OneLine(line)
    ensures SplitLines(JoinLines(a + b)) == a + b
    ensures SplitLines(JoinLines(a + [line] + b)) == a + [line] + b
  {
    PartsAreLines(a, b);
    AllOneLineConcat(a, [line]);
    AllOneLineConcat(a + [line], b);
    SplitJoin(a + b);
    SplitJoin(a + [line] + b);
  }

  /**
   A blank or unrecognised line inserted anywhere changes nothing, as long as it does not smuggle
   in the header that the text lacks.
   */
  lemma MeaninglessLinesAreIgnored(rules: UriRules, base: string, a: seq<string>, line: string, b: seq<string>)
    requires AllOneLine(a + b) && OneLine(line) && Meaningless(line)
    requires Contains(JoinLines(a + b), HEADER) || !Contains(line, HEADER)
    ensures MediaMeaning(rules, JoinLines(a + [line] + b), base) == MediaMeaning(rules, JoinLines(a + b), base)
  {
    if Contains(JoinLines(a + b), HEADER) {
      HeaderSurvives(a, line, b);
    } else {
      HeaderNeedsLine(a, line, b);
    }
    SplitWithout(a, line, b);
    IgnoredLine(ReadLine, rules, base, a, line, b);
  }

  lemma MeaninglessFeed(rules: UriRules, base: string, st: MediaState, a: seq<Tag>, b: seq<Tag>)
    ensures FeedTags(rules, base, st, a + [Nothing] + b) == FeedTags(rules, base, st, a + b)
  {
    FeedConcat(rules, base, st, a, b);
    FeedConcat(rules, base, st, a, [Nothing] + b);
    assert a + [Nothing] + b == a + ([Nothing] + b);
    assert ([Nothing] + b)[1..] == b;
  }
}
