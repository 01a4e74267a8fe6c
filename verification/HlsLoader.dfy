/**
 The HTTP/HLS loader as an object updated in place.  Sockets, clock, disk and other processes
 answer arbitrarily; every public method is tied to one iteration of LoaderMachine per loop turn.
 */
module HlsLoader {
  import opened Prelude
  import opened Decimal
  import opened StreamContracts
  import opened HlsPlaylist
  import opened HlsPolicy
  import opened LoaderMachine
  import opened CancelCache
  import opened SessionStorage
  import opened DedupLog
  import opened TempStorage

  const MASTER_PLAYLIST_MAX_DEPTH := 3
  const TEMPORARY_MALFORMED := "api_stream playlist refresh was temporarily malformed"
  const UNSUPPORTED_PLAYLIST := "Unsupported api_stream playlist/source"
  const RECONNECT_EXHAUSTED := "api_stream reconnect budget exhausted: "
  const HTTP_404 := "api_stream upstream returned HTTP 404"

  // What the transport may meet instead of bytes.  The loader catches the first three; an address
  // that makes no request, a connection reset while reading and a broken exchange escape it.
  datatype TransportFault =
    | TimedOut
    | HttpStatus(code: nat)
    | ConnectionFailed(reason: string)
    | Escaping(crash: Crash)

  const RETRYABLE_STATUS: set<nat> := {408, 429, 500, 502, 503, 504}

  function ClassifyFault(fault: TransportFault): (failure: (FailureKind, string))
    requires !fault.Escaping?
    ensures failure.0 == (if fault.HttpStatus? && fault.code !in RETRYABLE_STATUS then FailureKind.Terminal
                          else Retryable)
  {
    match fault
    case TimedOut => (Retryable, "api_stream fetch timed out")
    case HttpStatus(code) =>
      (if code in RETRYABLE_STATUS then Retryable else FailureKind.Terminal,
       "api_stream upstream returned HTTP " + NatText(code))
    case ConnectionFailed(reason) => (Retryable, "api_stream upstream connection failed: " + reason)
  }

  datatype ReadResult =
    | ReadBytes(payload: seq<bv8>)
    | ReadTooLarge
    | ReadFault(fault: TransportFault)
    | ReadCancelled

  datatype FetchResult =
    | Fetched(payload: seq<bv8>)
    | FetchFailed(kind: FailureKind, message: string)
    | FetchCrashed(crash: Crash)
    | FetchCancelled

  datatype TextResult =
    | GotText(text: string, url: string)
    | TextFailed(message: string)
    | TextCrashed(crash: Crash)
    | TextCancelled

  datatype ResolveResult =
    | Resolved(url: string, text: string)
    | ResolveFailed(kind: FailureKind, message: string)
    | ResolveCrashed(crash: Crash)
    | ResolveCancelled

  // A failed fetch of a playlist, and whether it is tried again.
  datatype FetchFailure = FetchFailure(kind: FailureKind, message: string)

  predicate Retried(failure: FetchFailure) {
    failure.kind == Retryable || (failure.kind == FailureKind.Terminal && failure.message == HTTP_404)
  }

  datatype Hop = HopDone(ended: ResolveResult) | HopTo(variant: string)

  datatype ConnectResult =
    | ConnectDone
    | ConnectFailed(kind: FailureKind, message: string)
    | ConnectCrashed(crash: Crash)
    | ConnectStopIteration

  datatype Telemetry = Telemetry(
    playlistRefreshCount: nat,
    acceptedSliceCount: nat,
    skippedReplayCount: nat,
    reconnectAttemptCount: nat,
    reconnectBudgetExhaustionCount: nat,
    terminalFailureReason: Option<string>,
    stopReason: Option<StopReason>)

  // The network's answers are arbitrary.
  method TransportMeets() returns (fault: Option<TransportFault>)
  {
    fault := *;
  }

  method DecodeMeets() returns (text: Option<string>)
  {
    text := *;
  }

  // The requests of some fetches, each with its retries.
  function RequestsTo(fetches: nat, perFetch: nat): nat {
    if fetches == 0 then 0 else perFetch + RequestsTo(fetches - 1, perFetch)
  }

  lemma RequestsAreBounded(fetches: nat, perFetch: nat)
    requires fetches <= MASTER_PLAYLIST_MAX_DEPTH
    ensures RequestsTo(fetches + 1, perFetch) == RequestsTo(fetches, perFetch) + perFetch
    ensures RequestsTo(fetches + 1, perFetch) <= (MASTER_PLAYLIST_MAX_DEPTH + 1) * perFetch
  {
    assert RequestsTo(1, perFetch) == perFetch && RequestsTo(2, perFetch) == 2 * perFetch;
    assert RequestsTo(3, perFetch) == 3 * perFetch && RequestsTo(4, perFetch) == 4 * perFetch;
  }

  lemma {:induction false} RequestsAdd(a: nat, b: nat, perFetch: nat)
    ensures RequestsTo(a + b, perFetch) == RequestsTo(a, perFetch) + RequestsTo(b, perFetch)
    decreases a
  {
    if a > 0 {
      RequestsAdd(a - 1, b, perFetch);
    }
  }

  lemma {:induction false} RequestsMultiply(fetches: nat, perFetch: nat)
    ensures RequestsTo(fetches, perFetch) == fetches * perFetch
  {
    if fetches > 0 {
      RequestsMultiply(fetches - 1, perFetch);
    }
  }

  // ---- Following playlists ---------------------------------------------------------------

  const NESTING_EXCEEDED := "api_stream master playlist nesting exceeded supported depth"

  // A playlist text and the address it came from.
  datatype Page = Page(url: string, text: string)

  // The fetch of a playlist: the address asked for, how often, and the text it came to, if any.
  datatype Fetch = Fetch(asked: string, requests: nat, got: Option<Page>)

  function Times(url: string, n: nat): (urls: seq<string>)
    ensures |urls| == n && forall i :: 0 <= i < n ==> urls[i] == url
  {
    seq(n, i => url)
  }

  lemma TimesOneMore(url: string, n: nat)
    ensures Times(url, n + 1) == Times(url, n) + [url]
  {
  }

  // The requests of the first n fetches, one after the other.
  function AskedBy(trail: seq<Fetch>, n: nat): seq<string>
    requires n <= |trail|
  {
    if n == 0 then [] else AskedBy(trail, n - 1) + Times(trail[n - 1].asked, trail[n - 1].requests)
  }

  lemma {:induction false} AskedByPrefix(trail: seq<Fetch>, fetch: Fetch, n: nat)
    requires n <= |trail|
    ensures AskedBy(trail + [fetch], n) == AskedBy(trail, n)
  {
    if n > 0 {
      AskedByPrefix(trail, fetch, n - 1);
    }
  }

  // The bytes of some chunks, one after the other.
  function Joined(chunks: seq<seq<bv8>>): seq<bv8> {
    if chunks == [] then [] else Joined(chunks[..|chunks| - 1]) + chunks[|chunks| - 1]
  }

  lemma JoinedOneMore(chunks: seq<seq<bv8>>, chunk: seq<bv8>)
    ensures Joined(chunks + [chunk]) == Joined(chunks) + chunk
  {
    assert (chunks + [chunk])[..|chunks|] == chunks;
  }

  // What was asked before and then by these fetches, in order, and nothing else.
  ghost predicate Asks(before: seq<string>, trail: seq<Fetch>, after: seq<string>) {
    forall n :: 0 <= n <= |trail| ==>
      if n < |trail| then before + AskedBy(trail, n) <= after else before + AskedBy(trail, n) == after
  }

  lemma AsksOneMore(before: seq<string>, trail: seq<Fetch>, mid: seq<string>, fetch: Fetch, after: seq<string>)
    requires Asks(before, trail, mid) && after == mid + Times(fetch.asked, fetch.requests)
    ensures Asks(before, trail + [fetch], after)
  {
    var longer := trail + [fetch];
    assert before + AskedBy(trail, |trail|) == mid;
    forall n | 0 <= n <= |trail|
      ensures AskedBy(longer, n) == AskedBy(trail, n) && before + AskedBy(longer, n) <= mid
    {
      AskedByPrefix(trail, fetch, n);
    }
    assert longer[|trail|] == fetch;
    assert before + AskedBy(longer, |longer|) == after;
  }

  predicate Selects(rules: UriRules, page: Page, variant: string) {
    SelectVariant(FeedMaster(rules, page.url, false, SplitLines(page.text))) == Some(variant)
  }

  // The first usable variant a page names, if there is one.
  ghost predicate LeadsTo(rules: UriRules, page: Page, variant: Option<string>) {
    forall v {:trigger Selects(rules, page, v)} :: Selects(rules, page, v) <==> variant == Some(v)
  }

  lemma LeadsToSelected(rules: UriRules, page: Page, variant: Option<string>)
    ensures LeadsTo(rules, page, variant)
            <==> variant == SelectVariant(FeedMaster(rules, page.url, false, SplitLines(page.text)))
  {
    var selected := SelectVariant(FeedMaster(rules, page.url, false, SplitLines(page.text)));
    assert variant.Some? ==> (Selects(rules, page, variant.value) <==> selected == variant);
    assert selected.Some? ==> Selects(rules, page, selected.value);
  }

  predicate Reads(rules: UriRules, page: Page, snapshot: Snapshot) {
    MediaMeaning(rules, page.text, page.url) == Some(snapshot)
  }

  // What a page means as a media playlist, if it can be read.
  ghost predicate Means(rules: UriRules, page: Page, meaning: Option<Snapshot>) {
    forall snapshot {:trigger Reads(rules, page, snapshot)} ::
      Reads(rules, page, snapshot) <==> meaning == Some(snapshot)
  }

  lemma MeansMeaning(rules: UriRules, page: Page, meaning: Option<Snapshot>)
    ensures Means(rules, page, meaning) <==> meaning == MediaMeaning(rules, page.text, page.url)
  {
    var read := MediaMeaning(rules, page.text, page.url);
    assert meaning.Some? ==> (Reads(rules, page, meaning.value) <==> read == meaning);
    assert read.Some? ==> Reads(rules, page, read.value);
  }

  // A fetched master playlist leads on to this address.
  ghost predicate GoesOnTo(rules: UriRules, fetch: Fetch, url: string) {
    fetch.got.Some? && DetectKind(fetch.got.value.text) == Master && LeadsTo(rules, fetch.got.value, Some(url))
  }

  // The first fetch asks for an address, and each of the others for the variant the one before it led to.
  ghost predicate FollowsVariants(rules: UriRules, url: string, trail: seq<Fetch>) {
    && (trail != [] ==> trail[0].asked == url)
    && forall i, j :: 0 <= i && j == i + 1 && j < |trail| ==> GoesOnTo(rules, trail[i], trail[j].asked)
  }

  lemma FollowsOneMore(rules: UriRules, url: string, trail: seq<Fetch>, fetch: Fetch)
    requires FollowsVariants(rules, url, trail)
    requires if trail == [] then fetch.asked == url
             else GoesOnTo(rules, trail[|trail| - 1], fetch.asked)
    ensures FollowsVariants(rules, url, trail + [fetch])
  {
    var longer := trail + [fetch];
    assert forall i :: 0 <= i < |trail| ==> longer[i] == trail[i];
  }

  // What the last text of a resolution makes of it; without one it cannot be resolved.
  ghost predicate Resolves(rules: UriRules, trail: seq<Fetch>, allowTemporaryMalformed: bool, result: ResolveResult)
    requires trail != []
  {
    match trail[|trail| - 1].got
    case None => !result.Resolved? && (result.ResolveFailed? ==> result.kind == FailureKind.Terminal)
    case Some(page) =>
      match DetectKind(page.text)
      case Media => result == Resolved(page.url, page.text)
      case Master =>
        if |trail| == MASTER_PLAYLIST_MAX_DEPTH + 1 then result == ResolveFailed(FailureKind.Terminal, NESTING_EXCEEDED)
        else LeadsTo(rules, page, None) && result == ResolveCrashed(ValueError)
      case Unknown =>
        result == if allowTemporaryMalformed then ResolveFailed(Retryable, TEMPORARY_MALFORMED)
                  else ResolveFailed(FailureKind.Terminal, UNSUPPORTED_PLAYLIST)
  }

  // The last text of a resolution is a media playlist that means this.
  ghost predicate EndsInMedia(rules: UriRules, trail: seq<Fetch>, url: string, meaning: Option<Snapshot>) {
    && trail != [] && trail[|trail| - 1].got.Some?
    && trail[|trail| - 1].got.value.url == url
    && DetectKind(trail[|trail| - 1].got.value.text) == Media
    && Means(rules, trail[|trail| - 1].got.value, meaning)
  }

  // What a refresh comes to, by the last text of its resolution.
  ghost predicate PlaylistIs(rules: UriRules, trail: seq<Fetch>, reply: PlaylistReply)
    requires trail != []
  {
    match trail[|trail| - 1].got
    case None => !reply.MediaPlaylist? && !reply.MalformedPlaylist?
    case Some(page) =>
      match DetectKind(page.text)
      case Media =>
        if reply.MediaPlaylist? then Means(rules, page, Some(reply.snapshot))
        else Means(rules, page, None) && reply == MalformedPlaylist(TEMPORARY_MALFORMED)
      case Master => !reply.MediaPlaylist? && !reply.MalformedPlaylist?
      case Unknown => reply == MalformedPlaylist(TEMPORARY_MALFORMED)
  }

  // Every consulted segment fitted the fetch budget and met a directory of this size.
  ghost predicate SegmentsWithin(envs: seq<Env>, maxFetchBytes: nat, directoryBytes: nat) {
    forall i :: 0 <= i < |envs| && envs[i].segment.SegmentBytes? ==>
      envs[i].segment.size <= maxFetchBytes && envs[i].segment.directoryBytes == directoryBytes
  }

  lemma SegmentsWithinGrow(envs: seq<Env>, env: Env, maxFetchBytes: nat, directoryBytes: nat)
    requires SegmentsWithin(envs, maxFetchBytes, directoryBytes)
    requires env.segment.SegmentBytes? ==>
               env.segment.size <= maxFetchBytes && env.segment.directoryBytes == directoryBytes
    ensures SegmentsWithin(envs + [env], maxFetchBytes, directoryBytes)
  {
  }

  class Loader {
    const settings: Settings
    const rules: UriRules
    const storage: Storage
    const tempDir: TempDirectory
    const queue: SegmentQueue

    var connected: bool
    var closed: bool
    var mediaPlaylistUrl: string
    var persistedKeys: set<IdentityKey>
    var lastTelemetry: Telemetry

    // The runtime state, reset by each connect and close.
    var sawEndlist: bool
    var idlePlaylistPolls: nat
    var currentPollIntervalSec: real
    var playlistRefreshCount: nat
    var skippedReplayCount: nat
    var reconnectAttemptCount: nat
    var reconnectBudgetExhaustionCount: nat
    var terminalFailureReason: Option<string>
    var stopReason: Option<StopReason>
    var lastSeenMaxSequence: Option<int>
    var cachedCancelRequested: bool
    var cancelCheckSkipBudget: nat

    // The addresses of the HTTP requests issued so far.
    ghost var requested: seq<string>

    constructor (settings: Settings, rules: UriRules, storage: Storage, tempDir: TempDirectory)
      ensures this.settings == settings && this.rules == rules
      ensures this.storage == storage && this.tempDir == tempDir && fresh(queue)
      ensures !connected && !closed && CancelHonest()
    {
      this.settings, this.rules, this.storage, this.tempDir := settings, rules, storage, tempDir;
      queue := new SegmentQueue();
      connected, closed, mediaPlaylistUrl, persistedKeys := false, false, "", {};
      lastTelemetry := Telemetry(0, 0, 0, 0, 0, None, None);
      sawEndlist, idlePlaylistPolls, currentPollIntervalSec := false, 0, settings.pollIntervalSec;
      playlistRefreshCount, skippedReplayCount := 0, 0;
      reconnectAttemptCount, reconnectBudgetExhaustionCount := 0, 0;
      terminalFailureReason, stopReason, lastSeenMaxSequence := None, None, None;
      cachedCancelRequested, cancelCheckSkipBudget := false, 0;
      requested := [];
    }

    ghost function State(): Live
      reads `sawEndlist, `idlePlaylistPolls, `currentPollIntervalSec, `playlistRefreshCount, `skippedReplayCount
      reads `lastSeenMaxSequence, queue
    {
      Live(queue.Contents(), sawEndlist, idlePlaylistPolls, currentPollIntervalSec,
           playlistRefreshCount, skippedReplayCount, lastSeenMaxSequence)
    }

    ghost function CancelView(): Cache
      reads `cachedCancelRequested, `cancelCheckSkipBudget
    {
      Cache(cachedCancelRequested, cancelCheckSkipBudget)
    }

    // The cache was never told anything the store does not hold.
    ghost predicate CancelHonest()
      reads `cachedCancelRequested, `cancelCheckSkipBudget, storage`cancelRequested
    {
      && (cachedCancelRequested ==> storage.cancelRequested)
      && cancelCheckSkipBudget <= CANCEL_CHECK_SKIP_COUNT
    }

    // Intent, once durable, stays; and the stop reason is a cancellation exactly if one was seen.
    twostate predicate IntentKept(cancelled: bool)
      reads `cachedCancelRequested, `cancelCheckSkipBudget, `stopReason, storage`cancelRequested
    {
      && CancelHonest()
      && (old(storage.cancelRequested) ==> storage.cancelRequested)
      && (cancelled ==> stopReason == Some(ExplicitCancel) && storage.cancelRequested)
      && (!cancelled ==> stopReason == old(stopReason))
    }

    // The same for a call that ends in an outcome of the loop, whatever the reason it stops for.
    twostate predicate StopRecorded(outcome: Outcome)
      reads `cachedCancelRequested, `cancelCheckSkipBudget, `stopReason, storage`cancelRequested
    {
      && CancelHonest()
      && (old(storage.cancelRequested) ==> storage.cancelRequested)
      && (outcome == Stopped(ExplicitCancel) ==> storage.cancelRequested)
      && stopReason == if outcome.Stopped? then Some(outcome.reason) else old(stopReason)
    }

    // A call issues no more requests than a limit, and none if intent was durable before it.
    twostate predicate RequestsWithin(limit: nat)
      reads `requested, storage`cancelRequested
    {
      && |old(requested)| <= |requested| <= |old(requested)| + limit
      && (old(storage.cancelRequested) ==> requested == old(requested))
    }

    // The most requests of one poll.
    function PollLimit(): nat {
      (MASTER_PLAYLIST_MAX_DEPTH + 1) * (settings.maxReconnectAttempts + 1)
    }

    // ---- Cancellation ------------------------------------------------------------

    /**
     The throttled check: what the cache function makes of what the store holds when it is read.  A
     read that fails leaves the cache alone.  Intent may land before the read and after it.
     */
    method IsCancelRequested(force: bool) returns (look: Look, ghost stored: bool)
      requires CancelHonest()
      modifies `cachedCancelRequested, `cancelCheckSkipBudget, storage`cancelRequested
      ensures CancelHonest()
      ensures if look.LookFailed? then CancelView() == old(CancelView())
              else (look.Intent?, CancelView()) == Check(old(CancelView()), force, stored)
      ensures old(storage.cancelRequested) ==> stored
      ensures stored ==> storage.cancelRequested
    {
      storage.OthersAct();
      stored := storage.cancelRequested;
      if cachedCancelRequested {
        return Intent, stored;
      }
      if !force && cancelCheckSkipBudget > 0 {
        cancelCheckSkipBudget := cancelCheckSkipBudget - 1;
        storage.OthersAct();
        return NoIntent, stored;
      }
      look := storage.IsCancelRequested();
      if look.LookFailed? {
        return;
      }
      stored := look.Intent?;
      cachedCancelRequested := look.Intent?;
      cancelCheckSkipBudget := if look.Intent? then 0 else CANCEL_CHECK_SKIP_COUNT;
    }

    // A positive check records why the loop stops.
    method StopIfCancelRequested(force: bool) returns (look: Look, ghost stored: bool)
      requires CancelHonest()
      modifies `cachedCancelRequested, `cancelCheckSkipBudget, `stopReason, storage`cancelRequested
      ensures IntentKept(look.Intent?)
      ensures if look.LookFailed? then CancelView() == old(CancelView())
              else (look.Intent?, CancelView()) == Check(old(CancelView()), force, stored)
      ensures old(storage.cancelRequested) ==> stored
      ensures force && old(storage.cancelRequested) ==> !look.NoIntent?
    {
      look, stored := IsCancelRequested(force);
      if look.Intent? {
        stopReason := Some(ExplicitCancel);
      }
    }

    // A look at one of the loop's boundaries, straight at the store.
    method LookNow() returns (look: Look)
      requires CancelHonest()
      modifies `cachedCancelRequested, `cancelCheckSkipBudget, `stopReason, storage`cancelRequested
      ensures IntentKept(look.Intent?)
      ensures old(storage.cancelRequested) ==> !look.NoIntent?
    {
      ghost var stored;
      look, stored := StopIfCancelRequested(true);
    }

    // ---- Fetching ----------------------------------------------------------------

    /**
     Read a response body under the byte and cancel budgets.  Once intent is durable at most nine
     reads begin: one whose check came just before, and eight whose checks the cache answered.
     */
    method ReadResponse() returns (result: ReadResult, ghost lateReads: nat, ghost chunks: seq<seq<bv8>>)
      requires CancelHonest()
      modifies `cachedCancelRequested, `cancelCheckSkipBudget, `stopReason, storage`cancelRequested
      ensures IntentKept(result.ReadCancelled?)
      ensures result.ReadBytes? ==> |result.payload| <= settings.maxFetchBytes && result.payload == Joined(chunks)
      ensures lateReads <= CANCEL_CHECK_SKIP_COUNT + 1
      ensures old(storage.cancelRequested) ==> lateReads <= old(cancelCheckSkipBudget)
    {
      var payload: seq<bv8> := [];
      lateReads, chunks := 0, [];
      while true
        invariant IntentKept(false)
        invariant |payload| <= settings.maxFetchBytes && payload == Joined(chunks)
        invariant storage.cancelRequested ==> lateReads + cancelCheckSkipBudget <= CANCEL_CHECK_SKIP_COUNT + 1
        invariant !storage.cancelRequested ==> lateReads == 0
        invariant old(storage.cancelRequested) ==> lateReads + cancelCheckSkipBudget <= old(cancelCheckSkipBudget)
        decreases settings.maxFetchBytes - |payload|
      {
        var look;
        ghost var stored;
        look, stored := StopIfCancelRequested(false);
        if look.Intent? {
          return ReadCancelled, lateReads, chunks;
        }
        if look.LookFailed? {
          return ReadFault(Escaping(look.crash)), lateReads, chunks;
        }
        lateReads := lateReads + if storage.cancelRequested then 1 else 0;
        var fault := TransportMeets();
        if fault.Some? {
          return ReadFault(fault.value), lateReads, chunks;
        }
        var chunk: seq<bv8> := *;
        if chunk == [] {
          break;
        }
        if |payload| + |chunk| > settings.maxFetchBytes {
          return ReadTooLarge, lateReads, chunks;
        }
        payload := payload + chunk;
        JoinedOneMore(chunks, chunk);
        chunks := chunks + [chunk];
      }
      result := ReadBytes(payload);
    }

    method FetchUrlBytes(url: string) returns (result: FetchResult, ghost chunks: seq<seq<bv8>>)
      requires CancelHonest()
      modifies `cachedCancelRequested, `cancelCheckSkipBudget, `stopReason, storage`cancelRequested
      modifies `terminalFailureReason, `requested
      ensures IntentKept(result.FetchCancelled?)
      ensures old(storage.cancelRequested) ==> result.FetchCancelled? || result.FetchCrashed?
      ensures result.Fetched? ==> |result.payload| <= settings.maxFetchBytes && result.payload == Joined(chunks)
      ensures result.FetchFailed? ==> result.kind != Temporary
      ensures requested == old(requested) || requested == old(requested) + [url]
      ensures result.Fetched? || result.FetchFailed? ==> requested == old(requested) + [url]
      ensures RequestsWithin(1)
    {
      chunks := [];
      var look := LookNow();
      if look.Intent? {
        return FetchCancelled, chunks;
      }
      if look.LookFailed? {
        return FetchCrashed(look.crash), chunks;
      }
      requested := requested + [url];
      var fault := TransportMeets();
      if fault.None? {
        var read;
        ghost var lateReads;
        read, lateReads, chunks := ReadResponse();
        match read {
          case ReadBytes(payload) =>
            return Fetched(payload), chunks;
          case ReadTooLarge =>
            return FetchFailed(FailureKind.Terminal, "api_stream fetch exceeded max byte budget"), chunks;
          case ReadCancelled =>
            return FetchCancelled, chunks;
          case ReadFault(met) =>
            fault := Some(met);
        }
      }
      if fault.value.Escaping? {
        return FetchCrashed(fault.value.crash), chunks;
      }
      var (kind, message) := ClassifyFault(fault.value);
      if kind == FailureKind.Terminal {
        terminalFailureReason := Some(message);
      }
      result := FetchFailed(kind, message);
    }

    /**
     One playlist fetch with its retries: one request per failure and at most one more.  Every failure
     but the last was worth a retry, and the last is what ended it: one that is not, or one too many.
     */
    method FetchPlaylistText(url: string)
      returns (result: TextResult, ghost failures: seq<FetchFailure>, ghost requests: nat)
      requires CancelHonest()
      modifies `cachedCancelRequested, `cancelCheckSkipBudget, `stopReason, storage`cancelRequested
      modifies `terminalFailureReason, `requested, `reconnectAttemptCount, `reconnectBudgetExhaustionCount
      ensures IntentKept(result.TextCancelled?)
      ensures old(storage.cancelRequested) ==> result.TextCancelled? || result.TextCrashed?
      ensures requested == old(requested) + Times(url, requests)
      ensures |failures| <= requests <= |failures| + 1
      ensures result.GotText? ==> requests == |failures| + 1
      ensures result.TextFailed? ==> requests == |failures|
      ensures RequestsWithin(settings.maxReconnectAttempts + 1)
      ensures forall i :: 0 <= i < |failures| - 1 ==> Retried(failures[i])
      ensures result.TextFailed? ==>
                && failures != []
                && var last := failures[|failures| - 1];
                   if Retried(last) then |failures| == settings.maxReconnectAttempts + 1
                                         && result.message == RECONNECT_EXHAUSTED + last.message
                   else result.message == last.message
      ensures !result.TextFailed? ==> |failures| <= settings.maxReconnectAttempts
                                      && forall i :: 0 <= i < |failures| ==> Retried(failures[i])
    {
      var attempts := 0;
      failures, requests := [], 0;
      while true
        invariant IntentKept(false)
        invariant attempts == |failures| <= settings.maxReconnectAttempts
        invariant RequestsWithin(attempts) && requests == attempts
        invariant requested == old(requested) + Times(url, requests)
        invariant forall i :: 0 <= i < |failures| ==> Retried(failures[i])
        decreases settings.maxReconnectAttempts - attempts
      {
        var look := LookNow();
        if !look.NoIntent? {
          return if look.Intent? then TextCancelled else TextCrashed(look.crash), failures, requests;
        }
        ghost var before := requested;
        var fetched;
        ghost var chunks;
        fetched, chunks := FetchUrlBytes(url);
        TimesOneMore(url, requests);
        requests := requests + if requested == before then 0 else 1;
        match fetched {
          case FetchCancelled =>
            return TextCancelled, failures, requests;
          case FetchCrashed(crash) =>
            return TextCrashed(crash), failures, requests;
          case Fetched(_) =>
            terminalFailureReason := None;
            var decoded := DecodeMeets();
            if decoded.None? {
              return TextCrashed(ValueError), failures, requests;
            }
            var resolvedUrl: string := *;
            return GotText(decoded.value, resolvedUrl), failures, requests;
          case FetchFailed(kind, message) =>
            failures := failures + [FetchFailure(kind, message)];
            if kind == FailureKind.Terminal && message == HTTP_404 {
              terminalFailureReason := None;
            } else if kind != Retryable {
              return TextFailed(message), failures, requests;
            }
            attempts := attempts + 1;
            reconnectAttemptCount := attempts;
            if attempts > settings.maxReconnectAttempts {
              reconnectBudgetExhaustionCount := reconnectBudgetExhaustionCount + 1;
              terminalFailureReason := Some("reconnect_budget_exhausted:" + message);
              return TextFailed(RECONNECT_EXHAUSTED + message), failures, requests;
            }
            look := LookNow();
            if !look.NoIntent? {
              return if look.Intent? then TextCancelled else TextCrashed(look.crash), failures, requests;
            }
        }
      }
    }

    /**
     Follow master playlists down to a media playlist: ask for the address given, and while a text is a
     master playlist, for its first usable variant.  The last text decides the result, and one
     resolution issues at most (3 + 1) * (maxReconnectAttempts + 1) requests, whatever the server answers.
     */
    method ResolveMediaPlaylist(url: string, allowTemporaryMalformed: bool)
      returns (result: ResolveResult, ghost trail: seq<Fetch>)
      requires CancelHonest()
      modifies `cachedCancelRequested, `cancelCheckSkipBudget, `stopReason, storage`cancelRequested
      modifies `terminalFailureReason, `requested, `reconnectAttemptCount, `reconnectBudgetExhaustionCount
      ensures IntentKept(result.ResolveCancelled?)
      ensures old(storage.cancelRequested) ==> result.ResolveCancelled? || result.ResolveCrashed?
      ensures 1 <= |trail| <= MASTER_PLAYLIST_MAX_DEPTH + 1 && FollowsVariants(rules, url, trail)
      ensures Asks(old(requested), trail, requested)
      ensures Resolves(rules, trail, allowTemporaryMalformed, result)
      ensures result.ResolveFailed? ==> result.kind == Terminal || (allowTemporaryMalformed && result.kind == Retryable)
      ensures RequestsWithin(PollLimit())
    {
      var currentUrl, depth := url, 0;
      trail := [];
      while true
        invariant IntentKept(false)
        invariant depth == |trail| <= MASTER_PLAYLIST_MAX_DEPTH
        invariant FollowsVariants(rules, url, trail)
        invariant if trail == [] then currentUrl == url else GoesOnTo(rules, trail[|trail| - 1], currentUrl)
        invariant Asks(old(requested), trail, requested)
        invariant RequestsWithin(RequestsTo(depth, settings.maxReconnectAttempts + 1))
        decreases MASTER_PLAYLIST_MAX_DEPTH - depth
      {
        RequestsAreBounded(depth, settings.maxReconnectAttempts + 1);
        var hop;
        ghost var fetch;
        ghost var before := requested;
        hop, fetch := FetchHop(currentUrl, depth, allowTemporaryMalformed);
        FollowsOneMore(rules, url, trail, fetch);
        AsksOneMore(old(requested), trail, before, fetch, requested);
        trail := trail + [fetch];
        match hop {
          case HopDone(ended) =>
            return ended, trail;
          case HopTo(variant) =>
            depth := depth + 1;
            currentUrl := variant;
        }
      }
    }

    // Fetch a playlist and see what it leads to.
    method FetchHop(url: string, depth: nat, allowTemporaryMalformed: bool) returns (hop: Hop, ghost fetch: Fetch)
      requires CancelHonest() && depth <= MASTER_PLAYLIST_MAX_DEPTH
      modifies `cachedCancelRequested, `cancelCheckSkipBudget, `stopReason, storage`cancelRequested
      modifies `terminalFailureReason, `requested, `reconnectAttemptCount, `reconnectBudgetExhaustionCount
      ensures IntentKept(hop == HopDone(ResolveCancelled))
      ensures old(storage.cancelRequested) ==>
                hop.HopDone? && (hop.ended.ResolveCancelled? || hop.ended.ResolveCrashed?)
      ensures fetch.asked == url && requested == old(requested) + Times(url, fetch.requests)
      ensures Leads(fetch, depth, allowTemporaryMalformed, hop)
      ensures hop.HopDone? && hop.ended.ResolveFailed? ==>
                hop.ended.kind == FailureKind.Terminal || (allowTemporaryMalformed && hop.ended.kind == Retryable)
      ensures RequestsWithin(settings.maxReconnectAttempts + 1)
    {
      fetch := Fetch(url, 0, None);
      var look := LookNow();
      if !look.NoIntent? {
        return HopDone(if look.Intent? then ResolveCancelled else ResolveCrashed(look.crash)), fetch;
      }
      var fetched;
      ghost var failures, requests;
      fetched, failures, requests := FetchPlaylistText(url);
      fetch := Fetch(url, requests, None);
      match fetched {
        case TextCancelled =>
          hop := HopDone(ResolveCancelled);
        case TextCrashed(crash) =>
          hop := HopDone(ResolveCrashed(crash));
        case TextFailed(message) =>
          hop := HopDone(ResolveFailed(FailureKind.Terminal, message));
        case GotText(text, resolvedUrl) =>
          fetch := fetch.(got := Some(Page(resolvedUrl, text)));
          hop := NextHop(text, resolvedUrl, depth, allowTemporaryMalformed);
      }
    }

    // Where a fetch leads: on to the variant it names, or to the end of a resolution it is the last one of.
    ghost predicate Leads(fetch: Fetch, depth: nat, allowTemporaryMalformed: bool, hop: Hop) {
      match hop
      case HopTo(variant) => depth < MASTER_PLAYLIST_MAX_DEPTH && GoesOnTo(rules, fetch, variant)
      case HopDone(ended) =>
        match fetch.got
        case None => !ended.Resolved? && (ended.ResolveFailed? ==> ended.kind == FailureKind.Terminal)
        case Some(page) =>
          match DetectKind(page.text)
          case Media => ended == Resolved(page.url, page.text)
          case Master =>
            if depth == MASTER_PLAYLIST_MAX_DEPTH then ended == ResolveFailed(FailureKind.Terminal, NESTING_EXCEEDED)
            else LeadsTo(rules, page, None) && ended == ResolveCrashed(ValueError)
          case Unknown =>
            ended == if allowTemporaryMalformed then ResolveFailed(Retryable, TEMPORARY_MALFORMED)
                     else ResolveFailed(FailureKind.Terminal, UNSUPPORTED_PLAYLIST)
    }

    // The first variant a master playlist names.
    method SelectMasterVariant(text: string, url: string) returns (selected: Option<string>)
      ensures selected == SelectVariant(FeedMaster(rules, url, false, SplitLines(text)))
      ensures LeadsTo(rules, Page(url, text), selected)
    {
      var variants := ParseMasterVariants(rules, text, url);
      selected := SelectVariant(variants);
      LeadsToSelected(rules, Page(url, text), selected);
    }

    // What a fetched playlist text leads to: the media playlist itself, a variant to fetch, or a failure.
    method NextHop(text: string, url: string, depth: nat, allowTemporaryMalformed: bool) returns (hop: Hop)
      requires depth <= MASTER_PLAYLIST_MAX_DEPTH
      ensures Leads(Fetch(url, 0, Some(Page(url, text))), depth, allowTemporaryMalformed, hop)
      ensures DetectKind(text) == Media <==> hop == HopDone(Resolved(url, text))
      ensures hop.HopTo? ==> DetectKind(text) == Master
      ensures hop.HopDone? ==> !hop.ended.ResolveCancelled?
    {
      match DetectKind(text) {
        case Media =>
          hop := HopDone(Resolved(url, text));
        case Master =>
          if depth + 1 > MASTER_PLAYLIST_MAX_DEPTH {
            return HopDone(ResolveFailed(FailureKind.Terminal, NESTING_EXCEEDED));
          }
          var selected := SelectMasterVariant(text, url);
          hop := if selected.None? then HopDone(ResolveCrashed(ValueError)) else HopTo(selected.value);
        case Unknown =>
          hop := HopDone(if allowTemporaryMalformed then ResolveFailed(Retryable, TEMPORARY_MALFORMED)
                         else ResolveFailed(FailureKind.Terminal, UNSUPPORTED_PLAYLIST));
      }
    }

    // ---- Merging and materializing ---------------------------------------------------

    /** Merge a playlist text; a text that cannot be parsed changes nothing. */
    method RefreshFromText(text: string, url: string) returns (merged: Option<Snapshot>)
      modifies queue, `playlistRefreshCount, `sawEndlist, `currentPollIntervalSec, `skippedReplayCount
      modifies `lastSeenMaxSequence, `idlePlaylistPolls
      ensures merged == MediaMeaning(rules, text, url) && Means(rules, Page(url, text), merged)
      ensures State() == if merged.Some? then Refresh(settings, old(State()), merged.value) else old(State())
    {
      merged := ParseMediaPlaylist(rules, text, url);
      MeansMeaning(rules, Page(url, text), merged);
      if merged.None? {
        return;
      }
      MergeSnapshot(merged.value);
    }

    method MergeQueue(parsed: Snapshot) returns (newCount: nat, replayCount: nat)
      modifies queue
      ensures queue.Contents() == EnqueueAll(Pruned(old(queue.Contents()), parsed), parsed.segments)
      ensures newCount == |Unseen(Pruned(old(queue.Contents()), parsed), parsed.segments)|
      ensures replayCount == |parsed.segments| - newCount
    {
      if parsed.segments != [] {
        queue.PruneEmittedKeys(MinSequence(parsed.segments));
      }
      newCount, replayCount := queue.QueueUnseenSegments(parsed.segments);
    }

    method NoteHighestSequence(parsed: Snapshot)
      modifies `lastSeenMaxSequence
      ensures lastSeenMaxSequence == LastSeen(old(State()), parsed)
    {
      if parsed.segments != [] {
        var parsedMax := MaxSequence(parsed.segments);
        lastSeenMaxSequence := if lastSeenMaxSequence.None? then Some(parsedMax)
                               else Some(Max(lastSeenMaxSequence.value, parsedMax));
      }
    }

    method MergeSnapshot(parsed: Snapshot)
      modifies queue, `playlistRefreshCount, `sawEndlist, `currentPollIntervalSec, `skippedReplayCount
      modifies `lastSeenMaxSequence, `idlePlaylistPolls
      ensures State() == Refresh(settings, old(State()), parsed)
    {
      playlistRefreshCount := playlistRefreshCount + 1;
      sawEndlist := parsed.isEndlist;
      currentPollIntervalSec := PollInterval(settings.pollIntervalSec, parsed.targetDurationSec);
      var newCount, replayCount := MergeQueue(parsed);
      skippedReplayCount := skippedReplayCount + replayCount;
      NoteHighestSequence(parsed);
      NoteIdlePolls(newCount);
    }

    method NoteIdlePolls(newCount: nat)
      modifies `idlePlaylistPolls
      ensures idlePlaylistPolls == if newCount > 0 then 0
                                   else if !sawEndlist then old(idlePlaylistPolls) + 1 else old(idlePlaylistPolls)
    {
      if newCount > 0 {
        idlePlaylistPolls := 0;
      } else if !sawEndlist {
        idlePlaylistPolls := idlePlaylistPolls + 1;
      }
    }

    /**
     Fetch the head segment and write it to the temp directory.  The reply says what the attempt
     met; only a written slice changes the directory, and by one file within the fetch budget.
     */
    method MaterializeHead() returns (outcome: Outcome, ghost reply: SegmentReply, ghost chunks: seq<seq<bv8>>)
      requires CancelHonest() && queue.pendingSegments != []
      modifies `cachedCancelRequested, `cancelCheckSkipBudget, `stopReason, storage`cancelRequested
      modifies `terminalFailureReason, `requested, tempDir`files, tempDir`peakFiles, tempDir`peakBytes
      ensures IntentKept(outcome.Stopped?)
      ensures old(storage.cancelRequested) ==> outcome == Stopped(ExplicitCancel) || outcome.Crashed?
      ensures outcome == Attempt(settings, State(), reply).1
      ensures State() == old(State())
      ensures reply.SegmentBytes? ==> reply.size <= settings.maxFetchBytes
                                      && reply.directoryBytes == TotalBytes(old(tempDir.files))
      ensures reply.SegmentBytes? ==> reply.size == |Joined(chunks)|
      ensures outcome.Produced? ==>
                outcome.slice.path in tempDir.files && tempDir.files[outcome.slice.path] == reply.size
      ensures DirectoryAfter(old(tempDir.files), outcome)
      ensures PeaksAfter(old(tempDir.peakFiles), old(tempDir.peakBytes))
      ensures requested == old(requested) || requested == old(requested + [queue.pendingSegments[0].uri])
      ensures reply.SegmentBytes? || reply.SegmentFailure? ==>
                requested == old(requested + [queue.pendingSegments[0].uri])
      ensures RequestsWithin(1)
    {
      var payload;
      payload, outcome, reply, chunks := FetchSegment(queue.pendingSegments[0]);
      if payload.Some? {
        outcome, reply := StoreSegment(queue.pendingSegments[0], |payload.value|);
      }
    }

    // Fetch the head, with a last look for cancel intent; a failure worth a retry is temporary here.
    method FetchSegment(segment: Segment)
      returns (payload: Option<seq<bv8>>, outcome: Outcome, ghost reply: SegmentReply, ghost chunks: seq<seq<bv8>>)
      requires CancelHonest() && queue.pendingSegments != []
      modifies `cachedCancelRequested, `cancelCheckSkipBudget, `stopReason, storage`cancelRequested
      modifies `terminalFailureReason, `requested
      ensures IntentKept(outcome.Stopped?)
      ensures old(storage.cancelRequested) ==> outcome == Stopped(ExplicitCancel) || outcome.Crashed?
      ensures payload.Some? ==> payload.value == Joined(chunks)
      ensures payload.Some? ==> |payload.value| <= settings.maxFetchBytes && outcome.Continue?
      ensures payload.None? ==> outcome == Attempt(settings, State(), reply).1 && !reply.SegmentBytes?
      ensures requested == old(requested) || requested == old(requested) + [segment.uri]
      ensures payload.Some? || reply.SegmentFailure? ==> requested == old(requested) + [segment.uri]
      ensures RequestsWithin(1)
    {
      payload, outcome, reply := None, Continue, SegmentCancelled;
      var fetched;
      fetched, chunks := FetchUrlBytes(segment.uri);
      match fetched {
        case FetchCancelled =>
          outcome := Stopped(ExplicitCancel);
        case FetchCrashed(crash) =>
          outcome, reply := Crashed(crash), SegmentEscaped(crash);
        case FetchFailed(kind, message) =>
          outcome := Raised(if kind == Retryable then Temporary else kind, message);
          reply := SegmentFailure(kind, message);
        case Fetched(bytes) =>
          var look := LookNow();
          if look.Intent? {
            return None, Stopped(ExplicitCancel), SegmentCancelled, chunks;
          }
          if look.LookFailed? {
            return None, Crashed(look.crash), SegmentEscaped(look.crash), chunks;
          }
          payload := Some(bytes);
      }
    }

    // Write the fetched head, within the budget for temp files, and build its slice.
    method StoreSegment(segment: Segment, size: nat) returns (outcome: Outcome, ghost reply: SegmentReply)
      requires queue.pendingSegments != [] && segment == queue.pendingSegments[0] && size <= settings.maxFetchBytes
      modifies tempDir`files, tempDir`peakFiles, tempDir`peakBytes
      ensures outcome == Attempt(settings, State(), reply).1 && !outcome.Stopped?
      ensures reply.SegmentBytes? && reply.size == size && reply.directoryBytes == TotalBytes(old(tempDir.files))
      ensures outcome.Produced? ==> outcome.slice.path in tempDir.files && tempDir.files[outcome.slice.path] == size
      ensures DirectoryAfter(old(tempDir.files), outcome)
      ensures PeaksAfter(old(tempDir.peakFiles), old(tempDir.peakBytes))
    {
      var currentBytes := tempDir.CountBytes();
      if currentBytes + size > settings.maxTempBytes {
        return Raised(FailureKind.Terminal, TEMP_STORAGE_EXCEEDED), SegmentBytes(size, currentBytes, false);
      }
      var written := tempDir.Write(TempPath(segment), size);
      reply := SegmentBytes(size, currentBytes, written);
      if !written {
        return Crashed(OsError), reply;
      }
      var startSec := if segment.Key() in queue.segmentStartOffsets
                      then queue.segmentStartOffsets[segment.Key()] else 0.0;
      var slice := BuildSlice(settings.source, segment, startSec);
      outcome := if slice.None? then Crashed(ValueError) else Produced(slice.value);
    }

    // A write raises the directory's peaks to what it holds now, and nothing else does.
    ghost predicate PeaksAfter(files: nat, bytes: nat)
      reads this, tempDir
    {
      && (tempDir.peakFiles == files || tempDir.peakFiles == |tempDir.files|)
      && (tempDir.peakBytes == bytes || tempDir.peakBytes == TotalBytes(tempDir.files))
    }

    // ---- One poll and one pull ---------------------------------------------------------

    // The requests of a poll follow the variants from the current playlist on, and a merged playlist
    // becomes the current one.
    twostate predicate Polled(new trail: seq<Fetch>, new reply: PlaylistReply)
      reads `requested, `mediaPlaylistUrl
    {
      && Asks(old(requested), trail, requested) && FollowsVariants(rules, old(mediaPlaylistUrl), trail)
      && (trail == [] ==> !reply.MediaPlaylist? && !reply.MalformedPlaylist?)
      && (trail != [] ==> PlaylistIs(rules, trail, reply))
      && mediaPlaylistUrl == if reply.MediaPlaylist? then trail[|trail| - 1].got.value.url else old(mediaPlaylistUrl)
    }

    method PollPlaylist() returns (outcome: Outcome, ghost env: Env, ghost trail: seq<Fetch>)
      requires CancelHonest()
      modifies `cachedCancelRequested, `cancelCheckSkipBudget, `stopReason, storage`cancelRequested
      modifies `terminalFailureReason, `requested, `reconnectAttemptCount, `reconnectBudgetExhaustionCount
      modifies queue, `playlistRefreshCount, `sawEndlist, `currentPollIntervalSec, `skippedReplayCount
      modifies `lastSeenMaxSequence, `idlePlaylistPolls, `mediaPlaylistUrl
      ensures IntentKept(outcome.Stopped?)
      ensures old(storage.cancelRequested) ==> outcome == Stopped(ExplicitCancel) || outcome.Crashed?
      ensures env.withinRuntime && env.atHead.NoIntent? && !env.segment.SegmentBytes?
      ensures (State(), outcome) == Poll(settings, old(State()), env)
      ensures Polled(trail, env.playlist)
      ensures RequestsWithin(PollLimit())
    {
      trail := [];
      env := Env(true, NoIntent, SegmentCancelled, NoIntent, PlaylistCancelled);
      var look := LookNow();
      env := env.(afterSleep := look);
      if !look.NoIntent? {
        return if look.Intent? then Stopped(ExplicitCancel) else Crashed(look.crash), env, trail;
      }
      if playlistRefreshCount >= settings.maxPlaylistRefreshes {
        terminalFailureReason := Some(REFRESH_LIMIT_EXCEEDED);
        return Raised(FailureKind.Terminal, REFRESH_LIMIT_EXCEEDED), env, trail;
      }
      outcome, env, trail := RefreshFromRemote();
    }

    // Fetch and merge the playlist once more.
    method RefreshFromRemote() returns (outcome: Outcome, ghost env: Env, ghost trail: seq<Fetch>)
      requires CancelHonest()
      modifies `cachedCancelRequested, `cancelCheckSkipBudget, `stopReason, storage`cancelRequested
      modifies `terminalFailureReason, `requested, `reconnectAttemptCount, `reconnectBudgetExhaustionCount
      modifies queue, `playlistRefreshCount, `sawEndlist, `currentPollIntervalSec, `skippedReplayCount
      modifies `lastSeenMaxSequence, `idlePlaylistPolls, `mediaPlaylistUrl
      ensures IntentKept(outcome.Stopped?)
      ensures old(storage.cancelRequested) ==> outcome == Stopped(ExplicitCancel) || outcome.Crashed?
      ensures env == Env(true, NoIntent, SegmentCancelled, NoIntent, env.playlist)
      ensures (State(), outcome) == Refetch(settings, old(State()), env.playlist)
      ensures Polled(trail, env.playlist) && trail != []
      ensures RequestsWithin(PollLimit())
    {
      env := Env(true, NoIntent, SegmentCancelled, NoIntent, PlaylistCancelled);
      var resolved;
      resolved, trail := ResolveMediaPlaylist(mediaPlaylistUrl, true);
      match resolved {
        case ResolveCancelled =>
          outcome := Stopped(ExplicitCancel);
        case ResolveCrashed(crash) =>
          env := env.(playlist := PlaylistEscaped(crash));
          outcome := Crashed(crash);
        case ResolveFailed(kind, message) =>
          env := env.(playlist := if kind == Retryable then MalformedPlaylist(message) else PlaylistFailure(message));
          outcome := Raised(kind, message);
        case Resolved(refreshedUrl, text) =>
          var merged := RefreshFromText(text, refreshedUrl);
          if merged.None? {
            env := env.(playlist := MalformedPlaylist(TEMPORARY_MALFORMED));
            return Raised(Retryable, TEMPORARY_MALFORMED), env, trail;
          }
          env := env.(playlist := MediaPlaylist(merged.value));
          mediaPlaylistUrl := refreshedUrl;
          outcome := Continue;
      }
    }

    // One attempt at the head: fetch, write, and take it off the queue unless the failure is terminal.
    method AttemptHead() returns (outcome: Outcome, ghost reply: SegmentReply)
      requires CancelHonest() && queue.pendingSegments != []
      modifies `cachedCancelRequested, `cancelCheckSkipBudget, `stopReason, storage`cancelRequested
      modifies `terminalFailureReason, `requested, queue, tempDir`files, tempDir`peakFiles, tempDir`peakBytes
      ensures IntentKept(outcome.Stopped?)
      ensures old(storage.cancelRequested) ==> outcome == Stopped(ExplicitCancel) || outcome.Crashed?
      ensures (State(), outcome) == Attempt(settings, old(State()), reply)
      ensures reply.SegmentBytes? ==> reply.size <= settings.maxFetchBytes
                                      && reply.directoryBytes == TotalBytes(old(tempDir.files))
      ensures outcome.Produced? ==> reply.SegmentBytes?
      ensures outcome.Produced? ==>
                outcome.slice.path in tempDir.files && tempDir.files[outcome.slice.path] == reply.size
      ensures DirectoryAfter(old(tempDir.files), outcome)
      ensures PeaksAfter(old(tempDir.peakFiles), old(tempDir.peakBytes))
      ensures requested == old(requested) || requested == old(requested + [queue.pendingSegments[0].uri])
      ensures reply.SegmentBytes? || reply.SegmentFailure? ==>
                requested == old(requested + [queue.pendingSegments[0].uri])
      ensures RequestsWithin(1)
    {
      var key := queue.pendingSegments[0].Key();
      ghost var chunks;
      outcome, reply, chunks := MaterializeHead();
      if outcome.Raised? && outcome.kind == Temporary {
        queue.FinalizePending(key, true);
      }
      if outcome.Produced? {
        queue.FinalizePending(key, true);
      }
    }

    // What a pull leaves in the directory: one more file when it produced a slice, and at most
    // one more when it crashed.
    ghost predicate DirectoryAfter(before: map<string, nat>, outcome: Outcome)
      reads this, tempDir
    {
      if outcome.Produced? then
        var path := outcome.slice.path;
        && path in tempDir.files
        && tempDir.files[path] <= settings.maxFetchBytes
        && tempDir.files == before[path := tempDir.files[path]]
      else if outcome.Crashed? then
        && |tempDir.files| <= |before| + 1
        && forall path :: path in tempDir.files ==>
             tempDir.files[path] <= settings.maxFetchBytes
             || (path in before && tempDir.files[path] == before[path])
      else tempDir.files == before
    }

    // One turn of the loop.
    method Turn() returns (outcome: Outcome, ghost env: Env, ghost trail: seq<Fetch>)
      requires connected && !closed && CancelHonest()
      modifies `cachedCancelRequested, `cancelCheckSkipBudget, `stopReason, storage`cancelRequested
      modifies `terminalFailureReason, `requested, `reconnectAttemptCount, `reconnectBudgetExhaustionCount
      modifies queue, `playlistRefreshCount, `sawEndlist, `currentPollIntervalSec, `skippedReplayCount
      modifies `lastSeenMaxSequence, `idlePlaylistPolls, `mediaPlaylistUrl
      modifies tempDir`files, tempDir`peakFiles, tempDir`peakBytes
      ensures StopRecorded(outcome)
      ensures old(storage.cancelRequested) ==> !outcome.Produced? && !outcome.Continue?
      ensures (State(), outcome) == Iterate(settings, old(State()), env)
      ensures env.segment.SegmentBytes? ==>
                && env.segment.size <= settings.maxFetchBytes
                && env.segment.directoryBytes == TotalBytes(old(tempDir.files))
      ensures outcome.Produced? ==> env.segment.SegmentBytes? && outcome.slice.path in tempDir.files
                                    && tempDir.files[outcome.slice.path] == env.segment.size
      ensures DirectoryAfter(old(tempDir.files), outcome)
      ensures PeaksAfter(old(tempDir.peakFiles), old(tempDir.peakBytes))
      ensures outcome.Continue? ==> old(playlistRefreshCount) < playlistRefreshCount <= settings.maxPlaylistRefreshes
      ensures outcome.Continue? ==> tempDir.peakFiles == old(tempDir.peakFiles)
                                    && tempDir.peakBytes == old(tempDir.peakBytes)
      ensures if old(queue.pendingSegments) == [] then Polled(trail, env.playlist)
              else requested == old(requested) || requested == old(requested + [queue.pendingSegments[0].uri])
      ensures outcome.Produced? ==> requested == old(requested + [queue.pendingSegments[0].uri])
      ensures RequestsWithin(PollLimit())
    {
      trail := [];
      env := Env(true, NoIntent, SegmentCancelled, NoIntent, PlaylistCancelled);
      var withinRuntime: bool := *;
      if !withinRuntime {
        terminalFailureReason := Some(RUNTIME_EXCEEDED);
        env := env.(withinRuntime := false);
        return Raised(FailureKind.Terminal, RUNTIME_EXCEEDED), env, trail;
      }
      var look := LookNow();
      env := env.(atHead := look);
      if !look.NoIntent? {
        return if look.Intent? then Stopped(ExplicitCancel) else Crashed(look.crash), env, trail;
      }
      if queue.pendingSegments != [] {
        ghost var reply;
        outcome, reply := AttemptHead();
        env := env.(segment := reply);
        return;
      }
      outcome, env, trail := StopOrPoll();
    }

    // A turn with nothing pending: the stream is over, or idle for too long, or polled.
    method StopOrPoll() returns (outcome: Outcome, ghost env: Env, ghost trail: seq<Fetch>)
      requires CancelHonest() && queue.pendingSegments == []
      modifies `cachedCancelRequested, `cancelCheckSkipBudget, `stopReason, storage`cancelRequested
      modifies `terminalFailureReason, `requested, `reconnectAttemptCount, `reconnectBudgetExhaustionCount
      modifies queue, `playlistRefreshCount, `sawEndlist, `currentPollIntervalSec, `skippedReplayCount
      modifies `lastSeenMaxSequence, `idlePlaylistPolls, `mediaPlaylistUrl
      ensures StopRecorded(outcome)
      ensures old(storage.cancelRequested) ==> outcome.Stopped? || outcome.Crashed?
      ensures outcome.Continue? ==> old(playlistRefreshCount) < playlistRefreshCount <= settings.maxPlaylistRefreshes
      ensures !outcome.Produced? && !env.segment.SegmentBytes?
      ensures (State(), outcome) == Iterate(settings, old(State()), env)
      ensures Polled(trail, env.playlist)
      ensures RequestsWithin(PollLimit())
    {
      trail := [];
      env := Env(true, NoIntent, SegmentCancelled, NoIntent, PlaylistCancelled);
      if sawEndlist {
        stopReason := Some(EndlistReached);
        return Stopped(EndlistReached), env, trail;
      }
      if idlePlaylistPolls >= settings.maxIdlePolls {
        stopReason := Some(IdlePollBudgetExhausted);
        return Stopped(IdlePollBudgetExhausted), env, trail;
      }
      outcome, env, trail := PollPlaylist();
    }

    // One turn after some others of the same pull.
    method TurnAfter(ghost start: Live, ghost before: seq<Env>) returns (outcome: Outcome, ghost envs: seq<Env>)
      requires connected && !closed && CancelHonest()
      requires AllContinue(settings, start, before) && Trail(settings, start, before) == State()
      requires SegmentsWithin(before, settings.maxFetchBytes, TotalBytes(tempDir.files))
      modifies `cachedCancelRequested, `cancelCheckSkipBudget, `stopReason, storage`cancelRequested
      modifies `terminalFailureReason, `requested, `reconnectAttemptCount, `reconnectBudgetExhaustionCount
      modifies queue, `playlistRefreshCount, `sawEndlist, `currentPollIntervalSec, `skippedReplayCount
      modifies `lastSeenMaxSequence, `idlePlaylistPolls, `mediaPlaylistUrl
      modifies tempDir`files, tempDir`peakFiles, tempDir`peakBytes
      ensures StopRecorded(outcome)
      ensures old(storage.cancelRequested) ==> !outcome.Produced? && !outcome.Continue?
      ensures outcome.Continue? ==>
                && AllContinue(settings, start, envs) && Trail(settings, start, envs) == State()
                && old(playlistRefreshCount) < playlistRefreshCount <= settings.maxPlaylistRefreshes
                && tempDir.files == old(tempDir.files)
                && tempDir.peakFiles == old(tempDir.peakFiles) && tempDir.peakBytes == old(tempDir.peakBytes)
      ensures !outcome.Continue? ==> Pull(settings, start, envs, State(), outcome)
      ensures SegmentsWithin(envs, settings.maxFetchBytes, TotalBytes(old(tempDir.files)))
      ensures DirectoryAfter(old(tempDir.files), outcome)
      ensures PeaksAfter(old(tempDir.peakFiles), old(tempDir.peakBytes))
      ensures |envs| == |before| + 1 && RequestsWithin(PollLimit())
    {
      ghost var env, trail;
      outcome, env, trail := Turn();
      PullOfAppend(settings, start, before, env, State(), outcome);
      SegmentsWithinGrow(before, env, settings.maxFetchBytes, TotalBytes(old(tempDir.files)));
      envs := before + [env];
    }

    /**
     The next slice, or why there is none.  The call is one pull of the machine, answered by the
     returned environments, and it ends whatever they are, without the runtime limit.  It issues no
     request once intent is durable, and never more than a poll's for each of its iterations.
     */
    method NextSlice() returns (outcome: Outcome, ghost envs: seq<Env>)
      requires connected && !closed && CancelHonest()
      modifies `cachedCancelRequested, `cancelCheckSkipBudget, `stopReason, storage`cancelRequested
      modifies `terminalFailureReason, `requested, `reconnectAttemptCount, `reconnectBudgetExhaustionCount
      modifies queue, `playlistRefreshCount, `sawEndlist, `currentPollIntervalSec, `skippedReplayCount
      modifies `lastSeenMaxSequence, `idlePlaylistPolls, `mediaPlaylistUrl
      modifies tempDir`files, tempDir`peakFiles, tempDir`peakBytes
      ensures StopRecorded(outcome)
      ensures old(storage.cancelRequested) ==> !outcome.Produced?
      ensures Pull(settings, old(State()), envs, State(), outcome)
      ensures SegmentsWithin(envs, settings.maxFetchBytes, TotalBytes(old(tempDir.files)))
      ensures DirectoryAfter(old(tempDir.files), outcome)
      ensures PeaksAfter(old(tempDir.peakFiles), old(tempDir.peakBytes))
      ensures RequestsWithin(RequestsTo(|envs|, PollLimit()))
    {
      envs := [];
      while true
        invariant StopRecorded(Continue)
        invariant AllContinue(settings, old(State()), envs) && Trail(settings, old(State()), envs) == State()
        invariant tempDir.files == old(tempDir.files)
        invariant tempDir.peakFiles == old(tempDir.peakFiles) && tempDir.peakBytes == old(tempDir.peakBytes)
        invariant SegmentsWithin(envs, settings.maxFetchBytes, TotalBytes(old(tempDir.files)))
        invariant RequestsWithin(RequestsTo(|envs|, PollLimit()))
        decreases settings.maxPlaylistRefreshes - playlistRefreshCount
      {
        outcome, envs := TurnAfter(old(State()), envs);
        if !outcome.Continue? {
          return;
        }
      }
    }

    // ---- Life cycle ----------------------------------------------------------------------

    method ResetRuntimeState()
      modifies queue, `sawEndlist, `idlePlaylistPolls, `currentPollIntervalSec
      modifies `playlistRefreshCount, `skippedReplayCount, `reconnectAttemptCount, `reconnectBudgetExhaustionCount
      modifies `terminalFailureReason, `stopReason, `lastSeenMaxSequence, `cachedCancelRequested, `cancelCheckSkipBudget
      ensures State() == InitialLive(settings) && CancelView() == FRESH_CACHE && stopReason == None
    {
      queue.Reset();
      sawEndlist, idlePlaylistPolls, currentPollIntervalSec := false, 0, settings.pollIntervalSec;
      playlistRefreshCount, skippedReplayCount := 0, 0;
      reconnectAttemptCount, reconnectBudgetExhaustionCount := 0, 0;
      terminalFailureReason, stopReason, lastSeenMaxSequence := None, None, None;
      cachedCancelRequested, cancelCheckSkipBudget := false, 0;
    }

    /**
     Connect: start from an empty state and the keys the log gives, and merge the first playlist.
     Cancel intent seen here ends in a bare stop signal, which is not a loader failure.
     */
    method Connect()
      returns (result: ConnectResult, ghost first: Snapshot, logReadable: bool, ghost trail: seq<Fetch>)
      modifies this, queue, storage`cancelRequested, tempDir`files, tempDir`failedDeletes
      requires CancelHonest()
      ensures CancelHonest()
      ensures old(storage.cancelRequested) ==> storage.cancelRequested && !result.ConnectDone?
      ensures result.ConnectStopIteration? ==> storage.cancelRequested
      ensures result.ConnectFailed? ==> result.kind == FailureKind.Terminal
      ensures !result.ConnectDone? || (connected && !closed && stopReason == None)
      ensures !result.ConnectDone? || State() == Refresh(settings, InitialLive(settings), first)
      ensures !result.ConnectDone? || persistedKeys == if logReadable then KeySet(storage.SeenLog()) else {}
      ensures result.ConnectDone? && tempDir.failedDeletes == 0 ==> tempDir.files == map[]
      ensures old(tempDir.failedDeletes) <= tempDir.failedDeletes
      ensures Asks(old(requested), trail, requested) && FollowsVariants(rules, settings.source, trail)
      ensures !result.ConnectDone? || EndsInMedia(rules, trail, mediaPlaylistUrl, Some(first))
      ensures RequestsWithin(PollLimit())
    {
      first, logReadable, trail := Snapshot([], false, None), true, [];
      var validUrl: bool := *;
      if !validUrl {
        return ConnectCrashed(ValueError), first, logReadable, trail;
      }
      var crash;
      crash, logReadable := StartOver();
      if crash.Some? {
        return ConnectCrashed(crash.value), first, logReadable, trail;
      }
      result, first, trail := MergeFirstPlaylist();
    }

    // Start from an empty directory and state, with the keys of the log.
    method StartOver() returns (crash: Option<Crash>, logReadable: bool)
      modifies queue, `sawEndlist, `idlePlaylistPolls, `currentPollIntervalSec
      modifies `playlistRefreshCount, `skippedReplayCount, `reconnectAttemptCount, `reconnectBudgetExhaustionCount
      modifies `terminalFailureReason, `stopReason, `lastSeenMaxSequence, `cachedCancelRequested, `cancelCheckSkipBudget
      modifies `closed, `persistedKeys, tempDir`files, tempDir`failedDeletes
      ensures State() == InitialLive(settings) && CancelView() == FRESH_CACHE && stopReason == None && !closed
      ensures crash.None? ==> persistedKeys == if logReadable then KeySet(storage.SeenLog()) else {}
      ensures tempDir.failedDeletes == 0 ==> tempDir.files == map[]
      ensures old(tempDir.failedDeletes) <= tempDir.failedDeletes
    {
      logReadable := true;
      var emptied := tempDir.Clear();
      ResetRuntimeState();
      closed := false;
      crash := *;
      if crash.None? {
        persistedKeys, logReadable := storage.ReadSeenKeys();
      }
    }

    // Resolve the source and merge its first playlist.
    method MergeFirstPlaylist() returns (result: ConnectResult, ghost first: Snapshot, ghost trail: seq<Fetch>)
      requires CancelHonest()
      modifies `cachedCancelRequested, `cancelCheckSkipBudget, `stopReason, storage`cancelRequested
      modifies `terminalFailureReason, `requested, `reconnectAttemptCount, `reconnectBudgetExhaustionCount
      modifies queue, `playlistRefreshCount, `sawEndlist, `currentPollIntervalSec, `skippedReplayCount
      modifies `lastSeenMaxSequence, `idlePlaylistPolls, `mediaPlaylistUrl, `connected
      ensures IntentKept(result.ConnectStopIteration?)
      ensures old(storage.cancelRequested) ==> result.ConnectStopIteration? || result.ConnectCrashed?
      ensures result.ConnectFailed? ==> result.kind == FailureKind.Terminal
      ensures result.ConnectDone? ==> connected
      ensures result.ConnectDone? ==> State() == Refresh(settings, old(State()), first)
      ensures Asks(old(requested), trail, requested) && FollowsVariants(rules, settings.source, trail)
      ensures !result.ConnectDone? || EndsInMedia(rules, trail, mediaPlaylistUrl, Some(first))
      ensures RequestsWithin(PollLimit())
    {
      var resolved;
      resolved, trail := ResolveMediaPlaylist(settings.source, false);
      result, first := MergeResolved(resolved, trail);
    }

    // Merge the first playlist if the source was resolved to one.
    method MergeResolved(resolved: ResolveResult, ghost trail: seq<Fetch>)
      returns (result: ConnectResult, ghost first: Snapshot)
      requires trail != [] && Resolves(rules, trail, false, resolved)
      modifies queue, `playlistRefreshCount, `sawEndlist, `currentPollIntervalSec, `skippedReplayCount
      modifies `lastSeenMaxSequence, `idlePlaylistPolls, `mediaPlaylistUrl, `connected
      ensures result.ConnectStopIteration? <==> resolved.ResolveCancelled?
      ensures result.ConnectCrashed? <==> resolved.ResolveCrashed?
      ensures result.ConnectFailed? ==>
                result.kind == FailureKind.Terminal || resolved == ResolveFailed(result.kind, result.message)
      ensures result.ConnectDone? ==> connected
      ensures result.ConnectDone? ==> State() == Refresh(settings, old(State()), first)
      ensures !result.ConnectDone? || EndsInMedia(rules, trail, mediaPlaylistUrl, Some(first))
    {
      first := Snapshot([], false, None);
      match resolved {
        case ResolveCancelled =>
          result := ConnectStopIteration;
        case ResolveCrashed(crash) =>
          result := ConnectCrashed(crash);
        case ResolveFailed(kind, message) =>
          result := ConnectFailed(kind, message);
        case Resolved(url, text) =>
          mediaPlaylistUrl := url;
          var merged := RefreshFromText(text, url);
          if merged.Some? {
            first := merged.value;
            connected := true;
            result := ConnectDone;
          } else {
            result := ConnectFailed(FailureKind.Terminal, "api_stream media playlist is malformed");
          }
      }
    }

    function TelemetrySnapshot(): Telemetry
      reads this
    {
      if closed then lastTelemetry
      else Telemetry(playlistRefreshCount, |persistedKeys|, skippedReplayCount, reconnectAttemptCount,
                     reconnectBudgetExhaustionCount, terminalFailureReason, stopReason)
    }

    function AcceptedSliceCount(): nat
      reads this
    {
      |persistedKeys|
    }

    /** Closing forgets the run but not its telemetry: the stop reason survives. */
    method Close()
      modifies this, queue
      ensures closed && !connected && State() == InitialLive(settings) && persistedKeys == {}
      ensures TelemetrySnapshot() == old(TelemetrySnapshot())
      ensures CancelHonest()
      ensures requested == old(requested)
    {
      lastTelemetry := TelemetrySnapshot();
      connected := false;
      persistedKeys := {};
      ResetRuntimeState();
      closed := true;
    }

    /** Write an accepted key ahead to the durable log; a key already persisted is not written again. */
    method PersistIdentityKey(key: IdentityKey) returns (stored: bool, ghost reply: AppendReply)
      modifies `persistedKeys, storage`seenLines, storage`seenTail
      ensures stored <==> reply == Written
      ensures reply != DiedAfterWrite && (reply.Torn? ==> !reply.died)
      ensures persistedKeys == old(persistedKeys) + if stored then {key} else {}
      ensures storage.SeenLog() == if key in old(persistedKeys) then old(storage.SeenLog())
                                   else old(storage.SeenLog()).After(key, reply)
      ensures key in old(persistedKeys) ==> stored
    {
      if key in persistedKeys {
        return true, Written;
      }
      stored, reply := storage.AppendSeenKey(key);
      if stored {
        persistedKeys := persistedKeys + {key};
      }
    }
  }
}
