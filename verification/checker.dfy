/** The per-variant monitor: classifying one segment fetch, retrying it with
    error counting, and the cursor update of one polling tick.

    HTTP is not modelled: a fetch is described by a `Response` (what
    `http.Get` and `io.ReadAll` produced), a retried check by the responses
    of its successive attempts, and a tick by the playlist body it fetched. */
module Checker {
  import opened Wrappers
  import opened UInt64
  import opened Strs
  import opened Plist
  import opened PlistProps

  /** The outcome of checking one segment. */
  datatype CheckSegmentResult =
    | CheckOK
    | CheckClientError
    | CheckServerError
    | CheckProtocolError
    | CheckEmptySegmentError

  /** Reading a response body: an error, or the number of bytes read. */
  datatype BodyRead = ReadFailed | ReadBytes(length: nat)

  /** One GET: a transport failure, or a status code and the body read. */
  datatype Response = TransportFailure | Received(statusCode: int, body: BodyRead)

  /** The monitor of one variant: its playlist URL, the highest media
      sequence number seen so far, and one counter per kind of failed check. */
  datatype Checker = Checker(
    url: string,
    currentMediaSequence: u64,
    clientErrorCount: u64,
    serverErrorCount: u64,
    protocolErrorCount: u64,
    emptySegmentErrorCount: u64)

  // ---------------------------------------------------------------------------
  // Checking one segment
  // ---------------------------------------------------------------------------

  /** `CheckSegment`: a transport failure is a protocol error; otherwise a
      status above 500 is a server error and one from 401 to 500 (500
      included) a client error, without reading the body; any status up to
      400 (400 and redirects included) leads to the body, where a read error
      is a protocol error, an empty body an empty-segment error and anything
      else success. */
  function CheckSegment(resp: Response): (r: CheckSegmentResult)
    ensures r == CheckProtocolError <==> resp.TransportFailure? || (resp.statusCode <= 400 && resp.body.ReadFailed?)
    ensures r == CheckServerError <==> resp.Received? && resp.statusCode > 500
    ensures r == CheckClientError <==> resp.Received? && 400 < resp.statusCode <= 500
    ensures r == CheckEmptySegmentError <==> resp.Received? && resp.statusCode <= 400 && resp.body == ReadBytes(0)
    ensures r == CheckOK <==> resp.Received? && resp.statusCode <= 400 && resp.body.ReadBytes? && resp.body.length > 0
  {
    match resp
    case TransportFailure => CheckProtocolError
    case Received(status, body) =>
      if status > 500 then CheckServerError
      else if status > 400 then CheckClientError
      else
        match body
        case ReadFailed => CheckProtocolError
        case ReadBytes(n) => if n == 0 then CheckEmptySegmentError else CheckOK
  }

  /** Above 400 only the status matters, and the body is never looked at; up
      to 400 only the body matters, every such status counting as success. */
  lemma StatusBands(status: int, b1: BodyRead, b2: BodyRead)
    ensures status > 400 ==> CheckSegment(Received(status, b1)) == CheckSegment(Received(status, b2))
    ensures status <= 400 ==> CheckSegment(Received(status, b1)) == CheckSegment(Received(200, b1))
  {
  }

  // ---------------------------------------------------------------------------
  // Counting failures
  // ---------------------------------------------------------------------------

  /** The counter that records failed checks of kind `kind`. */
  function ErrorCount(c: Checker, kind: CheckSegmentResult): u64
    requires kind != CheckOK
  {
    match kind
    case CheckClientError => c.clientErrorCount
    case CheckServerError => c.serverErrorCount
    case CheckProtocolError => c.protocolErrorCount
    case CheckEmptySegmentError => c.emptySegmentErrorCount
  }

  /** The `switch` after the retries: the final result's counter goes up by
      one (wrapping at 2^64, as Go's `++` does), success counts nothing, and
      the URL, the cursor and every other counter are left alone. */
  function Record(c: Checker, result: CheckSegmentResult): (r: Checker)
    ensures r.url == c.url && r.currentMediaSequence == c.currentMediaSequence
    ensures forall kind | kind != CheckOK ::
              ErrorCount(r, kind) == if kind == result then Inc64(ErrorCount(c, kind)) else ErrorCount(c, kind)
    ensures result == CheckOK ==> r == c
  {
    match result
    case CheckOK => c
    case CheckClientError => c.(clientErrorCount := Inc64(c.clientErrorCount))
    case CheckServerError => c.(serverErrorCount := Inc64(c.serverErrorCount))
    case CheckProtocolError => c.(protocolErrorCount := Inc64(c.protocolErrorCount))
    case CheckEmptySegmentError => c.(emptySegmentErrorCount := Inc64(c.emptySegmentErrorCount))
  }

  /** The number of attempts a segment gets. */
  const NumRetries: nat := 3

  /** `RetryCheckSegment`: checks the segment up to three times, stopping at
      the first success, then records the final result. `respond(i)` is the
      response to the `i`-th attempt (counted from zero). It returns the
      updated checker, the final result and the number of attempts made. */
  method RetryCheckSegment(c: Checker, respond: nat -> Response)
    returns (c': Checker, result: CheckSegmentResult, attempts: nat)
    ensures 1 <= attempts <= NumRetries
    ensures result == CheckSegment(respond(attempts - 1))
    ensures forall i | 0 <= i < attempts - 1 :: CheckSegment(respond(i)) != CheckOK
    ensures result != CheckOK ==> attempts == NumRetries
    ensures result == CheckOK <==> exists i | 0 <= i < NumRetries :: CheckSegment(respond(i)) == CheckOK
    ensures c' == Record(c, result)
  {
    result := CheckOK;
    attempts := 0;
    var numRetries := NumRetries;
    while numRetries > 0
      invariant attempts + numRetries == NumRetries
      invariant forall i | 0 <= i < attempts :: CheckSegment(respond(i)) != CheckOK
      invariant attempts > 0 ==> result == CheckSegment(respond(attempts - 1))
      decreases numRetries
    {
      result := CheckSegment(respond(attempts));
      attempts := attempts + 1;
      if result == CheckOK {
        break;
      }
      numRetries := numRetries - 1;
    }
    c' := Record(c, result);
  }

  // ---------------------------------------------------------------------------
  // One polling tick
  // ---------------------------------------------------------------------------

  /** The loop over a freshly parsed playlist's entries: an entry whose
      number is not above the cursor is skipped, any other moves the cursor
      to its number. The result is the largest of the cursor and all the
      entries' numbers. */
  function AdvanceCursor(cursor: u64, entries: seq<Entry>): (r: u64)
    ensures cursor <= r
    ensures forall k | 0 <= k < |entries| :: entries[k].mediaSequence <= r
    ensures r == cursor || exists k | 0 <= k < |entries| :: entries[k].mediaSequence == r
    decreases |entries|
  {
    if |entries| == 0 then cursor
    else
      var before := AdvanceCursor(cursor, entries[..|entries| - 1]);
      var seg := entries[|entries| - 1];
      if seg.mediaSequence <= before then before else seg.mediaSequence
  }

  /** The body of `Loop` for one tick, after the fetch: `None` stands for a
      failed fetch or parse, which skips the tick. Otherwise only the cursor
      changes; no segment is checked and no counter moves. */
  function Cycle(c: Checker, polled: Option<seq<Entry>>): (r: Checker)
    ensures polled.None? ==> r == c
    ensures r == c.(currentMediaSequence := r.currentMediaSequence)
    ensures polled.Some? ==> r.currentMediaSequence == AdvanceCursor(c.currentMediaSequence, polled.value)
  {
    match polled
    case None => c
    case Some(entries) => c.(currentMediaSequence := AdvanceCursor(c.currentMediaSequence, entries))
  }

  /** Polling the same playlist twice in a row changes nothing the second
      time: every entry has been seen. */
  lemma CycleIdempotent(c: Checker, polled: Option<seq<Entry>>)
    ensures Cycle(Cycle(c, polled), polled) == Cycle(c, polled)
  {
  }

  /** A sequence of ticks, oldest first. */
  function Cycles(c: Checker, polls: seq<Option<seq<Entry>>>): Checker
    decreases |polls|
  {
    if |polls| == 0 then c else Cycle(Cycles(c, polls[..|polls| - 1]), polls[|polls| - 1])
  }

  /** Across any number of ticks the cursor never decreases, and nothing but
      the cursor ever changes. */
  lemma {:induction false} CyclesMonotone(c: Checker, polls: seq<Option<seq<Entry>>>, i: nat)
    requires i <= |polls|
    ensures Cycles(c, polls[..i]).currentMediaSequence <= Cycles(c, polls).currentMediaSequence
    ensures Cycles(c, polls) == c.(currentMediaSequence := Cycles(c, polls).currentMediaSequence)
    decreases |polls|
  {
    if i == |polls| {
      assert polls[..i] == polls;
    }
    if |polls| > 0 {
      var init := polls[..|polls| - 1];
      if i < |polls| {
        assert init[..i] == polls[..i];
        CyclesMonotone(c, init, i);
      } else {
        CyclesMonotone(c, init, 0);
      }
    }
  }

  /** One tick from the fetched playlist body (`None` when the GET or the body
      read failed): the body is parsed against the checker's URL, and a parse
      error skips the tick like a fetch error does. */
  function Tick(env: Env, c: Checker, fetched: Option<string>): (r: Checker)
    ensures fetched.None? ==> r == c
    ensures fetched.Some? && Parse(env, c.url, fetched.value).Failure? ==> r == c
    ensures fetched.Some? && Parse(env, c.url, fetched.value).Success? ==>
              r == Cycle(c, Some(Parse(env, c.url, fetched.value).value.entries))
  {
    var polled :=
      match fetched
      case None => None
      case Some(text) =>
        match Parse(env, c.url, text)
        case Failure(_) => None
        case Success(pl) => Some(pl.entries);
    Cycle(c, polled)
  }

  /** A body in which no line starts with `#EXTM3U` is never accepted, so a
      tick that fetches it leaves the checker as it was. */
  lemma TickHeaderless(env: Env, c: Checker, text: string)
    requires forall i | 0 <= i < |Split(text, '\n')| :: !HasPrefix(Split(text, '\n')[i], "#EXTM3U")
    ensures Tick(env, c, Some(text)) == c
  {
    ParseNotExtM3U(env, c.url, text);
    ParseErrorPrecedence(env, c.url, text);
  }
}
