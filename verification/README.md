# hlscheck core in Dafny

This project models the two core pieces of hlscheck, an HLS live-stream monitor.

The first piece is the M3U8 playlist parser (`plist` package). It turns the text of a playlist into a
`Plist`, which holds:
- a kind, master or variant;
- an ordered list of `Entry` values;
- a media-sequence cursor;
- a target duration.

The parser reads `#EXTM3U`, `#EXT-X-STREAM-INF`, `#EXTINF`, `#EXT-X-MEDIA-SEQUENCE` and
`#EXT-X-TARGETDURATION` (a subset of RFC 8216, sections 4.3.1.1, 4.3.4.2, 4.3.2.1, 4.3.3.2 and
4.3.3.1). It resolves relative references against the playlist URL and numbers the entries
positionally.

The second piece is the per-variant checker (`checker` package). It covers:
- how one segment fetch is classified;
- the retry of a failed segment check, and the error counters it updates;
- what one polling tick of `Loop` does to the checker's media-sequence cursor.

Modules, one file each:

- `Wrappers` (`wrappers.dfy`): `Option` and `Result`, used for Go's `(value, error)` returns.
- `UInt64` (`uint64.dfy`): Go's `uint64`, covering:
  - the wrap-around increment `Inc64` (Go's `x += 1` and `x++`);
  - `strconv.ParseUint(s, 10, 64)`, modelled exactly as `ParseUint`;
  - its inverse `FormatUint`.
- `Strs` (`strs.dfy`): the Go `strings` functions the parser uses, and one reference definition:
  - `HasPrefix` and `Join`, plain definitions;
  - `CutPrefix`, `Split` and `Trim`, each characterised by its contract;
  - `Cut`, which the parser never calls. It is an independent reference for "the text before and
    after the first separator". `SplitHeadTail` relates it to `Split` followed by rejoining the tail,
    which is how the parser reads attributes and EXTINF tags (plist/plist.go:77-83, 110-123).
- `Plist` (`plist.dfy`): the data model and the parser.
  - `Step` is one iteration of the parser's loop.
  - `Run` is the loop as a left fold over the lines; an error stops it and carries the zero-based
    index of the failing line.
  - `Parse` adds the URL handling and the final header check.
  - `ParseLoop` is the same algorithm written as the imperative loop, and is proved equal to `Parse`.
- `PlistProps` (`plist_props.dfy`): what the parser guarantees over whole texts:
  - error precedence;
  - the header check;
  - positional numbering;
  - kind inference;
  - the pending entry;
  - the exact meaning of the tag helpers.
- `Checker` (`checker.dfy`): the checker state and its operations:
  - `CheckSegment`, `Record` and `RetryCheckSegment`;
  - `AdvanceCursor` and `Cycle`, the body of `Loop`;
  - `Tick`, a fetched body parsed and then cycled.

Calls into libraries and the outside world are parameters of the model:
- An `Env` carries three of them:
  - `url.Parse` followed by `path.Dir` (`baseUrl`);
  - `url.JoinPath` (`joinPath`);
  - which tokens `strconv.ParseFloat` accepts (`parsesAsFloat`).
- A `Response` is the outcome of `http.Get` plus `io.ReadAll`.
- A retried check receives the response to each attempt as a function `respond`.
- A tick receives the fetched playlist body, or `None` when the fetch failed.

A segment duration is kept as the token the float parser accepted, and `None` stands for Go's zero
value 0.0.

Where the code's comments promise more than its statements do, the model follows the statements:

- `Loop` is documented to "check the segments" (checker/checker.go:69), and its loop skips "segments
  that have already been checked" (checker/checker.go:84). It never calls `RetryCheckSegment`
  (checker/checker.go:83-90), though. A tick only moves the cursor, so no segment is checked and no
  counter changes; `Cycle` has no dispatch either.
- Parse errors carry `lineIdx` from the `range` loop over the split text (plist/plist.go:175, 194-230),
  so the line index is zero-based.
- `Entry.MediaSequence` is documented as "only valid for variant playlists" (plist/plist.go:45). Every
  completed entry, master entries included, is nevertheless stamped with the cursor, and the cursor
  is advanced (plist/plist.go:235-236).
- `CurrentMediaSequence` is documented as the number of the next segment, "incremented after each
  segment" (plist/plist.go:60). Within a parse it is not monotone, though: a media-sequence tag
  overwrites it, possibly with a smaller value (`MediaSequenceOverwrites`). Each reference increments
  it modulo 2^64.
- Status 500 counts as a client error, and status 400 leads to the body checks (`CheckSegment`,
  `StatusBands`). This follows the `> 500` and `> 400` tests as written (checker/checker.go:135-137).

## Model

| member | source | states |
|---|---|---|
| UInt64.Inc64 | plist/plist.go:236 | One more modulo 2^64, exactly one more below the maximum: Go's `+= 1` on the uint64 cursor |
| UInt64.ParseUint | plist/plist.go:136-139 | Accepts exactly non-empty ASCII-digit strings whose value is below 2^64, and returns that value |
| UInt64.ParseFormatRoundTrip | plist/plist.go:136-139 | Parsing the decimal spelling of n gives n back when n fits in 64 bits, and the range error otherwise |
| UInt64.ParseUintLeadingZero | plist/plist.go:136-139 | Zero-padding an accepted number is still accepted, with the same value |
| Strs.Split | plist/plist.go:73 | At least one piece, no piece contains the separator, and joining the pieces back gives the input |
| Strs.SplitJoin | plist/plist.go:73 | Split inverts Join on non-empty lists of separator-free pieces |
| Strs.SplitHeadTail | plist/plist.go:77-83 | The first piece of a split is the text before the first separator; the rest, rejoined, is exactly the text after it |
| Strs.FirstSeparatorUnique | plist/plist.go:77-83 | A text splits at its first separator in only one way |
| Strs.CutPrefix | plist/plist.go:69-72 | Succeeds exactly when the prefix is present, and prefix plus rest rebuilds the input |
| Strs.Trim | plist/plist.go:93 | The result is a substring of the input, with only cutset characters around it and no cutset character at either end |
| Plist.SplitAttribute | plist/plist.go:77-83 | An attribute has a name and value exactly when it contains `=`; the name has no `=`, and name, `=` and value rebuild the attribute |
| Plist.SplitAttributeOf | plist/plist.go:77-83 | Splitting `name=value` gives back name and value whenever the name has no `=` |
| Plist.ApplyAttribute | plist/plist.go:77-94 | One attribute fails exactly when it lacks `=` (malformed) or is a BANDWIDTH that does not parse (bad bandwidth); only bandwidth and codecs change |
| Plist.ApplyAttributes | plist/plist.go:76-95 | The attribute loop changes only bandwidth and codecs, never forgets a seen BANDWIDTH, and fails only with the two attribute errors |
| Plist.ParseStreamInfTag | plist/plist.go:68-102 | Without the `EXT-X-STREAM-INF:` prefix the tag is malformed; on success only bandwidth and codecs are set |
| Plist.ParseInfTag | plist/plist.go:105-127 | Without the `EXTINF:` prefix the tag is malformed; on success the duration is a token the float parser accepts, and bandwidth, codecs, number and URL are untouched |
| Plist.ParseMediaSequenceTag | plist/plist.go:130-144 | Succeeds exactly when the prefix is present and the value is a uint64; the error names which check failed; success overwrites the cursor with the value and nothing else |
| Plist.ParseTargetDurationTag | plist/plist.go:147-161 | Succeeds exactly when the prefix is present and the value is a uint64; the error names which check failed; success overwrites the target duration and nothing else |
| Plist.Classify | plist/plist.go:176-222 | A line is blank exactly when it is empty, and a reference exactly when it is non-empty and does not start with `#` |
| Plist.KnownTagsDisjoint | plist/plist.go:186-213 | The five known tag names all start with `EXT`, and no tag starts with two of them, so the order of the tests does not matter |
| Plist.ClassifyByPrefix | plist/plist.go:176-215 | Each kind of line is recognised by its raw prefix: comments by `#` without `#EXT`, the header and each known tag by `#` plus the tag name |
| Plist.ResolveReference | plist/plist.go:224-232 | A reference starting with `http` is kept verbatim; any other is joined onto the base URL, and a failed join is an error |
| Plist.StepInert | plist/plist.go:176-222 | Comments, blank lines and unknown `#EXT` tags change no state at all |
| Plist.StepHeader | plist/plist.go:186-187 | The header tag sets the header flag, and no other line changes it |
| Plist.StepReference | plist/plist.go:224-240 | A reference appends the pending entry with its resolved URL and the cursor's number, advances the cursor by one, resets the pending entry, and fails only on a failed join |
| Plist.StepKeepsEntries | plist/plist.go:176-222 | Lines other than references never touch the entries, and only a media-sequence tag moves the cursor |
| Plist.StepMediaSequence | plist/plist.go:204-209 | A media-sequence line does exactly what its tag helper does to the playlist |
| Plist.StepKindAndPending | plist/plist.go:188-203 | STREAM-INF makes the playlist master and EXTINF makes it variant; each replaces the pending entry; no other line touches the kind |
| Plist.ParseLoop | plist/plist.go:164-248 | The loop with its early returns computes exactly the fold-based `Parse` |
| Plist.RunStopsAtFailure | plist/plist.go:175-241 | Once a line fails, the whole parse fails with that line's index and cause, whatever follows |
| PlistProps.RunFailureIsFirstFailingLine | plist/plist.go:175-241 | Every loop failure is a line error at the first line whose step fails; all earlier lines succeeded |
| PlistProps.ParseNotExtM3U | plist/plist.go:243-245 | "Not extended M3U" is reported exactly when the URL and every line were fine and no line starts with `#EXTM3U`, wherever the header would have been |
| PlistProps.ParseErrorPrecedence | plist/plist.go:164-248 | A bad URL comes before everything; otherwise a failing run is returned as its own error, the first failing line with its index; a successful parse saw the header and returns the loop's playlist |
| PlistProps.HeaderSeen | plist/plist.go:185-187 | After a successful loop the header flag is set exactly when some line is the header tag |
| PlistProps.AdvanceMod | plist/plist.go:236 | n wrap-around increments add n modulo 2^64 |
| PlistProps.NumberedFromStep | plist/plist.go:234-240 | Any line other than a media-sequence tag continues a consecutive numbering, extending it by one entry for a reference |
| PlistProps.SequenceNumbering | plist/plist.go:234-240 | From cursor S, M references with no media-sequence tag between get numbers S, S+1, ..., S+M-1 and leave the cursor at S+M (mod 2^64); earlier entries are untouched |
| PlistProps.NumberingFromZero | plist/plist.go:234-240 | Without a media-sequence tag the entries are numbered 0, 1, 2, ... in source order, and the cursor ends at the entry count |
| PlistProps.MediaSequenceTagRoundTrip | plist/plist.go:130-144 | Writing a uint64 into the media-sequence tag and parsing it back sets the cursor to that number |
| PlistProps.TargetDurationTagRoundTrip | plist/plist.go:147-161 | Writing a uint64 into the target-duration tag and parsing it back sets the target duration to that number |
| PlistProps.MediaSequenceOverwrites | plist/plist.go:204-209 | A media-sequence line overwrites the cursor with its value, even a smaller one, and changes nothing else |
| PlistProps.KindIsLastTag | plist/plist.go:188-203 | After a successful loop the playlist is master exactly when some STREAM-INF tag comes after every EXTINF tag |
| PlistProps.PendingReachesReference | plist/plist.go:224-240 | A reference completes the entry pending before the lines in between, provided those lines neither open nor complete an entry |
| PlistProps.PendingUnchanged | plist/plist.go:176-222 | Lines other than STREAM-INF, EXTINF and references leave the pending entry alone |
| PlistProps.PendingResetAfterReference | plist/plist.go:240 | At the start and right after a reference nothing is pending |
| PlistProps.UntaggedReferenceIsBare | plist/plist.go:234-240 | A reference with no STREAM-INF or EXTINF since the previous reference has zero bandwidth, no codecs, no duration and no extra information |
| PlistProps.StreamInfReachesReference | plist/plist.go:188-195 | The reference after a STREAM-INF tag carries that tag's bandwidth and codecs |
| PlistProps.ApplyAttributesAccepts | plist/plist.go:76-90 | The attribute loop succeeds exactly when every attribute has `=` and every BANDWIDTH value is a uint64 |
| PlistProps.ApplyAttributesBandwidth | plist/plist.go:84-91 | The last BANDWIDTH attribute decides the bandwidth, and whether one was seen is reported |
| PlistProps.ApplyAttributesCodecs | plist/plist.go:92-93 | The last CODECS attribute decides the codecs, with quotes and spaces trimmed |
| PlistProps.ApplyAttributesError | plist/plist.go:76-90 | The first unusable attribute decides the error: malformed when it lacks `=`, bad bandwidth otherwise |
| PlistProps.StreamInfTagSpec | plist/plist.go:68-102 | STREAM-INF is accepted exactly when prefixed, all attributes are usable and a BANDWIDTH is present; missing bandwidth is reported exactly when only that fails; the last values win |
| PlistProps.StreamInfBandwidthRoundTrip | plist/plist.go:68-102 | A tag written as `EXT-X-STREAM-INF:BANDWIDTH=<n>` parses back to bandwidth n, with the rest of the entry unchanged |
| PlistProps.QuotedCommaRejected | plist/plist.go:73-80 | A comma inside a quoted CODECS value splits the list and makes the tag malformed |
| PlistProps.InfTagAccepts | plist/plist.go:105-118 | EXTINF is accepted exactly when prefixed and the text before the first comma is a float; a malformed prefix and a bad duration are reported as such |
| PlistProps.InfTagFields | plist/plist.go:109-124 | An accepted EXTINF has the text before the first comma as duration and exactly the text after that comma as extra information, touches nothing else, and reads back from duration and extra |
| Checker.CheckSegment | checker/checker.go:128-150 | Protocol error on transport failure or a failed body read; server error above 500; client error from 401 to 500; empty-segment error for an empty body; OK only for a non-empty body with status at most 400 |
| Checker.StatusBands | checker/checker.go:135-149 | Above 400 the body is never looked at; at or below 400 every status counts alike |
| Checker.Record | checker/checker.go:109-124 | Exactly the final result's counter goes up by one (mod 2^64); OK counts nothing; URL, cursor and other counters are unchanged |
| Checker.RetryCheckSegment | checker/checker.go:95-125 | One to three attempts, stopping at the first OK; the result is OK exactly when one of the first three attempts is, and is otherwise the third attempt's result; that result is recorded |
| Checker.AdvanceCursor | checker/checker.go:83-90 | The cursor after the entry loop is the largest of the old cursor and every entry's number |
| Checker.Cycle | checker/checker.go:77-90 | A failed fetch or parse changes nothing; otherwise only the cursor changes, to the maximum above |
| Checker.CycleIdempotent | checker/checker.go:83-90 | Polling the same playlist twice in a row changes nothing the second time |
| Checker.CyclesMonotone | checker/checker.go:74-91 | Across any number of ticks the cursor never decreases, and nothing but the cursor changes |
| Checker.Tick | checker/checker.go:77-90 | A tick parses the fetched body against the checker URL; fetch or parse failure leaves the checker unchanged, success cycles over the parsed entries |
| Checker.TickHeaderless | checker/checker.go:77-81 | A fetched body with no `#EXTM3U` line is always rejected, so the tick changes nothing |

## Left out

- `FetchAndParse` (plist/plist.go:251-264): its HTTP GET and body read are I/O. `Tick` takes the body
  it would have read, or `None` for either failure. It does not look at the playlist's HTTP status,
  and neither does the model.
- `http.Get` and `io.ReadAll` in `CheckSegment`: network I/O, replaced by the `Response` datatype.
  The response body is represented only by its length.
- `url.Parse`, `path.Dir`, `url.String` and `url.JoinPath`: these are library calls, modelled as the
  partial functions `Env.baseUrl` and `Env.joinPath`. Their results are not constrained.
- `strconv.ParseFloat`: a floating-point parse, replaced by the predicate `Env.parsesAsFloat`. The
  accepted token is stored instead of the float value.
- Plist.ParseInfTag: the `len(attrList) == 0` branch (plist/plist.go:112-114) is kept in the body. It
  is unreachable because `strings.Split` always returns at least one piece, so `MissingDuration` is
  never produced.
- `New` (checker/checker.go:58-67) is left out: it starts `Loop` in a goroutine on a copy of the
  struct, which is concurrency.
- The ticker, `time.Sleep` between attempts and all `slog` output in `Loop` and `RetryCheckSegment`
  are left out: they are timing and logging.
- `main.go` as a whole is left out: flag parsing, log files and signal handling are process set-up
  with no decisions of interest.
- Checker.RetryCheckSegment does not take the segment as a parameter. Its URL serves only the GET
  and the log lines, and the `respond` function stands for the GETs of that URL.
- The error strings of the parser are left out. Errors are the `TagError` and `ParseError`
  constructors, one per distinct message.
- Bytes that are not valid UTF-8: a Go `string` is a sequence of bytes, and the parsed body is
  `string(respBody)` (plist/plist.go:263), which may hold any bytes. The model's `string` is a
  sequence of Unicode characters, so it covers playlists that are valid UTF-8 text. Every decision
  the parser makes is on ASCII characters: the tag prefixes, `'\n'`, `,`, `=`, the `"` and space
  cutset, and the decimal digits. On valid UTF-8 the model's pieces are therefore exactly Go's.
