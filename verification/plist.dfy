/** The M3U8 playlist model and its line parser, a subset of RFC 8216:
    the `EXTM3U` header (section 4.3.1.1), `EXTINF` (section 4.3.2.1),
    `EXT-X-TARGETDURATION` (section 4.3.3.1), `EXT-X-MEDIA-SEQUENCE`
    (section 4.3.3.2) and `EXT-X-STREAM-INF` (section 4.3.4.2), with a
    simplified attribute-list syntax (quoted commas are not honoured).

    The parser is a left fold over the text's lines. `Step` is the body of
    the loop for one line, `Run` folds it over a list of lines and `Parse`
    adds the playlist URL and the end-of-pass header check; `ParseLoop` is the
    same algorithm written as the loop with early returns. */
module Plist {
  import opened Wrappers
  import opened UInt64
  import opened Strs

  /** The kind of a playlist; the zero value is `VariantPlist`. */
  datatype Type = VariantPlist | MasterPlist

  /** One referenced resource. Master entries use `bandwidthBps` and `codecs`,
      variant entries `durationSec` and `extraInfo`; every entry gets a
      `mediaSequence` and a `url`. The duration is kept as the token that the
      float parser accepted; `None` stands for the zero value 0.0. */
  datatype Entry = Entry(
    bandwidthBps: u64,
    codecs: string,
    mediaSequence: u64,
    durationSec: Option<string>,
    extraInfo: string,
    url: string)

  const ZeroEntry: Entry := Entry(0, "", 0, None, "", "")

  /** A parsed playlist. `currentMediaSequence` is the number the next
      reference line will be stamped with. */
  datatype Plist = Plist(
    kind: Type,
    entries: seq<Entry>,
    currentMediaSequence: u64,
    targetDurationSec: u64)

  const ZeroPlist: Plist := Plist(VariantPlist, [], 0, 0)

  /** The reasons a single tag or reference line is rejected. */
  datatype TagError =
    | MalformedStreamInfTag
    | MalformedAttribute
    | BadBandwidth
    | MissingBandwidth
    | MalformedInfTag
    | MissingDuration
    | BadDuration
    | MalformedMediaSequenceTag
    | BadMediaSequence
    | MalformedTargetDurationTag
    | BadTargetDuration
    | JoinFailed

  /** A parse failure: the playlist URL does not parse, a line (counted from
      zero) is rejected, or no `#EXTM3U` header was seen. */
  datatype ParseError =
    | BadPlaylistUrl
    | LineError(line: nat, cause: TagError)
    | NotExtM3U

  /** The library calls the parser makes, as parameters: `baseUrl` parses the
      playlist URL and drops the last path component (`url.Parse`, `path.Dir`),
      `joinPath` is `url.JoinPath`, and `parsesAsFloat` tells which tokens
      `strconv.ParseFloat(_, 64)` accepts. `None` is a failure. */
  datatype Env = Env(
    baseUrl: string -> Option<string>,
    joinPath: (string, string) -> Option<string>,
    parsesAsFloat: string -> bool)

  // ---------------------------------------------------------------------------
  // Tag helpers
  // ---------------------------------------------------------------------------

  const CodecsCutset: set<char> := {'"', ' '}

  /** One `NAME=VALUE` attribute, split at every `=`: the name is the first
      piece and the value all the others joined back with `=`, which is to
      say the name is the text before the first `=` and the value all the
      text after it. */
  function SplitAttribute(attr: string): (r: Option<(string, string)>)
    ensures r.Some? <==> '=' in attr
    ensures r.Some? ==> '=' !in r.value.0 && attr == r.value.0 + "=" + r.value.1
  {
    SplitHeadTail(attr, '=');
    var attrSplit := Split(attr, '=');
    if |attrSplit| < 2 then None else Some((attrSplit[0], Join(attrSplit[1..], '=')))
  }

  /** One iteration of the attribute loop of `parseStreamInfTag`: the entry
      so far and whether `BANDWIDTH` was seen, updated by one attribute. */
  function ApplyAttribute(e: Entry, bandwidthPresent: bool, attr: string): (r: Result<(Entry, bool), TagError>)
    ensures r.Success? <==> SplitAttribute(attr).Some?
                            && (SplitAttribute(attr).value.0 == "BANDWIDTH" ==> ParseUint(SplitAttribute(attr).value.1).Some?)
    ensures r.Failure? ==> r.error == (if SplitAttribute(attr).None? then MalformedAttribute else BadBandwidth)
    ensures r.Success? ==> r.value.0 == e.(bandwidthBps := r.value.0.bandwidthBps, codecs := r.value.0.codecs)
  {
    match SplitAttribute(attr)
    case None => Failure(MalformedAttribute)
    case Some((name, value)) =>
      if name == "BANDWIDTH" then
        match ParseUint(value)
        case None => Failure(BadBandwidth)
        case Some(bandwidth) => Success((e.(bandwidthBps := bandwidth), true))
      else if name == "CODECS" then
        Success((e.(codecs := Trim(value, CodecsCutset)), bandwidthPresent))
      else
        Success((e, bandwidthPresent))
  }

  /** Splitting a written-out attribute gives back its name and value,
      whatever the value contains, provided the name has no `=`. */
  lemma SplitAttributeOf(name: string, value: string)
    requires '=' !in name
    ensures SplitAttribute(name + "=" + value) == Some((name, value))
  {
    var attr := name + "=" + value;
    assert attr[|name|] == '=';
    var r := SplitAttribute(attr).value;
    FirstSeparatorUnique(r.0, r.1, name, value, '=');
  }

  /** The attribute loop: the attributes of an `EXT-X-STREAM-INF` tag applied
      left to right, stopping at the first bad one. */
  function ApplyAttributes(e: Entry, attrs: seq<string>, bandwidthPresent: bool): (r: Result<(Entry, bool), TagError>)
    ensures r.Success? ==> r.value.0 == e.(bandwidthBps := r.value.0.bandwidthBps, codecs := r.value.0.codecs)
    ensures r.Success? ==> (bandwidthPresent ==> r.value.1)
    ensures r.Failure? ==> r.error == MalformedAttribute || r.error == BadBandwidth
    decreases |attrs|
  {
    if |attrs| == 0 then Success((e, bandwidthPresent))
    else
      var (e', present') :- ApplyAttribute(e, bandwidthPresent, attrs[0]);
      ApplyAttributes(e', attrs[1..], present')
  }

  /** `parseStreamInfTag`: reads the comma-separated attribute list of an
      `EXT-X-STREAM-INF:` tag (without its `#`) into `e`. */
  function ParseStreamInfTag(e: Entry, tag: string): (r: Result<Entry, TagError>)
    ensures !HasPrefix(tag, "EXT-X-STREAM-INF:") ==> r == Failure(MalformedStreamInfTag)
    ensures r.Success? ==> (r.value.mediaSequence == e.mediaSequence && r.value.durationSec == e.durationSec
                            && r.value.extraInfo == e.extraInfo && r.value.url == e.url)
  {
    match CutPrefix(tag, "EXT-X-STREAM-INF:")
    case None => Failure(MalformedStreamInfTag)
    case Some(attrListStr) =>
      var applied :- ApplyAttributes(e, Split(attrListStr, ','), false);
      if !applied.1 then Failure(MissingBandwidth) else Success(applied.0)
  }

  /** `parseInfTag`: reads `EXTINF:<duration>[,<extra>]` (without its `#`)
      into `e`. */
  function ParseInfTag(env: Env, e: Entry, tag: string): (r: Result<Entry, TagError>)
    ensures !HasPrefix(tag, "EXTINF:") ==> r == Failure(MalformedInfTag)
    ensures r.Success? ==> (r.value.bandwidthBps == e.bandwidthBps && r.value.codecs == e.codecs
                            && r.value.mediaSequence == e.mediaSequence && r.value.url == e.url)
    ensures r.Success? ==> r.value.durationSec.Some? && env.parsesAsFloat(r.value.durationSec.value)
  {
    match CutPrefix(tag, "EXTINF:")
    case None => Failure(MalformedInfTag)
    case Some(attrListStr) =>
      var attrList := Split(attrListStr, ',');
      if |attrList| == 0 then Failure(MissingDuration)
      else if !env.parsesAsFloat(attrList[0]) then Failure(BadDuration)
      else
        var timed := e.(durationSec := Some(attrList[0]));
        if |attrList| > 1 then Success(timed.(extraInfo := Join(attrList[1..], ','))) else Success(timed)
  }

  /** `parseMediaSequenceTag`: `EXT-X-MEDIA-SEQUENCE:<n>` overwrites the
      running sequence number with the decimal `n`, whatever it was before. */
  function ParseMediaSequenceTag(pl: Plist, tag: string): (r: Result<Plist, TagError>)
    ensures r.Success? <==> HasPrefix(tag, "EXT-X-MEDIA-SEQUENCE:")
                            && ParseUint(tag[|"EXT-X-MEDIA-SEQUENCE:"|..]).Some?
    ensures r.Failure? ==> r.error == (if HasPrefix(tag, "EXT-X-MEDIA-SEQUENCE:") then BadMediaSequence
                                       else MalformedMediaSequenceTag)
    ensures r.Success? ==> r.value == pl.(currentMediaSequence := ParseUint(tag[|"EXT-X-MEDIA-SEQUENCE:"|..]).value)
  {
    match CutPrefix(tag, "EXT-X-MEDIA-SEQUENCE:")
    case None => Failure(MalformedMediaSequenceTag)
    case Some(tagValue) =>
      match ParseUint(tagValue)
      case None => Failure(BadMediaSequence)
      case Some(mediaSequence) => Success(pl.(currentMediaSequence := mediaSequence))
  }

  /** `parseTargetDurationTag`: `EXT-X-TARGETDURATION:<n>` overwrites the
      target duration with the decimal `n`. */
  function ParseTargetDurationTag(pl: Plist, tag: string): (r: Result<Plist, TagError>)
    ensures r.Success? <==> HasPrefix(tag, "EXT-X-TARGETDURATION:")
                            && ParseUint(tag[|"EXT-X-TARGETDURATION:"|..]).Some?
    ensures r.Failure? ==> r.error == (if HasPrefix(tag, "EXT-X-TARGETDURATION:") then BadTargetDuration
                                       else MalformedTargetDurationTag)
    ensures r.Success? ==> r.value == pl.(targetDurationSec := ParseUint(tag[|"EXT-X-TARGETDURATION:"|..]).value)
  {
    match CutPrefix(tag, "EXT-X-TARGETDURATION:")
    case None => Failure(MalformedTargetDurationTag)
    case Some(tagValue) =>
      match ParseUint(tagValue)
      case None => Failure(BadTargetDuration)
      case Some(targetDurationSec) => Success(pl.(targetDurationSec := targetDurationSec))
  }

  // ---------------------------------------------------------------------------
  // Lines
  // ---------------------------------------------------------------------------

  /** How the parser treats a line, decided in the order the parser tests:
      a `#` line not starting `#EXT` is a comment; a `#EXT` line is one of the
      five known tags or an unknown one; an empty line is blank; anything
      else is a reference to a segment or a variant playlist. */
  datatype LineKind =
    | Comment
    | HeaderTag
    | StreamInfTag
    | InfTag
    | MediaSequenceTag
    | TargetDurationTag
    | OtherTag
    | Blank
    | Reference

  function Classify(line: string): (k: LineKind)
    ensures k == Blank <==> |line| == 0
    ensures k == Reference <==> |line| > 0 && line[0] != '#'
  {
    if HasPrefix(line, "#") then
      if !HasPrefix(line, "#EXT") then Comment
      else
        var extTag := line[1..];
        if HasPrefix(extTag, "EXTM3U") then HeaderTag
        else if HasPrefix(extTag, "EXT-X-STREAM-INF") then StreamInfTag
        else if HasPrefix(extTag, "EXTINF") then InfTag
        else if HasPrefix(extTag, "EXT-X-MEDIA-SEQUENCE") then MediaSequenceTag
        else if HasPrefix(extTag, "EXT-X-TARGETDURATION") then TargetDurationTag
        else OtherTag
    else if |line| == 0 then Blank
    else Reference
  }

  /** The five known tag names all start `EXT` and no text starts with two
      of them. */
  lemma KnownTagsDisjoint(tag: string)
    ensures HasPrefix(tag, "EXTM3U") ==> HasPrefix(tag, "EXT")
    ensures HasPrefix(tag, "EXT-X-STREAM-INF") ==> HasPrefix(tag, "EXT")
    ensures HasPrefix(tag, "EXTINF") ==> HasPrefix(tag, "EXT")
    ensures HasPrefix(tag, "EXT-X-MEDIA-SEQUENCE") ==> HasPrefix(tag, "EXT")
    ensures HasPrefix(tag, "EXT-X-TARGETDURATION") ==> HasPrefix(tag, "EXT")
    ensures HasPrefix(tag, "EXTM3U") ==>
              !HasPrefix(tag, "EXT-X-STREAM-INF") && !HasPrefix(tag, "EXTINF")
              && !HasPrefix(tag, "EXT-X-MEDIA-SEQUENCE") && !HasPrefix(tag, "EXT-X-TARGETDURATION")
    ensures HasPrefix(tag, "EXT-X-STREAM-INF") ==>
              !HasPrefix(tag, "EXTINF") && !HasPrefix(tag, "EXT-X-MEDIA-SEQUENCE") && !HasPrefix(tag, "EXT-X-TARGETDURATION")
    ensures HasPrefix(tag, "EXTINF") ==> !HasPrefix(tag, "EXT-X-MEDIA-SEQUENCE") && !HasPrefix(tag, "EXT-X-TARGETDURATION")
    ensures HasPrefix(tag, "EXT-X-MEDIA-SEQUENCE") ==> !HasPrefix(tag, "EXT-X-TARGETDURATION")
  {
    PrefixTransitive(tag, "EXTM3U", "EXT");
    PrefixTransitive(tag, "EXT-X-STREAM-INF", "EXT");
    PrefixTransitive(tag, "EXTINF", "EXT");
    PrefixTransitive(tag, "EXT-X-MEDIA-SEQUENCE", "EXT");
    PrefixTransitive(tag, "EXT-X-TARGETDURATION", "EXT");
    PrefixClash(tag, "EXTM3U", "EXT-X-STREAM-INF", 3);
    PrefixClash(tag, "EXTM3U", "EXTINF", 3);
    PrefixClash(tag, "EXTM3U", "EXT-X-MEDIA-SEQUENCE", 3);
    PrefixClash(tag, "EXTM3U", "EXT-X-TARGETDURATION", 3);
    PrefixClash(tag, "EXT-X-STREAM-INF", "EXTINF", 3);
    PrefixClash(tag, "EXT-X-STREAM-INF", "EXT-X-MEDIA-SEQUENCE", 6);
    PrefixClash(tag, "EXT-X-STREAM-INF", "EXT-X-TARGETDURATION", 6);
    PrefixClash(tag, "EXTINF", "EXT-X-MEDIA-SEQUENCE", 3);
    PrefixClash(tag, "EXTINF", "EXT-X-TARGETDURATION", 3);
    PrefixClash(tag, "EXT-X-MEDIA-SEQUENCE", "EXT-X-TARGETDURATION", 6);
  }

  /** The class of a line is decided by its raw prefix alone: the header and
      each known tag are recognised by `#` followed by the tag name, whatever
      order the parser tests them in. */
  lemma ClassifyByPrefix(line: string)
    ensures Classify(line) == Comment <==> HasPrefix(line, "#") && !HasPrefix(line, "#EXT")
    ensures Classify(line) in {HeaderTag, StreamInfTag, InfTag, MediaSequenceTag, TargetDurationTag, OtherTag}
            <==> HasPrefix(line, "#EXT")
    ensures Classify(line) == HeaderTag <==> HasPrefix(line, "#EXTM3U")
    ensures Classify(line) == StreamInfTag <==> HasPrefix(line, "#EXT-X-STREAM-INF")
    ensures Classify(line) == InfTag <==> HasPrefix(line, "#EXTINF")
    ensures Classify(line) == MediaSequenceTag <==> HasPrefix(line, "#EXT-X-MEDIA-SEQUENCE")
    ensures Classify(line) == TargetDurationTag <==> HasPrefix(line, "#EXT-X-TARGETDURATION")
  {
    PrefixCons(line, "#");
    PrefixCons(line, "#EXT");
    PrefixCons(line, "#EXTM3U");
    PrefixCons(line, "#EXT-X-STREAM-INF");
    PrefixCons(line, "#EXTINF");
    PrefixCons(line, "#EXT-X-MEDIA-SEQUENCE");
    PrefixCons(line, "#EXT-X-TARGETDURATION");
    if |line| > 0 && line[0] == '#' {
      var tag := line[1..];
      KnownTagsDisjoint(tag);
      assert Classify(line) == (
        if !HasPrefix(tag, "EXT") then Comment
        else if HasPrefix(tag, "EXTM3U") then HeaderTag
        else if HasPrefix(tag, "EXT-X-STREAM-INF") then StreamInfTag
        else if HasPrefix(tag, "EXTINF") then InfTag
        else if HasPrefix(tag, "EXT-X-MEDIA-SEQUENCE") then MediaSequenceTag
        else if HasPrefix(tag, "EXT-X-TARGETDURATION") then TargetDurationTag
        else OtherTag);
    }
  }

  /** A reference starting with `http` is kept verbatim; any other is joined
      onto the base URL, which may fail. */
  function ResolveReference(env: Env, base: string, line: string): (r: Result<string, TagError>)
    ensures HasPrefix(line, "http") ==> r == Success(line)
    ensures !HasPrefix(line, "http") ==> r == (match env.joinPath(base, line)
                                              case Some(u) => Success(u)
                                              case None => Failure(JoinFailed))
  {
    if HasPrefix(line, "http") then Success(line)
    else
      match env.joinPath(base, line)
      case None => Failure(JoinFailed)
      case Some(u) => Success(u)
  }

  /** The loop-carried state of the parser: the header flag, the entry the
      last `EXT-X-STREAM-INF` or `EXTINF` opened, and the playlist so far. */
  datatype ParseState = ParseState(isExtM3U: bool, pending: Entry, pl: Plist)

  const Initial: ParseState := ParseState(false, ZeroEntry, ZeroPlist)

  /** One iteration of the parser's loop; what it does to each kind of line
      is stated by the `Step...` lemmas below. */
  function Step(env: Env, base: string, st: ParseState, line: string): Result<ParseState, TagError>
  {
    match Classify(line)
    case Comment => Success(st)
    case HeaderTag => Success(st.(isExtM3U := true))
    case StreamInfTag =>
      var e :- ParseStreamInfTag(ZeroEntry, line[1..]);
      Success(st.(pl := st.pl.(kind := MasterPlist), pending := e))
    case InfTag =>
      var e :- ParseInfTag(env, ZeroEntry, line[1..]);
      Success(st.(pl := st.pl.(kind := VariantPlist), pending := e))
    case MediaSequenceTag =>
      var pl :- ParseMediaSequenceTag(st.pl, line[1..]);
      Success(st.(pl := pl))
    case TargetDurationTag =>
      var pl :- ParseTargetDurationTag(st.pl, line[1..]);
      Success(st.(pl := pl))
    case OtherTag => Success(st)
    case Blank => Success(st)
    case Reference =>
      var url :- ResolveReference(env, base, line);
      var entry := st.pending.(url := url, mediaSequence := st.pl.currentMediaSequence);
      Success(st.(pending := ZeroEntry,
                  pl := st.pl.(entries := st.pl.entries + [entry],
                               currentMediaSequence := Inc64(st.pl.currentMediaSequence))))
  }

  /** Blank lines, comments and unknown `#EXT` tags change nothing. */
  lemma StepInert(env: Env, base: string, st: ParseState, line: string)
    requires Classify(line) in {Comment, OtherTag, Blank}
    ensures Step(env, base, st, line) == Success(st)
  {
  }

  /** The header flag is set by the header tag and by nothing else. */
  lemma StepHeader(env: Env, base: string, st: ParseState, line: string)
    ensures Classify(line) == HeaderTag ==> Step(env, base, st, line) == Success(st.(isExtM3U := true))
    ensures Step(env, base, st, line).Success? && Classify(line) != HeaderTag ==>
              Step(env, base, st, line).value.isExtM3U == st.isExtM3U
  {
  }

  /** A reference completes the pending entry, stamps it with the cursor,
      appends it and advances the cursor, failing only when the URL cannot be
      joined; the pending entry is reset and nothing else changes. */
  lemma StepReference(env: Env, base: string, st: ParseState, line: string)
    requires Classify(line) == Reference
    ensures var r := Step(env, base, st, line);
      && (r.Success? <==> ResolveReference(env, base, line).Success?)
      && (r.Failure? ==> r.error == JoinFailed)
      && (r.Success? ==>
            r.value == st.(pending := ZeroEntry,
                           pl := st.pl.(entries := st.pl.entries
                                                   + [st.pending.(url := ResolveReference(env, base, line).value,
                                                                  mediaSequence := st.pl.currentMediaSequence)],
                                        currentMediaSequence := Inc64(st.pl.currentMediaSequence))))
  {
  }

  /** Entries are only ever appended to, by references: every other line
      keeps them, and only a media-sequence tag moves the cursor. */
  lemma StepKeepsEntries(env: Env, base: string, st: ParseState, line: string)
    requires Classify(line) != Reference
    ensures var r := Step(env, base, st, line);
      && (r.Success? ==> r.value.pl.entries == st.pl.entries)
      && (r.Success? && Classify(line) != MediaSequenceTag ==>
            r.value.pl.currentMediaSequence == st.pl.currentMediaSequence)
  {
  }

  /** A media-sequence tag line does exactly what its tag helper does to the
      playlist, and nothing else. */
  lemma StepMediaSequence(env: Env, base: string, st: ParseState, line: string)
    requires Classify(line) == MediaSequenceTag
    ensures Step(env, base, st, line)
            == match ParseMediaSequenceTag(st.pl, line[1..])
               case Success(pl) => Success(st.(pl := pl))
               case Failure(err) => Failure(err)
  {
  }

  /** The last STREAM-INF or EXTINF tag decides the kind, and each replaces
      the pending entry; no other line touches the kind, and only those tags
      and references touch the pending entry. */
  lemma StepKindAndPending(env: Env, base: string, st: ParseState, line: string)
    ensures var r := Step(env, base, st, line);
      && (r.Success? && Classify(line) == StreamInfTag ==>
            r.value.pl.kind == MasterPlist && r.value.pending == ParseStreamInfTag(ZeroEntry, line[1..]).value)
      && (r.Success? && Classify(line) == InfTag ==>
            r.value.pl.kind == VariantPlist && r.value.pending == ParseInfTag(env, ZeroEntry, line[1..]).value)
      && (r.Success? && Classify(line) !in {StreamInfTag, InfTag} ==> r.value.pl.kind == st.pl.kind)
      && (r.Success? && Classify(line) !in {StreamInfTag, InfTag, Reference} ==> r.value.pending == st.pending)
  {
  }

  /** The loop over `lines`, as a left fold: the state after the last line, or
      the first line's error tagged with its zero-based index. */
  function Run(env: Env, base: string, lines: seq<string>): Result<ParseState, ParseError>
    decreases |lines|
  {
    if |lines| == 0 then Success(Initial)
    else
      var last := |lines| - 1;
      match Run(env, base, lines[..last])
      case Failure(err) => Failure(err)
      case Success(st) =>
        match Step(env, base, st, lines[last])
        case Failure(cause) => Failure(LineError(last, cause))
        case Success(st') => Success(st')
  }

  /** `Parse` on a zero `Plist`: resolves the base URL, runs the loop over the
      newline-separated lines, then insists that a header was seen. */
  function Parse(env: Env, plUrl: string, text: string): Result<Plist, ParseError>
  {
    match env.baseUrl(plUrl)
    case None => Failure(BadPlaylistUrl)
    case Some(base) =>
      match Run(env, base, Split(text, '\n'))
      case Failure(err) => Failure(err)
      case Success(st) => if !st.isExtM3U then Failure(NotExtM3U) else Success(st.pl)
  }

  /** The parser as the loop it is in the program, returning at the first
      failing line; it computes exactly `Parse`. */
  method ParseLoop(env: Env, plUrl: string, text: string) returns (r: Result<Plist, ParseError>)
    ensures r == Parse(env, plUrl, text)
  {
    var baseOpt := env.baseUrl(plUrl);
    if baseOpt.None? {
      return Failure(BadPlaylistUrl);
    }
    var base := baseOpt.value;
    var lines := Split(text, '\n');
    var st := Initial;
    var lineIdx := 0;
    while lineIdx < |lines|
      invariant 0 <= lineIdx <= |lines|
      invariant Run(env, base, lines[..lineIdx]) == Success(st)
    {
      assert lines[..lineIdx + 1][..lineIdx] == lines[..lineIdx];
      var next := Step(env, base, st, lines[lineIdx]);
      if next.Failure? {
        RunStopsAtFailure(env, base, lines, lineIdx);
        return Failure(LineError(lineIdx, next.error));
      }
      st := next.value;
      lineIdx := lineIdx + 1;
    }
    assert lines[..|lines|] == lines;
    if !st.isExtM3U {
      return Failure(NotExtM3U);
    }
    return Success(st.pl);
  }

  /** Once line `i` fails, later lines cannot change the outcome: the whole run
      fails with line `i`'s error. */
  lemma {:induction false} RunStopsAtFailure(env: Env, base: string, lines: seq<string>, i: nat)
    requires i < |lines|
    requires Run(env, base, lines[..i]).Success?
    requires Step(env, base, Run(env, base, lines[..i]).value, lines[i]).Failure?
    ensures Run(env, base, lines)
            == Failure(LineError(i, Step(env, base, Run(env, base, lines[..i]).value, lines[i]).error))
    decreases |lines|
  {
    var last := |lines| - 1;
    assert lines[..last][..i] == lines[..i];
    if i < last {
      RunStopsAtFailure(env, base, lines[..last], i);
    }
  }
}
