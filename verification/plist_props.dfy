/** What the playlist parser guarantees, stated over whole texts and lists
    of lines: where errors come from, the header check, positional sequence
    numbering, kind inference, the life of the pending entry, and the exact
    meaning of the tag helpers. */
module PlistProps {
  import opened Wrappers
  import opened UInt64
  import opened Strs
  import opened Plist

  // ---------------------------------------------------------------------------
  // Folding one more line
  // ---------------------------------------------------------------------------

  /** Running one more line is one more `Step` after the run so far. */
  lemma RunSnoc(env: Env, base: string, lines: seq<string>, line: string)
    ensures Run(env, base, lines).Failure? ==> Run(env, base, lines + [line]) == Run(env, base, lines)
    ensures Run(env, base, lines).Success? ==>
              var next := Step(env, base, Run(env, base, lines).value, line);
              Run(env, base, lines + [line])
              == if next.Success? then Success(next.value) else Failure(LineError(|lines|, next.error))
  {
    assert (lines + [line])[..|lines|] == lines;
  }

  /** A run that succeeds succeeded on every prefix too: errors are final. */
  lemma {:induction false} RunPrefix(env: Env, base: string, lines: seq<string>, k: nat)
    requires k <= |lines|
    requires Run(env, base, lines).Success?
    ensures Run(env, base, lines[..k]).Success?
    decreases |lines|
  {
    if k < |lines| {
      var init := lines[..|lines| - 1];
      assert init[..k] == lines[..k];
      RunPrefix(env, base, init, k);
    } else {
      assert lines[..k] == lines;
    }
  }

  /** The same, for a run split into two parts. */
  lemma RunPrefixAppend(env: Env, base: string, pre: seq<string>, suf: seq<string>)
    requires Run(env, base, pre + suf).Success?
    ensures Run(env, base, pre).Success?
  {
    assert pre == (pre + suf)[..|pre|];
    RunPrefix(env, base, pre + suf, |pre|);
  }

  // ---------------------------------------------------------------------------
  // Error precedence
  // ---------------------------------------------------------------------------

  /** Every failure of the loop is a line error, reported with the zero-based
      index of the first line whose step fails, all earlier lines having been
      processed without error. Together with `Plist.RunStopsAtFailure` this
      says the loop fails exactly at its first failing line. */
  lemma {:induction false} RunFailureIsFirstFailingLine(env: Env, base: string, lines: seq<string>)
    requires Run(env, base, lines).Failure?
    ensures Run(env, base, lines).error.LineError?
    ensures var i := Run(env, base, lines).error.line;
      && i < |lines|
      && Run(env, base, lines[..i]).Success?
      && Step(env, base, Run(env, base, lines[..i]).value, lines[i])
         == Failure(Run(env, base, lines).error.cause)
    decreases |lines|
  {
    var last := |lines| - 1;
    var init := lines[..last];
    if Run(env, base, init).Failure? {
      RunFailureIsFirstFailingLine(env, base, init);
      var i := Run(env, base, init).error.line;
      assert init[..i] == lines[..i];
    }
  }

  /** `Parse` reports "not in extended M3U format" exactly when the playlist
      URL was usable, no line failed, and no line starts with `#EXTM3U`; the
      header may appear anywhere, even after every entry. */
  lemma ParseNotExtM3U(env: Env, plUrl: string, text: string)
    ensures Parse(env, plUrl, text) == Failure(NotExtM3U)
            <==> && env.baseUrl(plUrl).Some?
                 && Run(env, env.baseUrl(plUrl).value, Split(text, '\n')).Success?
                 && forall i | 0 <= i < |Split(text, '\n')| :: !HasPrefix(Split(text, '\n')[i], "#EXTM3U")
  {
    var lines := Split(text, '\n');
    if env.baseUrl(plUrl).Some? {
      var base := env.baseUrl(plUrl).value;
      if Run(env, base, lines).Failure? {
        RunFailureIsFirstFailingLine(env, base, lines);
      } else {
        HeaderSeen(env, base, lines);
        forall i | 0 <= i < |lines| ensures Classify(lines[i]) == HeaderTag <==> HasPrefix(lines[i], "#EXTM3U") {
          ClassifyByPrefix(lines[i]);
        }
      }
    }
  }

  /** Which errors `Parse` can return, and in what order they take precedence:
      a bad playlist URL before anything else, then the first failing line,
      and the missing header only after every line was processed. */
  lemma ParseErrorPrecedence(env: Env, plUrl: string, text: string)
    ensures env.baseUrl(plUrl).None? ==> Parse(env, plUrl, text) == Failure(BadPlaylistUrl)
    ensures env.baseUrl(plUrl).Some? && Run(env, env.baseUrl(plUrl).value, Split(text, '\n')).Failure? ==>
              && Parse(env, plUrl, text) == Failure(Run(env, env.baseUrl(plUrl).value, Split(text, '\n')).error)
              && Parse(env, plUrl, text).error.LineError?
              && Parse(env, plUrl, text).error.line < |Split(text, '\n')|
    ensures Parse(env, plUrl, text).Success? ==>
              && env.baseUrl(plUrl).Some?
              && Run(env, env.baseUrl(plUrl).value, Split(text, '\n')).Success?
              && Run(env, env.baseUrl(plUrl).value, Split(text, '\n')).value.isExtM3U
              && Parse(env, plUrl, text).value == Run(env, env.baseUrl(plUrl).value, Split(text, '\n')).value.pl
  {
    if env.baseUrl(plUrl).Some? && Run(env, env.baseUrl(plUrl).value, Split(text, '\n')).Failure? {
      RunFailureIsFirstFailingLine(env, env.baseUrl(plUrl).value, Split(text, '\n'));
    }
  }

  // ---------------------------------------------------------------------------
  // Header
  // ---------------------------------------------------------------------------

  /** After a successful run the header flag is set exactly when some line is
      the `EXTM3U` tag. */
  lemma {:induction false} HeaderSeen(env: Env, base: string, lines: seq<string>)
    requires Run(env, base, lines).Success?
    ensures Run(env, base, lines).value.isExtM3U
            <==> exists i | 0 <= i < |lines| :: Classify(lines[i]) == HeaderTag
    decreases |lines|
  {
    if |lines| > 0 {
      var last := |lines| - 1;
      var init := lines[..last];
      RunSnoc(env, base, init, lines[last]);
      assert init + [lines[last]] == lines;
      HeaderSeen(env, base, init);
      StepHeader(env, base, Run(env, base, init).value, lines[last]);
      if exists i | 0 <= i < |init| :: Classify(init[i]) == HeaderTag {
        var i :| 0 <= i < |init| && Classify(init[i]) == HeaderTag;
        assert lines[i] == init[i];
      }
      if exists i | 0 <= i < |lines| :: Classify(lines[i]) == HeaderTag {
        var i :| 0 <= i < |lines| && Classify(lines[i]) == HeaderTag;
        if i < last {
          assert init[i] == lines[i];
        }
      }
    }
  }

  // ---------------------------------------------------------------------------
  // Sequence numbering
  // ---------------------------------------------------------------------------

  /** The number of reference lines (non-empty, not starting with `#`). */
  function RefCount(lines: seq<string>): nat
    decreases |lines|
  {
    if |lines| == 0 then 0
    else RefCount(lines[..|lines| - 1]) + (if Classify(lines[|lines| - 1]) == Reference then 1 else 0)
  }

  /** `n` wrap-around increments of `a`, as `n` executions of Go's `+= 1`. */
  function Advance(a: u64, n: nat): u64
    decreases n
  {
    if n == 0 then a else Inc64(Advance(a, n - 1))
  }

  /** `n` increments add `n` modulo 2^64. */
  lemma {:induction false} AdvanceMod(a: u64, n: nat)
    ensures Advance(a, n) as int == (a as int + n) % TWO_TO_THE_64
    decreases n
  {
    if n > 0 {
      AdvanceMod(a, n - 1);
      var b := a as int + n - 1;
      var q := b / TWO_TO_THE_64;
      var r := b % TWO_TO_THE_64;
      assert b == q * TWO_TO_THE_64 + r;
      if r + 1 == TWO_TO_THE_64 {
        assert b + 1 == (q + 1) * TWO_TO_THE_64;
      } else {
        assert b + 1 == q * TWO_TO_THE_64 + (r + 1);
      }
    }
  }

  /** `p1` extends `p0` by `count` entries numbered consecutively (with
      wrap-around) from `p0`'s cursor, and its cursor is the next number. */
  predicate NumberedFrom(p0: Plist, p1: Plist, count: nat) {
    && |p1.entries| == |p0.entries| + count
    && p1.entries[..|p0.entries|] == p0.entries
    && (forall k | |p0.entries| <= k < |p1.entries| ::
          p1.entries[k].mediaSequence == Advance(p0.currentMediaSequence, k - |p0.entries|))
    && p1.currentMediaSequence == Advance(p0.currentMediaSequence, count)
  }

  /** One line other than a media-sequence tag keeps the numbering going. */
  lemma NumberedFromStep(env: Env, base: string, p0: Plist, st: ParseState, line: string, count: nat)
    requires NumberedFrom(p0, st.pl, count)
    requires Step(env, base, st, line).Success?
    requires Classify(line) != MediaSequenceTag
    ensures NumberedFrom(p0, Step(env, base, st, line).value.pl, count + (if Classify(line) == Reference then 1 else 0))
  {
    var pm := st.pl;
    var p1 := Step(env, base, st, line).value.pl;
    if Classify(line) == Reference {
      StepReference(env, base, st, line);
      NumberedFromAppend(p0, pm, p1, count);
    } else {
      StepKeepsEntries(env, base, st, line);
    }
  }

  /** Appending one entry stamped with the cursor, and advancing the cursor,
      extends a consecutive numbering by one. */
  lemma NumberedFromAppend(p0: Plist, pm: Plist, p1: Plist, count: nat)
    requires NumberedFrom(p0, pm, count)
    requires |p1.entries| == |pm.entries| + 1
    requires p1.entries[..|pm.entries|] == pm.entries
    requires p1.entries[|pm.entries|].mediaSequence == pm.currentMediaSequence
    requires p1.currentMediaSequence == Inc64(pm.currentMediaSequence)
    ensures NumberedFrom(p0, p1, count + 1)
  {
    assert p1.entries[..|p0.entries|] == p1.entries[..|pm.entries|][..|p0.entries|];
    forall k | |p0.entries| <= k < |p1.entries|
      ensures p1.entries[k].mediaSequence == Advance(p0.currentMediaSequence, k - |p0.entries|)
    {
      if k < |pm.entries| {
        assert p1.entries[k] == p1.entries[..|pm.entries|][k];
      }
    }
  }

  /** Positional numbering. Starting from the state after `pre`, every later
      reference line appends one entry stamped with the running cursor and
      moves the cursor on by one (wrapping at 2^64, as Go's `+= 1` does), so
      long as no media-sequence tag intervenes: after cursor value S and M
      reference lines the new entries carry S, S+1, ..., S+M-1 and the cursor
      is S+M. Earlier entries are untouched. */
  lemma {:induction false} SequenceNumbering(env: Env, base: string, pre: seq<string>, suf: seq<string>)
    requires Run(env, base, pre + suf).Success?
    requires forall k | 0 <= k < |suf| :: Classify(suf[k]) != MediaSequenceTag
    ensures Run(env, base, pre).Success?
    ensures NumberedFrom(Run(env, base, pre).value.pl, Run(env, base, pre + suf).value.pl, RefCount(suf))
    decreases |suf|
  {
    if |suf| == 0 {
      assert pre + suf == pre;
    } else {
      var s' := suf[..|suf| - 1];
      var x := suf[|suf| - 1];
      assert pre + suf == (pre + s') + [x];
      assert forall k | 0 <= k < |s'| :: s'[k] == suf[k];
      RunSnoc(env, base, pre + s', x);
      SequenceNumbering(env, base, pre, s');
      NumberedFromStep(env, base, Run(env, base, pre).value.pl, Run(env, base, pre + s').value, x, RefCount(s'));
    }
  }

  /** A playlist without a media-sequence tag numbers its entries 0, 1, 2, ...
      in source order, and ends with the cursor at the number of entries. */
  lemma NumberingFromZero(env: Env, base: string, lines: seq<string>)
    requires Run(env, base, lines).Success?
    requires forall k | 0 <= k < |lines| :: Classify(lines[k]) != MediaSequenceTag
    requires RefCount(lines) < TWO_TO_THE_64
    ensures var pl := Run(env, base, lines).value.pl;
            && |pl.entries| == RefCount(lines)
            && (forall k | 0 <= k < |pl.entries| :: pl.entries[k].mediaSequence as int == k)
            && pl.currentMediaSequence as int == |pl.entries|
  {
    assert [] + lines == lines;
    SequenceNumbering(env, base, [], lines);
    var pl := Run(env, base, lines).value.pl;
    forall k | 0 <= k < |pl.entries| ensures pl.entries[k].mediaSequence as int == k {
      AdvanceMod(0, k);
    }
    AdvanceMod(0, |pl.entries|);
  }

  /** Writing a number into a media-sequence tag and parsing it back sets
      the cursor to that number. */
  lemma MediaSequenceTagRoundTrip(pl: Plist, n: u64)
    ensures ParseMediaSequenceTag(pl, "EXT-X-MEDIA-SEQUENCE:" + FormatUint(n as nat))
            == Success(pl.(currentMediaSequence := n))
  {
    var tag := "EXT-X-MEDIA-SEQUENCE:" + FormatUint(n as nat);
    assert tag[..|"EXT-X-MEDIA-SEQUENCE:"|] == "EXT-X-MEDIA-SEQUENCE:";
    assert tag[|"EXT-X-MEDIA-SEQUENCE:"|..] == FormatUint(n as nat);
    ParseFormatRoundTrip(n as nat);
  }

  /** Writing a number into a target-duration tag and parsing it back sets
      the target duration to that number. */
  lemma TargetDurationTagRoundTrip(pl: Plist, n: u64)
    ensures ParseTargetDurationTag(pl, "EXT-X-TARGETDURATION:" + FormatUint(n as nat))
            == Success(pl.(targetDurationSec := n))
  {
    var tag := "EXT-X-TARGETDURATION:" + FormatUint(n as nat);
    assert tag[..|"EXT-X-TARGETDURATION:"|] == "EXT-X-TARGETDURATION:";
    assert tag[|"EXT-X-TARGETDURATION:"|..] == FormatUint(n as nat);
    ParseFormatRoundTrip(n as nat);
  }

  /** `#EXT-X-MEDIA-SEQUENCE:` followed by any text is a media-sequence tag
      line whose tag value is that text. */
  lemma MediaSequenceLine(digits: string)
    ensures Classify("#EXT-X-MEDIA-SEQUENCE:" + digits) == MediaSequenceTag
    ensures CutPrefix(("#EXT-X-MEDIA-SEQUENCE:" + digits)[1..], "EXT-X-MEDIA-SEQUENCE:") == Some(digits)
  {
    var line := "#EXT-X-MEDIA-SEQUENCE:" + digits;
    assert line[..|"#EXT-X-MEDIA-SEQUENCE"|] == "#EXT-X-MEDIA-SEQUENCE";
    ClassifyByPrefix(line);
    var tag := line[1..];
    assert tag == "EXT-X-MEDIA-SEQUENCE:" + digits;
    assert tag[..|"EXT-X-MEDIA-SEQUENCE:"|] == "EXT-X-MEDIA-SEQUENCE:";
    assert tag[|"EXT-X-MEDIA-SEQUENCE:"|..] == digits;
  }

  /** A media-sequence tag overwrites the cursor with its value, even with a
      smaller one: the cursor may move backwards. Leading zeros are accepted. */
  lemma MediaSequenceOverwrites(env: Env, base: string, pre: seq<string>, digits: string)
    requires Run(env, base, pre).Success?
    requires ParseUint(digits).Some?
    ensures Run(env, base, pre + ["#EXT-X-MEDIA-SEQUENCE:" + digits])
            == Success(Run(env, base, pre).value.(pl := Run(env, base, pre).value.pl.(currentMediaSequence := ParseUint(digits).value)))
  {
    var line := "#EXT-X-MEDIA-SEQUENCE:" + digits;
    RunSnoc(env, base, pre, line);
    MediaSequenceLine(digits);
    StepMediaSequence(env, base, Run(env, base, pre).value, line);
  }

  // ---------------------------------------------------------------------------
  // Kind inference
  // ---------------------------------------------------------------------------

  /** Some STREAM-INF tag is followed by no EXTINF tag. */
  predicate StreamInfLast(lines: seq<string>) {
    exists i | 0 <= i < |lines| :: Classify(lines[i]) == StreamInfTag && NoInfAfter(lines, i)
  }

  predicate NoInfAfter(lines: seq<string>, i: int) {
    forall j | 0 <= i < j < |lines| :: Classify(lines[j]) != InfTag
  }

  /** Adding a line: a STREAM-INF tag is now last, an EXTINF tag hides every
      earlier STREAM-INF, and any other line changes nothing. */
  lemma StreamInfLastSnoc(init: seq<string>, x: string)
    ensures StreamInfLast(init + [x])
            <==> Classify(x) == StreamInfTag || (Classify(x) != InfTag && StreamInfLast(init))
  {
    var lines := init + [x];
    var last := |init|;
    assert forall j | 0 <= j < |init| :: lines[j] == init[j];
    if Classify(x) == StreamInfTag {
      assert Classify(lines[last]) == StreamInfTag && NoInfAfter(lines, last);
    } else if Classify(x) == InfTag {
      assert Classify(lines[last]) == InfTag;
    } else {
      if StreamInfLast(init) {
        var i :| 0 <= i < |init| && Classify(init[i]) == StreamInfTag && NoInfAfter(init, i);
        assert lines[i] == init[i];
        assert NoInfAfter(lines, i);
      }
      if StreamInfLast(lines) {
        var i :| 0 <= i < |lines| && Classify(lines[i]) == StreamInfTag && NoInfAfter(lines, i);
        assert init[i] == lines[i];
        assert NoInfAfter(init, i);
      }
    }
  }

  /** Last tag wins: a successful run yields a master playlist exactly when
      some `EXT-X-STREAM-INF` tag comes after every `EXTINF` tag; with neither
      tag present the kind stays at its zero value, `VariantPlist`. */
  lemma {:induction false} KindIsLastTag(env: Env, base: string, lines: seq<string>)
    requires Run(env, base, lines).Success?
    ensures Run(env, base, lines).value.pl.kind == MasterPlist <==> StreamInfLast(lines)
    decreases |lines|
  {
    if |lines| > 0 {
      var init := lines[..|lines| - 1];
      var x := lines[|lines| - 1];
      assert init + [x] == lines;
      RunSnoc(env, base, init, x);
      KindIsLastTag(env, base, init);
      StepKindAndPending(env, base, Run(env, base, init).value, x);
      StreamInfLastSnoc(init, x);
    }
  }

  // ---------------------------------------------------------------------------
  // The pending entry
  // ---------------------------------------------------------------------------

  /** A reference line completes whatever entry was pending after `pre`, as
      long as the lines in between neither open a new entry nor complete one:
      the new entry is that pending entry with its URL resolved and its
      sequence number stamped. */
  lemma {:induction false} PendingReachesReference(env: Env, base: string, pre: seq<string>, mid: seq<string>, ref: string)
    requires Run(env, base, pre + mid + [ref]).Success?
    requires forall k | 0 <= k < |mid| :: Classify(mid[k]) !in {StreamInfTag, InfTag, Reference}
    requires Classify(ref) == Reference
    ensures Run(env, base, pre).Success?
    ensures var entries := Run(env, base, pre + mid + [ref]).value.pl.entries;
            && |entries| > 0
            && var e := entries[|entries| - 1];
               && e.bandwidthBps == Run(env, base, pre).value.pending.bandwidthBps
               && e.codecs == Run(env, base, pre).value.pending.codecs
               && e.durationSec == Run(env, base, pre).value.pending.durationSec
               && e.extraInfo == Run(env, base, pre).value.pending.extraInfo
               && e.url == ResolveReference(env, base, ref).value
    decreases |mid|
  {
    RunSnoc(env, base, pre + mid, ref);
    PendingUnchanged(env, base, pre, mid);
    StepReference(env, base, Run(env, base, pre + mid).value, ref);
  }

  /** Lines that neither open nor complete an entry leave the pending entry
      alone. */
  lemma {:induction false} PendingUnchanged(env: Env, base: string, pre: seq<string>, mid: seq<string>)
    requires Run(env, base, pre + mid).Success?
    requires forall k | 0 <= k < |mid| :: Classify(mid[k]) !in {StreamInfTag, InfTag, Reference}
    ensures Run(env, base, pre).Success?
    ensures Run(env, base, pre + mid).value.pending == Run(env, base, pre).value.pending
    decreases |mid|
  {
    assert pre == (pre + mid)[..|pre|];
    RunPrefix(env, base, pre + mid, |pre|);
    if |mid| > 0 {
      var m' := mid[..|mid| - 1];
      var x := mid[|mid| - 1];
      assert pre + mid == (pre + m') + [x];
      RunSnoc(env, base, pre + m', x);
      PendingUnchanged(env, base, pre, m');
      StepKindAndPending(env, base, Run(env, base, pre + m').value, x);
    } else {
      assert pre + mid == pre;
    }
  }

  /** At the start, and right after a reference line, nothing is pending. */
  lemma PendingResetAfterReference(env: Env, base: string, pre: seq<string>)
    requires |pre| == 0 || Classify(pre[|pre| - 1]) == Reference
    requires Run(env, base, pre).Success?
    ensures Run(env, base, pre).value.pending == ZeroEntry
  {
    if |pre| > 0 {
      var init := pre[..|pre| - 1];
      var x := pre[|pre| - 1];
      assert init + [x] == pre;
      RunSnoc(env, base, init, x);
      StepReference(env, base, Run(env, base, init).value, x);
    }
  }

  /** The pending entry is reset after every append, so a reference with no
      STREAM-INF or EXTINF tag since the start or since the previous reference
      has zero bandwidth, no codecs, zero duration and no extra information. */
  lemma UntaggedReferenceIsBare(env: Env, base: string, pre: seq<string>, mid: seq<string>, ref: string)
    requires |pre| == 0 || Classify(pre[|pre| - 1]) == Reference
    requires Run(env, base, pre + mid + [ref]).Success?
    requires forall k | 0 <= k < |mid| :: Classify(mid[k]) !in {StreamInfTag, InfTag, Reference}
    requires Classify(ref) == Reference
    ensures var entries := Run(env, base, pre + mid + [ref]).value.pl.entries;
            && |entries| > 0
            && entries[|entries| - 1].bandwidthBps == 0
            && entries[|entries| - 1].codecs == ""
            && entries[|entries| - 1].durationSec == None
            && entries[|entries| - 1].extraInfo == ""
  {
    PendingReachesReference(env, base, pre, mid, ref);
    PendingResetAfterReference(env, base, pre);
  }

  /** A reference after an `EXT-X-STREAM-INF` tag (with only inert lines or
      other tags between) carries that tag's bandwidth and codecs. */
  lemma StreamInfReachesReference(env: Env, base: string, pre: seq<string>, tagLine: string,
                                  mid: seq<string>, ref: string)
    requires Classify(tagLine) == StreamInfTag
    requires Run(env, base, pre + [tagLine] + mid + [ref]).Success?
    requires forall k | 0 <= k < |mid| :: Classify(mid[k]) !in {StreamInfTag, InfTag, Reference}
    requires Classify(ref) == Reference
    ensures ParseStreamInfTag(ZeroEntry, tagLine[1..]).Success?
    ensures var entries := Run(env, base, pre + [tagLine] + mid + [ref]).value.pl.entries;
            && |entries| > 0
            && entries[|entries| - 1].bandwidthBps == ParseStreamInfTag(ZeroEntry, tagLine[1..]).value.bandwidthBps
            && entries[|entries| - 1].codecs == ParseStreamInfTag(ZeroEntry, tagLine[1..]).value.codecs
  {
    PendingReachesReference(env, base, pre + [tagLine], mid, ref);
    RunSnoc(env, base, pre, tagLine);
    RunPrefixAppend(env, base, pre, [tagLine]);
    StepKindAndPending(env, base, Run(env, base, pre).value, tagLine);
  }

  // ---------------------------------------------------------------------------
  // EXT-X-STREAM-INF attributes
  // ---------------------------------------------------------------------------

  /** An attribute is usable when it has an `=`, and a `BANDWIDTH` one when
      its value is a decimal uint64. */
  predicate AttrOk(attr: string) {
    && SplitAttribute(attr).Some?
    && (SplitAttribute(attr).value.0 == "BANDWIDTH" ==> ParseUint(SplitAttribute(attr).value.1).Some?)
  }

  /** The value of the last attribute called `name`, if any. */
  function LastValue(attrs: seq<string>, name: string): Option<string>
    decreases |attrs|
  {
    if |attrs| == 0 then None
    else
      var a := SplitAttribute(attrs[|attrs| - 1]);
      if a.Some? && a.value.0 == name then Some(a.value.1)
      else LastValue(attrs[..|attrs| - 1], name)
  }

  lemma {:induction false} LastValueCons(a: string, rest: seq<string>, name: string)
    ensures LastValue([a] + rest, name)
            == if LastValue(rest, name).Some? then LastValue(rest, name)
               else if SplitAttribute(a).Some? && SplitAttribute(a).value.0 == name then Some(SplitAttribute(a).value.1)
               else None
    decreases |rest|
  {
    if |rest| > 0 {
      var init := rest[..|rest| - 1];
      assert ([a] + rest)[..|rest|] == [a] + init;
      LastValueCons(a, init, name);
    } else {
      assert [a] + rest == [a];
      assert ([a])[..0] == [];
    }
  }

  /** The attribute loop accepts exactly lists of usable attributes. */
  lemma {:induction false} ApplyAttributesAccepts(e: Entry, attrs: seq<string>, present: bool)
    ensures ApplyAttributes(e, attrs, present).Success? <==> forall k | 0 <= k < |attrs| :: AttrOk(attrs[k])
    decreases |attrs|
  {
    if |attrs| > 0 {
      var rest := attrs[1..];
      assert forall k | 0 <= k < |rest| :: rest[k] == attrs[k + 1];
      var step := ApplyAttribute(e, present, attrs[0]);
      if step.Success? {
        ApplyAttributesAccepts(step.value.0, rest, step.value.1);
      }
    }
  }

  /** The last `BANDWIDTH` attribute wins, and whether one was seen is
      reported alongside. */
  lemma {:induction false} ApplyAttributesBandwidth(e: Entry, attrs: seq<string>, present: bool)
    ensures ApplyAttributes(e, attrs, present).Success? ==>
              var r := ApplyAttributes(e, attrs, present).value;
              && r.1 == (present || LastValue(attrs, "BANDWIDTH").Some?)
              && r.0.bandwidthBps == (match LastValue(attrs, "BANDWIDTH")
                                      case None => e.bandwidthBps
                                      case Some(v) => ParseUint(v).GetOr(0))
    decreases |attrs|
  {
    if |attrs| > 0 {
      var rest := attrs[1..];
      assert attrs == [attrs[0]] + rest;
      LastValueCons(attrs[0], rest, "BANDWIDTH");
      var step := ApplyAttribute(e, present, attrs[0]);
      if step.Success? {
        ApplyAttributesBandwidth(step.value.0, rest, step.value.1);
      }
    }
  }

  /** The last `CODECS` attribute wins, with quotes and spaces trimmed. */
  lemma {:induction false} ApplyAttributesCodecs(e: Entry, attrs: seq<string>, present: bool)
    ensures ApplyAttributes(e, attrs, present).Success? ==>
              ApplyAttributes(e, attrs, present).value.0.codecs
              == (match LastValue(attrs, "CODECS")
                  case None => e.codecs
                  case Some(v) => Trim(v, CodecsCutset))
    decreases |attrs|
  {
    if |attrs| > 0 {
      var rest := attrs[1..];
      assert attrs == [attrs[0]] + rest;
      LastValueCons(attrs[0], rest, "CODECS");
      var step := ApplyAttribute(e, present, attrs[0]);
      if step.Success? {
        ApplyAttributesCodecs(step.value.0, rest, step.value.1);
      }
    }
  }

  /** Which error a rejected attribute list reports: the first unusable
      attribute decides, `MalformedAttribute` when it lacks its `=` and
      `BadBandwidth` when it is a `BANDWIDTH` whose value does not parse. */
  lemma {:induction false} ApplyAttributesError(e: Entry, attrs: seq<string>, present: bool, i: nat)
    requires i < |attrs| && !AttrOk(attrs[i])
    requires forall k | 0 <= k < i :: AttrOk(attrs[k])
    ensures ApplyAttributes(e, attrs, present)
            == Failure(if SplitAttribute(attrs[i]).None? then MalformedAttribute else BadBandwidth)
    decreases i
  {
    if i > 0 {
      var rest := attrs[1..];
      assert AttrOk(attrs[0]);
      assert rest[i - 1] == attrs[i];
      assert forall k | 0 <= k < i - 1 :: rest[k] == attrs[k + 1];
      var step := ApplyAttribute(e, present, attrs[0]);
      ApplyAttributesError(step.value.0, rest, step.value.1, i - 1);
    }
  }

  /** `EXT-X-STREAM-INF` in full: the tag is accepted exactly when it has its
      colon, every comma-separated attribute is usable and a `BANDWIDTH` is
      present; the bandwidth and codecs are those of the last such attributes. */
  lemma StreamInfTagSpec(e: Entry, tag: string)
    ensures !HasPrefix(tag, "EXT-X-STREAM-INF:") ==> ParseStreamInfTag(e, tag) == Failure(MalformedStreamInfTag)
    ensures HasPrefix(tag, "EXT-X-STREAM-INF:") ==>
            var r := ParseStreamInfTag(e, tag);
            var attrs := Split(tag[|"EXT-X-STREAM-INF:"|..], ',');
            && (r.Success? <==> && (forall k | 0 <= k < |attrs| :: AttrOk(attrs[k]))
                                && LastValue(attrs, "BANDWIDTH").Some?)
            && (r == Failure(MissingBandwidth) <==> && (forall k | 0 <= k < |attrs| :: AttrOk(attrs[k]))
                                                    && LastValue(attrs, "BANDWIDTH").None?)
            && (r.Success? ==>
                  && r.value.bandwidthBps == ParseUint(LastValue(attrs, "BANDWIDTH").value).GetOr(0)
                  && r.value.codecs == (match LastValue(attrs, "CODECS")
                                        case None => e.codecs
                                        case Some(v) => Trim(v, CodecsCutset)))
  {
    if HasPrefix(tag, "EXT-X-STREAM-INF:") {
      var attrs := Split(tag[|"EXT-X-STREAM-INF:"|..], ',');
      ApplyAttributesAccepts(e, attrs, false);
      ApplyAttributesBandwidth(e, attrs, false);
      ApplyAttributesCodecs(e, attrs, false);
    }
  }

  /** Writing a bandwidth into a one-attribute STREAM-INF tag and parsing it
      back gives that bandwidth, the rest of the entry unchanged. */
  lemma StreamInfBandwidthRoundTrip(e: Entry, n: u64)
    ensures ParseStreamInfTag(e, "EXT-X-STREAM-INF:" + ("BANDWIDTH=" + FormatUint(n as nat)))
            == Success(e.(bandwidthBps := n))
  {
    var attr := "BANDWIDTH=" + FormatUint(n as nat);
    var tag := "EXT-X-STREAM-INF:" + attr;
    assert CutPrefix(tag, "EXT-X-STREAM-INF:") == Some(attr) by {
      assert tag[..|"EXT-X-STREAM-INF:"|] == "EXT-X-STREAM-INF:";
      assert tag[|"EXT-X-STREAM-INF:"|..] == attr;
    }
    BandwidthAttribute(e, n);
    assert Split(attr, ',') == [attr] by {
      SplitJoin([attr], ',');
    }
    assert ApplyAttributes(e, [attr], false) == Success((e.(bandwidthBps := n), true));
  }

  /** A written-out bandwidth is one comma-free attribute that sets exactly
      that bandwidth. */
  lemma BandwidthAttribute(e: Entry, n: u64)
    ensures ',' !in "BANDWIDTH=" + FormatUint(n as nat)
    ensures ApplyAttribute(e, false, "BANDWIDTH=" + FormatUint(n as nat)) == Success((e.(bandwidthBps := n), true))
  {
    var digits := FormatUint(n as nat);
    var attr := "BANDWIDTH=" + digits;
    assert ',' !in attr by {
      assert forall k | 0 <= k < |attr| :: attr[k] == if k < 10 then "BANDWIDTH="[k] else digits[k - 10];
      assert forall k | 0 <= k < |digits| :: IsDigit(digits[k]);
    }
    assert "BANDWIDTH" + "=" + digits == attr;
    SplitAttributeOf("BANDWIDTH", digits);
    ParseFormatRoundTrip(n as nat);
    assert ParseUint(digits) == Some(n);
  }

  /** Quoted commas are not honoured: in `CODECS="a,b"` the comma inside the
      quotes splits the attribute list, and the piece after it has no `=`, so
      the whole tag is rejected. */
  lemma QuotedCommaRejected(e: Entry, a: string, b: string)
    requires ',' !in a && ',' !in b && '=' !in b
    ensures ParseStreamInfTag(e, "EXT-X-STREAM-INF:" + ("CODECS=\"" + a + "," + b + "\""))
            == Failure(MalformedAttribute)
  {
    var list := "CODECS=\"" + a + "," + b + "\"";
    var tag := "EXT-X-STREAM-INF:" + list;
    var first := "CODECS=\"" + a;
    var second := b + "\"";
    var attrs := [first, second];
    assert tag[..|"EXT-X-STREAM-INF:"|] == "EXT-X-STREAM-INF:";
    assert tag[|"EXT-X-STREAM-INF:"|..] == list;
    assert ',' !in first by {
      assert forall k | 0 <= k < |first| :: first[k] == if k < 8 then "CODECS=\""[k] else a[k - 8];
    }
    assert ',' !in second && '=' !in second by {
      assert forall k | 0 <= k < |second| :: second[k] == if k < |b| then b[k] else '"';
    }
    assert Join(attrs, ',') == list;
    SplitJoin(attrs, ',');
    SplitAttributeOf("CODECS", "\"" + a);
    assert first == "CODECS" + "=" + ("\"" + a);
    ApplyAttributesError(e, attrs, false, 1);
  }

  // ---------------------------------------------------------------------------
  // EXTINF
  // ---------------------------------------------------------------------------

  /** `EXTINF` acceptance: accepted exactly when it has its colon and the text
      up to the first comma is a float; otherwise the error says which. */
  lemma InfTagAccepts(env: Env, tag: string)
    ensures !HasPrefix(tag, "EXTINF:") ==> ParseInfTag(env, ZeroEntry, tag) == Failure(MalformedInfTag)
    ensures HasPrefix(tag, "EXTINF:") ==>
            (ParseInfTag(env, ZeroEntry, tag).Success? <==> env.parsesAsFloat(Cut(tag[|"EXTINF:"|..], ',').0))
    ensures HasPrefix(tag, "EXTINF:") && ParseInfTag(env, ZeroEntry, tag).Failure? ==>
            ParseInfTag(env, ZeroEntry, tag).error == BadDuration
  {
    if HasPrefix(tag, "EXTINF:") {
      SplitHeadTail(tag[|"EXTINF:"|..], ',');
    }
  }

  /** An accepted EXTINF tag: the duration is the text before the first
      comma, the extra information exactly the text after it, nothing else
      is set, and the tag reads back from the two. */
  lemma InfTagFields(env: Env, tag: string)
    ensures ParseInfTag(env, ZeroEntry, tag).Success? ==>
            && ParseInfTag(env, ZeroEntry, tag).value.durationSec == Some(Cut(tag[|"EXTINF:"|..], ',').0)
            && ParseInfTag(env, ZeroEntry, tag).value.extraInfo == Cut(tag[|"EXTINF:"|..], ',').1.GetOr("")
            && ParseInfTag(env, ZeroEntry, tag).value.bandwidthBps == 0
            && ParseInfTag(env, ZeroEntry, tag).value.codecs == ""
    ensures ParseInfTag(env, ZeroEntry, tag).Success? ==>
            tag == "EXTINF:" + ParseInfTag(env, ZeroEntry, tag).value.durationSec.value
                   + (if ',' in tag[|"EXTINF:"|..] then "," + ParseInfTag(env, ZeroEntry, tag).value.extraInfo else "")
  {
    if HasPrefix(tag, "EXTINF:") {
      SplitHeadTail(tag[|"EXTINF:"|..], ',');
    }
  }
}
