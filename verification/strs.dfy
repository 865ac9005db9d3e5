/** The handful of Go `strings` functions the playlist parser relies on,
    over `string` = `seq<char>`, each with a contract that characterises it
    independently of how it is computed. */
module Strs {
  import opened Wrappers

  /** `strings.HasPrefix(s, prefix)`. */
  predicate HasPrefix(s: string, prefix: string) {
    |prefix| <= |s| && s[..|prefix|] == prefix
  }

  /** A non-empty prefix is matched by matching its first character, then the
      rest of it. */
  lemma PrefixCons(s: string, p: string)
    requires |p| > 0
    ensures HasPrefix(s, p) <==> |s| > 0 && s[0] == p[0] && HasPrefix(s[1..], p[1..])
  {
    if |s| > 0 && |p| <= |s| {
      assert s[..|p|] == [s[0]] + s[1..][..|p| - 1];
      assert p == [p[0]] + p[1..];
    }
  }

  /** Prefixes of a prefix are prefixes. */
  lemma PrefixTransitive(s: string, p: string, q: string)
    ensures HasPrefix(s, p) && HasPrefix(p, q) ==> HasPrefix(s, q)
  {
    if HasPrefix(s, p) && HasPrefix(p, q) {
      assert s[..|q|] == s[..|p|][..|q|];
    }
  }

  /** Two prefixes that differ at a position both cover cannot both match. */
  lemma PrefixClash(s: string, p: string, q: string, i: nat)
    requires i < |p| && i < |q| && p[i] != q[i]
    ensures !(HasPrefix(s, p) && HasPrefix(s, q))
  {
  }

  /** `strings.CutPrefix(s, prefix)`: the rest of `s` after `prefix`, when `s`
      starts with it. */
  function CutPrefix(s: string, prefix: string): (r: Option<string>)
    ensures r.Some? <==> HasPrefix(s, prefix)
    ensures r.Some? ==> s == prefix + r.value
  {
    if HasPrefix(s, prefix) then Some(s[|prefix|..]) else None
  }

  /** `strings.Join(pieces, string(sep))`. */
  function Join(pieces: seq<string>, sep: char): string
    decreases |pieces|
  {
    if |pieces| == 0 then ""
    else if |pieces| == 1 then pieces[0]
    else pieces[0] + [sep] + Join(pieces[1..], sep)
  }

  /** `strings.Split(s, string(sep))`: the maximal sep-free runs of `s`, so one
      more piece than `s` has separators (a lone empty piece for empty `s`). */
  function Split(s: string, sep: char): (pieces: seq<string>)
    ensures |pieces| >= 1
    ensures forall k | 0 <= k < |pieces| :: sep !in pieces[k]
    ensures Join(pieces, sep) == s
    decreases |s|
  {
    if |s| == 0 then [""]
    else
      var rest := Split(s[1..], sep);
      if s[0] == sep then
        assert s == [sep] + s[1..];
        [""] + rest
      else
        var r := [[s[0]] + rest[0]] + rest[1..];
        assert r[1..] == rest[1..];
        assert s == [s[0]] + s[1..];
        r
  }

  /** `strings.Cut(s, string(sep))`: the text before the first `sep`, and the
      text after it when there is one. */
  function Cut(s: string, sep: char): (r: (string, Option<string>))
    ensures r.1.Some? <==> sep in s
    ensures sep !in r.0
    ensures r.1.None? ==> r.0 == s
    ensures r.1.Some? ==> s == r.0 + [sep] + r.1.value
    decreases |s|
  {
    if |s| == 0 then ("", None)
    else if s[0] == sep then ("", Some(s[1..]))
    else
      var (before, after) := Cut(s[1..], sep);
      assert s == [s[0]] + s[1..];
      ([s[0]] + before, after)
  }

  /** A text has only one way of being cut at its first separator: the part
      before it is separator-free. */
  lemma FirstSeparatorUnique(a: string, b: string, c: string, d: string, sep: char)
    requires sep !in a && sep !in c
    requires a + [sep] + b == c + [sep] + d
    ensures a == c && b == d
  {
    CutOf(a, b, sep);
    CutOf(c, d, sep);
  }

  /** Cutting a separator-free text, a separator and anything after it gives
      back the two parts. */
  lemma {:induction false} CutOf(a: string, b: string, sep: char)
    requires sep !in a
    ensures Cut(a + [sep] + b, sep) == (a, Some(b))
    decreases |a|
  {
    if |a| > 0 {
      assert (a + [sep] + b)[1..] == a[1..] + [sep] + b;
      assert a == [a[0]] + a[1..];
      CutOf(a[1..], b, sep);
    } else {
      assert a + [sep] + b == [sep] + b;
    }
  }

  /** Splitting at every separator and rejoining all pieces but the first gives
      exactly the text after the first separator; the first piece is the text
      before it. This is how the parser recovers an attribute value and the
      trailing EXTINF information. */
  lemma {:induction false} SplitHeadTail(s: string, sep: char)
    ensures Split(s, sep)[0] == Cut(s, sep).0
    ensures |Split(s, sep)| > 1 <==> Cut(s, sep).1.Some?
    ensures |Split(s, sep)| > 1 ==> Join(Split(s, sep)[1..], sep) == Cut(s, sep).1.value
    decreases |s|
  {
    if |s| > 0 && s[0] != sep {
      SplitHeadTail(s[1..], sep);
    }
  }

  /** Split is the inverse of Join on non-empty lists of separator-free pieces. */
  lemma {:induction false} SplitJoin(pieces: seq<string>, sep: char)
    requires |pieces| >= 1
    requires forall k | 0 <= k < |pieces| :: sep !in pieces[k]
    ensures Split(Join(pieces, sep), sep) == pieces
    decreases |pieces|, |pieces[0]|
  {
    var s := Join(pieces, sep);
    if |pieces[0]| > 0 {
      var c := pieces[0][0];
      var tail := [pieces[0][1..]] + pieces[1..];
      SplitJoin(tail, sep);
      assert tail[1..] == pieces[1..];
      assert [c] + tail[0] == pieces[0];
      assert s == [c] + Join(tail, sep);
      assert s[1..] == Join(tail, sep);
      assert Split(s, sep) == [[c] + tail[0]] + tail[1..];
    } else if |pieces| > 1 {
      SplitJoin(pieces[1..], sep);
      assert s == [sep] + Join(pieces[1..], sep);
      assert s[1..] == Join(pieces[1..], sep);
    }
  }

  /** `strings.TrimLeft(s, cutset)`. */
  function TrimLeft(s: string, cutset: set<char>): (r: string)
    ensures |r| <= |s| && r == s[|s| - |r|..]
    ensures forall k | 0 <= k < |s| - |r| :: s[k] in cutset
    ensures |r| > 0 ==> r[0] !in cutset
    decreases |s|
  {
    if |s| > 0 && s[0] in cutset then
      var r := TrimLeft(s[1..], cutset);
      assert forall k | 1 <= k < |s| - |r| :: s[k] == s[1..][k - 1];
      assert s[|s| - |r|..] == s[1..][|s| - 1 - |r|..];
      r
    else s
  }

  /** `strings.TrimRight(s, cutset)`. */
  function TrimRight(s: string, cutset: set<char>): (r: string)
    ensures |r| <= |s| && r == s[..|r|]
    ensures forall k | |r| <= k < |s| :: s[k] in cutset
    ensures |r| > 0 ==> r[|r| - 1] !in cutset
    decreases |s|
  {
    if |s| > 0 && s[|s| - 1] in cutset then
      var r := TrimRight(s[..|s| - 1], cutset);
      assert forall k | |r| <= k < |s| - 1 :: s[k] == s[..|s| - 1][k];
      assert s[..|r|] == s[..|s| - 1][..|r|];
      r
    else s
  }

  /** `strings.Trim(s, cutset)`: `s` without its longest leading and trailing
      runs of cutset characters. */
  function Trim(s: string, cutset: set<char>): (r: string)
    ensures |r| <= |s|
    ensures |r| > 0 ==> r[0] !in cutset && r[|r| - 1] !in cutset
    ensures exists i :: TrimmedAt(s, cutset, r, i)
  {
    var left := TrimLeft(s, cutset);
    var r := TrimRight(left, cutset);
    var i := |s| - |left|;
    assert s[i..i + |r|] == r;
    assert TrimmedAt(s, cutset, r, i);
    r
  }

  /** `r` occurs in `s` at offset `i`, and everything of `s` around it is in
      `cutset`. */
  predicate TrimmedAt(s: string, cutset: set<char>, r: string, i: int) {
    && 0 <= i <= |s| - |r|
    && s[i..i + |r|] == r
    && (forall k | 0 <= k < i :: s[k] in cutset)
    && (forall k | i + |r| <= k < |s| :: s[k] in cutset)
  }
}
