/** Go's `uint64`: the width of every counter, sequence number and numeric tag
    value in the monitor, its wrap-around increment, and the decimal parser
    `strconv.ParseUint(s, 10, 64)` that reads numeric tag values. */
module UInt64 {
  import opened Wrappers

  const TWO_TO_THE_64: int := 0x1_0000_0000_0000_0000

  newtype u64 = x: int | 0 <= x < 0x1_0000_0000_0000_0000

  const MAX: u64 := 0xFFFF_FFFF_FFFF_FFFF

  /** Go's `x += 1` (or `x++`) on a uint64: one more, modulo 2^64. */
  function Inc64(x: u64): (r: u64)
    ensures r as int == (x as int + 1) % TWO_TO_THE_64
    ensures x < MAX ==> r as int == x as int + 1
  {
    if x == MAX then 0 else x + 1
  }

  predicate IsDigit(c: char) {
    '0' <= c <= '9'
  }

  predicate AllDigits(s: string) {
    forall i | 0 <= i < |s| :: IsDigit(s[i])
  }

  function DigitValue(c: char): (d: nat)
    requires IsDigit(c)
    ensures d < 10
  {
    c as int - '0' as int
  }

  function DigitChar(d: nat): (c: char)
    requires d < 10
    ensures IsDigit(c) && DigitValue(c) == d
  {
    ('0' as int + d) as char
  }

  /** The number a string of decimal digits denotes (most significant first). */
  function DigitsValue(s: string): nat
    requires AllDigits(s)
    decreases |s|
  {
    if |s| == 0 then 0 else DigitsValue(s[..|s| - 1]) * 10 + DigitValue(s[|s| - 1])
  }

  /** `strconv.ParseUint(s, 10, 64)`: base 10 admits no sign, no prefix and no
      underscores, so the input must be a non-empty run of ASCII digits whose
      value fits in 64 bits (a larger value is Go's range error). */
  function ParseUint(s: string): (r: Option<u64>)
    ensures r.Some? <==> |s| > 0 && AllDigits(s) && DigitsValue(s) < TWO_TO_THE_64
    ensures r.Some? ==> r.value as int == DigitsValue(s)
  {
    if |s| > 0 && AllDigits(s) && DigitsValue(s) <= MAX as int then Some(DigitsValue(s) as u64) else None
  }

  /** The shortest decimal spelling of `n` (Go's `strconv.FormatUint(n, 10)`). */
  function FormatUint(n: nat): (s: string)
    ensures |s| > 0 && AllDigits(s)
    ensures DigitsValue(s) == n
    ensures |s| > 1 ==> s[0] != '0'
  {
    if n < 10 then [DigitChar(n)]
    else
      var prefix := FormatUint(n / 10);
      var s := prefix + [DigitChar(n % 10)];
      assert s[..|s| - 1] == prefix;
      s
  }

  /** Parsing the decimal spelling of any number gives the number back exactly
      when it fits in 64 bits, and Go's range error otherwise. */
  lemma ParseFormatRoundTrip(n: nat)
    ensures n < TWO_TO_THE_64 ==> ParseUint(FormatUint(n)) == Some(n as u64)
    ensures n >= TWO_TO_THE_64 ==> ParseUint(FormatUint(n)) == None
  {
  }

  /** Leading zeros do not change the value: the parser accepts "007" as 7. */
  lemma {:induction false} DigitsValueLeadingZero(s: string)
    requires AllDigits(s)
    ensures AllDigits("0" + s)
    ensures DigitsValue("0" + s) == DigitsValue(s)
    decreases |s|
  {
    if |s| > 0 {
      var init := s[..|s| - 1];
      DigitsValueLeadingZero(init);
      assert ("0" + s)[..|"0" + s| - 1] == "0" + init;
    }
  }

  /** Zero-padding the spelling of a value that fits is still accepted, with
      the same value. */
  lemma ParseUintLeadingZero(s: string)
    requires ParseUint(s).Some?
    ensures ParseUint("0" + s) == ParseUint(s)
  {
    DigitsValueLeadingZero(s);
  }
}
