/**
 * The parts of Rust's string handling that the puzzle solvers lean on:
 * `str::parse` for unsigned and signed integers, and `str::split` with a
 * non-empty separator. Strings are sequences of Unicode scalar values, as
 * Rust's `chars()` yields them.
 */
module RustText {
  import opened Wrappers

  const U8Max: nat := 0xFF
  const U16Max: nat := 0xFFFF
  const I64Max: int := 0x7FFF_FFFF_FFFF_FFFF
  const I64Min: int := -0x8000_0000_0000_0000

  predicate IsAsciiDigit(c: char) {
    '0' <= c <= '9'
  }

  function DigitValue(c: char): (d: nat)
    requires IsAsciiDigit(c)
    ensures d <= 9
  {
    c as int - '0' as int
  }

  function DigitChar(d: nat): (c: char)
    requires d <= 9
    ensures IsAsciiDigit(c) && DigitValue(c) == d
  {
    ('0' as int + d) as char
  }

  predicate AllDigits(s: string) {
    forall i :: 0 <= i < |s| ==> IsAsciiDigit(s[i])
  }

  /** The value of a decimal numeral, most significant digit first. */
  function DigitsValue(s: string): nat
    requires AllDigits(s)
  {
    if s == [] then 0 else 10 * DigitsValue(s[..|s| - 1]) + DigitValue(s[|s| - 1])
  }

  /** The decimal numeral of `n`, without leading zeros. */
  function DecimalText(n: nat): (s: string)
    ensures |s| > 0 && AllDigits(s)
  {
    if n < 10 then [DigitChar(n)] else DecimalText(n / 10) + [DigitChar(n % 10)]
  }

  lemma {:induction false} DecimalTextValue(n: nat)
    ensures DigitsValue(DecimalText(n)) == n
  {
    var s := DecimalText(n);
    if n >= 10 {
      DecimalTextValue(n / 10);
      assert s[..|s| - 1] == DecimalText(n / 10);
    }
  }

  /**
   * `str::parse` for an unsigned integer type whose largest value is `max`:
   * an optional `+`, then at least one ASCII digit and nothing else; a value
   * above `max` is an overflow error. No whitespace is skipped.
   */
  function ParseUnsigned(s: string, max: nat): (r: Option<nat>)
    ensures r.Some? ==> r.value <= max
    ensures r.Some? ==> s != [] && s != "+"
  {
    var digits := if |s| > 0 && s[0] == '+' then s[1..] else s;
    if |digits| == 0 || !AllDigits(digits) || DigitsValue(digits) > max then None
    else Some(DigitsValue(digits))
  }

  /** `str::parse::<i64>`: as `ParseUnsigned`, but a leading `-` negates. */
  function ParseI64(s: string): (r: Option<int>)
    ensures r.Some? ==> I64Min <= r.value <= I64Max
    ensures r.Some? ==> s != [] && s != "-" && s != "+"
  {
    if |s| > 0 && s[0] == '-' then
      var digits := s[1..];
      if |digits| == 0 || !AllDigits(digits) || DigitsValue(digits) > -I64Min then None
      else
        var magnitude: int := DigitsValue(digits);
        Some(-magnitude)
    else
      ParseUnsigned(s, I64Max)
  }

  /** The text Rust's `Display` gives an integer. */
  function IntText(v: int): string {
    if v < 0 then "-" + DecimalText(-v) else DecimalText(v)
  }

  /** Parsing is the inverse of printing on the whole i64 range. */
  lemma ParseI64IntText(v: int)
    requires I64Min <= v <= I64Max
    ensures ParseI64(IntText(v)) == Some(v)
  {
    if v < 0 {
      var t := DecimalText(-v);
      assert ("-" + t)[1..] == t;
      DecimalTextValue(-v);
    } else {
      var t := DecimalText(v);
      assert t[0] != '+' && t[0] != '-' by { assert IsAsciiDigit(t[0]); }
      DecimalTextValue(v);
    }
  }

  /** A single character parsed as a `u8` is accepted exactly when it is an ASCII digit. */
  lemma ParseSingleDigit(c: char)
    ensures ParseUnsigned([c], U8Max).Some? <==> IsAsciiDigit(c)
    ensures IsAsciiDigit(c) ==> ParseUnsigned([c], U8Max) == Some(DigitValue(c))
  {
    if IsAsciiDigit(c) {
      assert c != '+';
      assert [c][..0] == [];
      assert DigitsValue([c]) == DigitValue(c);
    } else if c == '+' {
      assert [c][1..] == [];
    } else {
      assert !IsAsciiDigit([c][0]);
    }
  }

  predicate MatchesAt(s: string, sep: string, i: nat) {
    i + |sep| <= |s| && s[i..i + |sep|] == sep
  }

  /** The first position at or after `from` where `sep` occurs in `s`. */
  function IndexOf(s: string, sep: string, from: nat): (r: Option<nat>)
    decreases |s| - from
    ensures r.Some? ==> from <= r.value && MatchesAt(s, sep, r.value)
    ensures r.Some? ==> forall k :: from <= k < r.value ==> !MatchesAt(s, sep, k)
    ensures r.None? ==> forall k :: from <= k ==> !MatchesAt(s, sep, k)
  {
    if from + |sep| > |s| then None
    else if MatchesAt(s, sep, from) then Some(from)
    else IndexOf(s, sep, from + 1)
  }

  /**
   * `str::split` with a non-empty separator: the pieces between the
   * leftmost non-overlapping occurrences of `sep`, empty pieces included.
   */
  function Split(s: string, sep: string): (parts: seq<string>)
    requires |sep| > 0
    decreases |s|
    ensures |parts| >= 1
  {
    match IndexOf(s, sep, 0)
    case None => [s]
    case Some(i) => [s[..i]] + Split(s[i + |sep|..], sep)
  }

  function Join(parts: seq<string>, sep: string): string
    requires |parts| >= 1
  {
    if |parts| == 1 then parts[0] else parts[0] + sep + Join(parts[1..], sep)
  }

  /** Splitting loses nothing: joining the pieces with the separator gives the text back. */
  lemma {:induction false} JoinSplit(s: string, sep: string)
    requires |sep| > 0
    decreases |s|
    ensures Join(Split(s, sep), sep) == s
  {
    match IndexOf(s, sep, 0)
    case None =>
    case Some(i) =>
      var rest := s[i + |sep|..];
      var parts := Split(s, sep);
      assert parts == [s[..i]] + Split(rest, sep);
      assert parts[1..] == Split(rest, sep);
      assert Join(parts, sep) == s[..i] + sep + Join(Split(rest, sep), sep);
      JoinSplit(rest, sep);
      assert s[i..i + |sep|] == sep;
      assert s == s[..i] + s[i..i + |sep|] + rest;
  }

  /** The text before the first occurrence of `sep` holds no occurrence of it. */
  lemma BeforeFirstMatch(s: string, sep: string, i: nat)
    requires |sep| > 0 && IndexOf(s, sep, 0) == Some(i)
    ensures forall j :: !MatchesAt(s[..i], sep, j)
  {
    forall j: nat ensures !MatchesAt(s[..i], sep, j) {
      if j + |sep| <= i {
        assert !MatchesAt(s, sep, j);
        assert s[..i][j..j + |sep|] == s[j..j + |sep|];
      }
    }
  }

  /** No piece of a split contains the separator. */
  lemma {:induction false} SplitPiecesFree(s: string, sep: string, k: nat)
    requires |sep| > 0 && k < |Split(s, sep)|
    decreases |s|
    ensures forall j :: !MatchesAt(Split(s, sep)[k], sep, j)
  {
    match IndexOf(s, sep, 0)
    case None =>
      assert Split(s, sep) == [s];
    case Some(i) =>
      var rest := s[i + |sep|..];
      assert Split(s, sep) == [s[..i]] + Split(rest, sep);
      if k == 0 {
        BeforeFirstMatch(s, sep, i);
      } else {
        assert Split(s, sep)[k] == Split(rest, sep)[k - 1];
        SplitPiecesFree(rest, sep, k - 1);
      }
  }

  /** A text without the separator's first character splits into itself alone. */
  lemma SplitFree(s: string, sep: string)
    requires |sep| > 0 && sep[0] !in s
    ensures Split(s, sep) == [s]
  {
    forall k | 0 <= k < |s| ensures !MatchesAt(s, sep, k) {
      if k + |sep| <= |s| {
        assert s[k..k + |sep|][0] == s[k];
      }
    }
  }

  /** Splitting `a`, `sep`, `b` gives back `a` and `b` when neither holds the separator's first character. */
  lemma SplitAtOnly(a: string, sep: string, b: string)
    requires |sep| > 0 && sep[0] !in a && sep[0] !in b
    ensures Split(a + sep + b, sep) == [a, b]
  {
    var s := a + sep + b;
    assert s[|a|..|a| + |sep|] == sep;
    assert MatchesAt(s, sep, |a|);
    forall k | 0 <= k < |a| ensures !MatchesAt(s, sep, k) {
      assert s[k] == a[k];
    }
    assert s[|a| + |sep|..] == b;
    SplitFree(b, sep);
    assert IndexOf(s, sep, 0) == Some(|a|);
    assert s[..|a|] == a;
  }
}
