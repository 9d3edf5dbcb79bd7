/**
 * A character-by-character tokenizer (Rust/2025/day_03/src/operations.rs).
 * The state is the token being built; feeding one character gives a new
 * state and, when a token ends, the token that was collected.
 */
module Day03Operations {
  import Wrappers
  import opened RustText

  /** The token under construction, with the text gathered so far. */
  datatype Operation = Integer(text: string) | Float(text: string) | String(text: string) | None

  /**
   * A collected token. The `f64` value of a float is not modelled: a float
   * token keeps the literal that `str::parse::<f64>` accepted.
   */
  datatype OperationResult =
    | Integer(value: int)
    | Float(literal: string)
    | String(text: string)
    | ParsingError(text: string)
    | None

  type Step = (Operation, Wrappers.Option<OperationResult>)

  // ---- the float syntax `str::parse::<f64>` accepts -------------------------

  function AsciiLower(c: char): char {
    if 'A' <= c <= 'Z' then (c as int + 32) as char else c
  }

  function Lower(s: string): (r: string)
    ensures |r| == |s|
  {
    seq(|s|, i requires 0 <= i < |s| => AsciiLower(s[i]))
  }

  /** The position of the first exponent marker `e` or `E` at or after `from`. */
  function ExponentIndex(s: string, from: nat): (r: Wrappers.Option<nat>)
    decreases |s| - from
    ensures r.Some? ==> from <= r.value < |s|
  {
    if from >= |s| then Wrappers.None
    else if s[from] == 'e' || s[from] == 'E' then Wrappers.Some(from)
    else ExponentIndex(s, from + 1)
  }

  /** Digits with at most one `.` and at least one digit: `1`, `1.`, `.5`, `1.5`. */
  predicate IsMantissa(m: string) {
    match IndexOf(m, ".", 0)
    case None => |m| > 0 && AllDigits(m)
    case Some(d) => AllDigits(m[..d]) && AllDigits(m[d + 1..]) && |m| > 1
  }

  predicate IsExponent(e: string) {
    var digits := if |e| > 0 && (e[0] == '+' || e[0] == '-') then e[1..] else e;
    |digits| > 0 && AllDigits(digits)
  }

  /** The grammar of Rust's `f64::from_str`: an optional sign, then `inf`, `infinity`, `nan` or a decimal. */
  predicate IsFloatLiteral(s: string) {
    var body := if |s| > 0 && (s[0] == '+' || s[0] == '-') then s[1..] else s;
    Lower(body) in {"inf", "infinity", "nan"} ||
    match ExponentIndex(body, 0)
    case None => IsMantissa(body)
    case Some(i) => IsMantissa(body[..i]) && IsExponent(body[i + 1..])
  }

  // ---- what the states can hold ---------------------------------------------

  /** Integer text: a digit or `-`, then digits and `.`s; a leading `-` is followed by a digit. */
  predicate IntegerText(t: string) {
    |t| >= 1 && (IsAsciiDigit(t[0]) || t[0] == '-') &&
    (forall i :: 1 <= i < |t| ==> IsAsciiDigit(t[i]) || t[i] == '.') &&
    (|t| >= 2 && t[0] == '-' ==> IsAsciiDigit(t[1]))
  }

  /** Float text: integer text other than `-`, then one `.`. */
  predicate FloatText(t: string) {
    |t| >= 2 && t[|t| - 1] == '.' && IntegerText(t[..|t| - 1]) && t[..|t| - 1] != "-"
  }

  /** String text: a first character that does not start a number, then anything but spaces. */
  predicate StringText(t: string) {
    |t| >= 1 && !IsAsciiDigit(t[0]) && t[0] != '-' &&
    forall i :: 1 <= i < |t| ==> t[i] != ' '
  }

  /** The invariant of the state machine: every state but `None` holds non-empty text of its kind. */
  predicate WellFormed(op: Operation) {
    match op
    case Integer(t) => IntegerText(t)
    case Float(t) => FloatText(t)
    case String(t) => StringText(t)
    case None => true
  }

  // ---- the transitions --------------------------------------------------------

  /** The token an integer text collects to: its `i64` value, or a parsing error. */
  function IntegerResult(text: string): (r: OperationResult)
    ensures r.Integer? || r == ParsingError(text)
    ensures r.Integer? <==> ParseI64(text).Some?
    ensures r.Integer? ==> r.value == ParseI64(text).value
  {
    match ParseI64(text)
    case Some(value) => OperationResult.Integer(value)
    case None => ParsingError(text)
  }

  /** The token a float text collects to: the accepted literal, or a parsing error. */
  function FloatResult(text: string): (r: OperationResult)
    ensures r.Float? || r == ParsingError(text)
    ensures r.Float? <==> IsFloatLiteral(text)
    ensures r.Float? ==> r.literal == text
  {
    if IsFloatLiteral(text) then OperationResult.Float(text) else ParsingError(text)
  }

  /** `none_get_next`: a digit or `-` starts an integer, anything else a string. */
  function NoneGetNext(c: char): (r: Step)
    ensures WellFormed(r.0) && r.0 != Operation.None && r.1 == Wrappers.None
    ensures r.0.text == [c]
  {
    if IsAsciiDigit(c) || c == '-' then (Operation.Integer([c]), Wrappers.None)
    else (Operation.String([c]), Wrappers.None)
  }

  /** `integer_get_next`: digits extend, a `.` turns into a float, anything else ends the integer. */
  function IntegerGetNext(c: char, text: string): (r: Step)
    requires IntegerText(text)
    ensures WellFormed(r.0) && r.0 != Operation.None
    ensures r.1.Some? <==> !IsAsciiDigit(c) && (c != '.' || text == "-")
    ensures r.1.Some? ==> r.1.value == IntegerResult(text) && r.0 == NoneGetNext(c).0
  {
    if IsAsciiDigit(c) then (Operation.Integer(text + [c]), Wrappers.None)
    else if c == '.' && text != "-" then (Operation.Float(text + [c]), Wrappers.None)
    else (NoneGetNext(c).0, Wrappers.Some(IntegerResult(text)))
  }

  /** `float_get_next`: a digit is appended but the state returns to `Integer`; anything else ends the float. */
  function FloatGetNext(c: char, text: string): (r: Step)
    requires FloatText(text)
    ensures WellFormed(r.0) && r.0 != Operation.None
    ensures r.1.Some? <==> !IsAsciiDigit(c)
    ensures r.1.Some? ==> r.1.value == FloatResult(text) && r.0 == NoneGetNext(c).0
  {
    if IsAsciiDigit(c) then (Operation.Integer(text + [c]), Wrappers.None)
    else (NoneGetNext(c).0, Wrappers.Some(FloatResult(text)))
  }

  /** `string_get_next`: a space ends the string, anything else is appended. */
  function StringGetNext(c: char, text: string): (r: Step)
    requires StringText(text)
    ensures WellFormed(r.0)
    ensures r.1.Some? <==> c == ' '
    ensures r.1.Some? ==> r == (Operation.None, Wrappers.Some(OperationResult.String(text)))
  {
    if c == ' ' then (Operation.None, Wrappers.Some(OperationResult.String(text)))
    else (Operation.String(text + [c]), Wrappers.None)
  }

  /** `Operation::next`: one character through the state machine; the invariant is kept. */
  function Next(op: Operation, c: char): (r: Step)
    requires WellFormed(op)
    ensures WellFormed(r.0)
    ensures r.0 == Operation.None ==> op.String? && c == ' '
  {
    match op
    case None => NoneGetNext(c)
    case Integer(text) => IntegerGetNext(c, text)
    case Float(text) => FloatGetNext(c, text)
    case String(text) => StringGetNext(c, text)
  }

  /** `Operation::collect_operation`: ends the current token, whatever it is. */
  function CollectOperation(op: Operation): (r: (Operation, OperationResult))
    ensures r.0 == Operation.None
    ensures op == Operation.None <==> r.1 == OperationResult.None
    ensures op.String? ==> r.1 == OperationResult.String(op.text)
    ensures op.Integer? ==> r.1 == IntegerResult(op.text)
    ensures op.Float? ==> r.1 == FloatResult(op.text)
  {
    match op
    case None => (Operation.None, OperationResult.None)
    case Integer(text) => (Operation.None, IntegerResult(text))
    case Float(text) => (Operation.None, FloatResult(text))
    case String(text) => (Operation.None, OperationResult.String(text))
  }

  // ---- properties of the transitions -------------------------------------------

  /** From `None`, a digit or `-` starts an integer and any other character, a space too, starts a string. */
  lemma NoneStarts(c: char)
    ensures Next(Operation.None, c) ==
      if IsAsciiDigit(c) || c == '-' then (Operation.Integer([c]), Wrappers.None)
      else (Operation.String([c]), Wrappers.None)
  {
  }

  /** An integer takes a digit by appending it, and emits nothing. */
  lemma IntegerAppendsDigit(text: string, c: char)
    requires IntegerText(text) && IsAsciiDigit(c)
    ensures Next(Operation.Integer(text), c) == (Operation.Integer(text + [c]), Wrappers.None)
  {
  }

  /** A `.` turns an integer into a float holding the `.`, unless the text is a lone `-`. */
  lemma IntegerDotStartsFloat(text: string)
    requires IntegerText(text)
    ensures Next(Operation.Integer(text), '.').0 ==
      if text != "-" then Operation.Float(text + ".") else Operation.String(".")
  {
  }

  /** An integer ended by another character emits its value, or the error, and restarts from that character. */
  lemma IntegerEnds(text: string, c: char)
    requires IntegerText(text) && !IsAsciiDigit(c) && (c != '.' || text == "-")
    ensures Next(Operation.Integer(text), c) == (NoneGetNext(c).0, Wrappers.Some(IntegerResult(text)))
  {
  }

  /** A float followed by a digit comes back as an `Integer` state holding the longer text. */
  lemma FloatDigitGivesInteger(text: string, c: char)
    requires FloatText(text) && IsAsciiDigit(c)
    ensures Next(Operation.Float(text), c) == (Operation.Integer(text + [c]), Wrappers.None)
  {
  }

  /** A string swallows every character but a space, digits and `-` included. */
  lemma StringAppends(text: string, c: char)
    requires StringText(text) && c != ' '
    ensures Next(Operation.String(text), c) == (Operation.String(text + [c]), Wrappers.None)
  {
  }

  // ---- whole inputs ------------------------------------------------------------

  /**
   * The state after feeding every character of `s` to `next` in order, and
   * the tokens emitted on the way. The source only defines the single step;
   * this fold states what a caller feeding a line one character at a time gets.
   */
  ghost function Feed(op: Operation, s: string): (r: (Operation, seq<OperationResult>))
    requires WellFormed(op)
    ensures WellFormed(r.0)
    ensures |r.1| <= |s|
  {
    if s == [] then (op, [])
    else
      var before := Feed(op, s[..|s| - 1]);
      var step := Next(before.0, s[|s| - 1]);
      (step.0, before.1 + if step.1.Some? then [step.1.value] else [])
  }

  /** A run of digits fed from `None` builds one integer state holding the whole run, and emits nothing. */
  lemma {:induction false} DigitsBuildInteger(d: string)
    requires |d| > 0 && forall i :: 0 <= i < |d| ==> IsAsciiDigit(d[i])
    ensures Feed(Operation.None, d) == (Operation.Integer(d), [])
  {
    var p := d[..|d| - 1];
    if p == [] {
      NoneStarts(d[0]);
      assert [d[0]] == d;
    } else {
      DigitsBuildInteger(p);
      IntegerAppendsDigit(p, d[|d| - 1]);
      assert p + [d[|d| - 1]] == d;
    }
  }

  /**
   * A run of digits followed by a space emits the run's integer result, and
   * the space, fed to `None`, starts a string.
   */
  lemma {:induction false} DigitsThenSpace(d: string)
    requires |d| > 0 && forall i :: 0 <= i < |d| ==> IsAsciiDigit(d[i])
    ensures Feed(Operation.None, d + [' ']) == (Operation.String(" "), [IntegerResult(d)])
  {
    var s := d + [' '];
    assert s[..|s| - 1] == d && s[|s| - 1] == ' ';
    DigitsBuildInteger(d);
    assert IntegerText(d);
    IntegerEnds(d, ' ');
    assert NoneGetNext(' ').0 == Operation.String(" ");
    assert [] + [IntegerResult(d)] == [IntegerResult(d)];
  }

  /**
   * Because of that, an integer text that has passed through a `.` can never
   * be emitted as an integer: it always collects to a parsing error.
   */
  lemma IntegerWithDotFails(text: string, k: nat)
    requires IntegerText(text) && k < |text| && text[k] == '.'
    ensures IntegerResult(text) == ParsingError(text)
  {
    if text[0] == '-' {
      assert text[1..][k - 1] == '.';
    } else {
      assert !AllDigits(text);
    }
  }

  lemma DigitsHaveNoDot(s: string)
    requires AllDigits(s)
    ensures IndexOf(s, ".", 0).None?
  {
  }

  lemma NoExponent(s: string, from: nat)
    requires forall i :: 0 <= i < |s| ==> IsAsciiDigit(s[i]) || s[i] == '.'
    ensures ExponentIndex(s, from).None?
    decreases |s| - from
  {
    if from < |s| {
      NoExponent(s, from + 1);
    }
  }

  /** Digits followed by one `.` form a mantissa. */
  lemma DigitsDotIsMantissa(digits: string)
    requires |digits| > 0 && AllDigits(digits)
    ensures IsMantissa(digits + ".")
  {
    var m := digits + ".";
    var d := |digits|;
    forall k | 0 <= k < d ensures !MatchesAt(m, ".", k) {
      assert m[k] == digits[k];
    }
    assert MatchesAt(m, ".", d);
    assert m[..d] == digits;
    assert m[d + 1..] == [];
  }

  /** Text ending in `.` with another `.` before it is no mantissa. */
  lemma TwoDotsNoMantissa(m: string, j: nat)
    requires |m| >= 2 && m[|m| - 1] == '.' && j < |m| - 1 && m[j] == '.'
    ensures !IsMantissa(m)
  {
    assert MatchesAt(m, ".", j);
    var d := IndexOf(m, ".", 0).value;
    assert m[d + 1..][|m| - d - 2] == '.';
  }

  /** A float text has no exponent and is no special word, so it is a float exactly when it is a mantissa. */
  lemma FloatTextBody(text: string)
    requires FloatText(text)
    ensures var body := if text[0] == '-' then text[1..] else text;
      IsFloatLiteral(text) <==> IsMantissa(body)
  {
    var body := if text[0] == '-' then text[1..] else text;
    assert IsAsciiDigit(body[0]);
    assert forall i :: 0 <= i < |body| ==> IsAsciiDigit(body[i]) || body[i] == '.';
    NoExponent(body, 0);
    assert Lower(body)[0] == body[0];
  }

  /** Without a `.` before the last character, a float text is an optional `-`, digits, and one `.`. */
  lemma FloatTextDigits(text: string)
    requires FloatText(text) && forall i :: 0 <= i < |text| - 1 ==> text[i] != '.'
    ensures var body := if text[0] == '-' then text[1..] else text;
      |body| >= 2 && AllDigits(body[..|body| - 1]) && body == body[..|body| - 1] + "."
  {
    var body := if text[0] == '-' then text[1..] else text;
    var digits := body[..|body| - 1];
    forall i | 0 <= i < |digits| ensures IsAsciiDigit(digits[i]) {
      var k := if text[0] == '-' then i + 1 else i;
      assert digits[i] == text[k];
    }
  }

  /**
   * A float text collects to a float exactly when the integer text before
   * its final `.` holds no other `.`.
   */
  lemma FloatCollects(text: string)
    requires FloatText(text)
    ensures FloatResult(text).Float? <==> forall i :: 0 <= i < |text| - 1 ==> text[i] != '.'
  {
    var body := if text[0] == '-' then text[1..] else text;
    FloatTextBody(text);
    if forall i :: 0 <= i < |text| - 1 ==> text[i] != '.' {
      FloatTextDigits(text);
      DigitsDotIsMantissa(body[..|body| - 1]);
    } else {
      var i :| 0 <= i < |text| - 1 && text[i] == '.';
      var j := if text[0] == '-' then i - 1 else i;
      assert body[j] == '.';
      TwoDotsNoMantissa(body, j);
    }
  }
}
