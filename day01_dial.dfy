/**
 * A safe dial numbered 0 to 99 that is turned left or right with
 * wrap-around (Rust/2025/day_01/src/main.rs). The puzzle answer is the number
 * of instructions after which the dial reads 0.
 */
module Day01Dial {
  import opened Wrappers
  import opened RustText

  datatype Dir = Left | Right

  datatype Rotation = Rotation(direction: Dir, steps: nat)

  /** The two ways `Rotation::parse` fails; each message carries the instruction. */
  datatype RotationError = BadDirection(instruction: string) | BadSteps(instruction: string)

  /**
   * `&instruction[0..1]` slices the first byte: the source panics on an empty
   * instruction and on a first character that is not a single byte.
   */
  predicate Sliceable(instruction: string) {
    |instruction| > 0 && instruction[0] as int < 128
  }

  /** `Rotation::parse`: an `L` or `R`, then the step count as a `u16`. */
  function Parse(instruction: string): (r: Result<Rotation, RotationError>)
    requires Sliceable(instruction)
    ensures r.Ok? <==> (instruction[0] == 'L' || instruction[0] == 'R')
                       && ParseUnsigned(instruction[1..], U16Max).Some?
    ensures r.Ok? ==> (r.value.direction == Left <==> instruction[0] == 'L')
    ensures r.Ok? ==> r.value.steps == ParseUnsigned(instruction[1..], U16Max).value <= U16Max
    ensures r == Err(BadDirection(instruction)) <==> instruction[0] != 'L' && instruction[0] != 'R'
    ensures r == Err(BadSteps(instruction)) <==> (instruction[0] == 'L' || instruction[0] == 'R')
                                                 && ParseUnsigned(instruction[1..], U16Max).None?
  {
    var direction :=
      if instruction[0] == 'L' then Some(Left)
      else if instruction[0] == 'R' then Some(Right)
      else None;
    if direction.None? then Err(BadDirection(instruction))
    else match ParseUnsigned(instruction[1..], U16Max)
      case None => Err(BadSteps(instruction))
      case Some(steps) => Ok(Rotation(direction.value, steps))
  }

  /** How an instruction is written in the puzzle input. */
  function Instruction(rotation: Rotation): string {
    (if rotation.direction == Left then "L" else "R") + DecimalText(rotation.steps)
  }

  /** Every rotation the parser can produce is read back from its written form. */
  lemma ParseInstruction(rotation: Rotation)
    requires rotation.steps <= U16Max
    ensures Sliceable(Instruction(rotation))
    ensures Parse(Instruction(rotation)) == Ok(rotation)
  {
    var text := Instruction(rotation);
    var digits := DecimalText(rotation.steps);
    assert text[1..] == digits;
    assert digits[0] != '+' by { assert IsAsciiDigit(digits[0]); }
    DecimalTextValue(rotation.steps);
  }

  /** The signed step count: left turns count down. */
  function Offset(rotation: Rotation): int {
    var steps: int := rotation.steps;
    if rotation.direction == Left then -steps else steps
  }

  /** Where a dial at `position` points after `rotation`, in Euclidean residues mod 100. */
  function Turned(position: int, rotation: Rotation): (p: int)
    ensures 0 <= p <= 99
  {
    (position + Offset(rotation)) % 100
  }

  class Dial {
    var position: nat

    ghost predicate Valid()
      reads this
    {
      position <= 99
    }

    /** `Dial::new`: a new dial points at 50. */
    constructor ()
      ensures Valid() && position == 50
    {
      position := 50;
    }

    /**
     * `Dial::turn`: full turns are cut away first, then the `u8` position is
     * moved with one correction across 0; no intermediate value leaves `u8`.
     */
    method Turn(rotation: Rotation) returns (p: nat)
      requires Valid()
      modifies this
      ensures Valid()
      ensures position == Turned(old(position), rotation)
      ensures p == position
    {
      var steps := rotation.steps % 100;
      TurnCases(position, rotation);
      match rotation.direction {
        case Left =>
          if position < steps {
            assert position + 100 <= U8Max;
            position := position + 100 - steps;
          } else {
            position := position - steps;
          }
        case Right =>
          assert position + steps <= U8Max;
          position := position + steps;
          if position > 99 {
            position := position - 100;
          }
      }
      p := position;
    }
  }

  /** The case analysis of `Dial::turn` computes the Euclidean residue. */
  lemma TurnCases(position: nat, rotation: Rotation)
    requires position <= 99
    ensures var steps := rotation.steps % 100;
      Turned(position, rotation) ==
        match rotation.direction
        case Left => if position < steps then position + 100 - steps else position - steps
        case Right => if position + steps > 99 then position + steps - 100 else position + steps
  {
    var steps := rotation.steps % 100;
    var q := rotation.steps / 100;
    assert rotation.steps == 100 * q + steps;
    match rotation.direction {
      case Left =>
        var v := if position < steps then position + 100 - steps else position - steps;
        assert position + Offset(rotation) == v + 100 * (-q - (if position < steps then 1 else 0));
      case Right =>
        var v := if position + steps > 99 then position + steps - 100 else position + steps;
        assert position + Offset(rotation) == v + 100 * (q + (if position + steps > 99 then 1 else 0));
    }
  }

  /** Whole turns do not matter: `s` and `s + 100` steps end at the same place. */
  lemma WholeTurnsIgnored(position: int, direction: Dir, steps: nat)
    ensures Turned(position, Rotation(direction, steps + 100)) == Turned(position, Rotation(direction, steps))
  {
  }

  /** The sum of the signed steps of `rotations`. */
  function Net(rotations: seq<Rotation>): int {
    if rotations == [] then 0 else Net(rotations[..|rotations| - 1]) + Offset(rotations[|rotations| - 1])
  }

  /** Where a new dial points after all of `rotations`. */
  function Landing(rotations: seq<Rotation>): int {
    (50 + Net(rotations)) % 100
  }

  /** How many prefixes of `rotations` leave the dial at 0. */
  function ZeroCount(rotations: seq<Rotation>): nat {
    if rotations == [] then 0
    else ZeroCount(rotations[..|rotations| - 1]) + (if Landing(rotations) == 0 then 1 else 0)
  }

  lemma ModAdd(a: int, b: int)
    ensures (a % 100 + b) % 100 == (a + b) % 100
  {
    var q := a / 100;
    assert a == 100 * q + a % 100;
    assert a + b == (a % 100 + b) + 100 * q;
  }

  /** Turning step by step agrees with the closed form on the running sum. */
  lemma TurnedLanding(rotations: seq<Rotation>, rotation: Rotation)
    ensures Turned(Landing(rotations), rotation) == Landing(rotations + [rotation])
  {
    var extended := rotations + [rotation];
    assert extended[..|extended| - 1] == rotations;
    ModAdd(50 + Net(rotations), Offset(rotation));
  }

  /** The first `n` lines are instructions that parse. */
  predicate ParsedUpTo(lines: seq<string>, n: nat)
    requires n <= |lines|
  {
    forall k :: 0 <= k < n ==> Sliceable(lines[k]) && Parse(lines[k]).Ok?
  }

  /**
   * Every line that `calculate` reaches can be sliced: the first line, and
   * each later one as long as the lines before it parsed. The source panics
   * on the first reached line that cannot be sliced; a line after a parse
   * error is never looked at.
   */
  predicate ReachedSliceable(lines: seq<string>) {
    lines == [] || (Sliceable(lines[0]) && (Parse(lines[0]).Ok? ==> ReachedSliceable(lines[1..])))
  }

  /** The rotations of `lines`, or the error of the first line that does not parse. */
  function ParseAll(lines: seq<string>): (r: Result<seq<Rotation>, RotationError>)
    requires ReachedSliceable(lines)
    ensures r.Ok? ==> |r.value| == |lines|
  {
    if lines == [] then Ok([])
    else match Parse(lines[0])
      case Err(e) => Err(e)
      case Ok(rotation) =>
        match ParseAll(lines[1..])
        case Err(e) => Err(e)
        case Ok(rest) => Ok([rotation] + rest)
  }

  /**
   * A successful parse holds each line's rotation in order; a failed one
   * carries the error of the first line that does not parse, every line
   * before it having parsed.
   */
  lemma {:induction false} ParseAllLines(lines: seq<string>)
    requires ReachedSliceable(lines)
    ensures ParseAll(lines).Ok? ==> forall i :: 0 <= i < |lines| ==> Sliceable(lines[i]) && Parse(lines[i]) == Ok(ParseAll(lines).value[i])
    ensures ParseAll(lines).Err? ==> exists i :: 0 <= i < |lines| && ParsedUpTo(lines, i) && Sliceable(lines[i])
                                                 && Parse(lines[i]) == Err(ParseAll(lines).error)
  {
    if lines != [] {
      if Parse(lines[0]).Err? {
        assert ParsedUpTo(lines, 0);
      } else {
        ParseAllLines(lines[1..]);
        if ParseAll(lines[1..]).Err? {
          ParseAllErrorShift(lines, ParseAll(lines[1..]).error);
        } else {
          assert forall i :: 1 <= i < |lines| ==> lines[i] == lines[1..][i - 1];
        }
      }
    }
  }

  /** A first failing line of the rest of the input, after a first line that parses, is the first failing line of the input. */
  lemma ParseAllErrorShift(lines: seq<string>, e: RotationError)
    requires lines != [] && Sliceable(lines[0]) && Parse(lines[0]).Ok?
    requires exists j :: 0 <= j < |lines| - 1 && ParsedUpTo(lines[1..], j) && Sliceable(lines[1..][j]) && Parse(lines[1..][j]) == Err(e)
    ensures exists i :: 0 <= i < |lines| && ParsedUpTo(lines, i) && Sliceable(lines[i]) && Parse(lines[i]) == Err(e)
  {
    var rest := lines[1..];
    var j :| 0 <= j < |rest| && ParsedUpTo(rest, j) && Sliceable(rest[j]) && Parse(rest[j]) == Err(e);
    assert lines[j + 1] == rest[j];
    forall k | 0 <= k < j + 1 ensures Sliceable(lines[k]) && Parse(lines[k]).Ok? {
      if k > 0 {
        assert lines[k] == rest[k - 1];
      }
    }
    assert ParsedUpTo(lines, j + 1);
  }

  /** One more rotation adds one to the count exactly when it leaves the dial at 0. */
  lemma ZeroCountStep(rotations: seq<Rotation>, rotation: Rotation)
    ensures ZeroCount(rotations + [rotation]) == ZeroCount(rotations) + (if Landing(rotations + [rotation]) == 0 then 1 else 0)
  {
    assert (rotations + [rotation])[..|rotations|] == rotations;
  }

  /** `done` followed by the rotations of `rest`, unless `rest` is an error. */
  function Prepend(done: seq<Rotation>, rest: Result<seq<Rotation>, RotationError>): Result<seq<Rotation>, RotationError> {
    match rest
    case Err(e) => Err(e)
    case Ok(tail) => Ok(done + tail)
  }

  lemma PrependTwice(a: seq<Rotation>, b: seq<Rotation>, rest: Result<seq<Rotation>, RotationError>)
    ensures Prepend(a, Prepend(b, rest)) == Prepend(a + b, rest)
  {
    if rest.Ok? {
      assert a + (b + rest.value) == (a + b) + rest.value;
    }
  }

  /** The line at `i` decides: its error is the error, or its rotation leads those of the lines after it. */
  lemma ParseAllFront(lines: seq<string>, i: nat)
    requires i < |lines| && ReachedSliceable(lines[i..])
    ensures Sliceable(lines[i])
    ensures Parse(lines[i]).Err? ==> ParseAll(lines[i..]) == Err(Parse(lines[i]).error)
    ensures Parse(lines[i]).Ok? ==> ReachedSliceable(lines[i + 1..])
    ensures Parse(lines[i]).Ok? ==> ParseAll(lines[i..]) == Prepend([Parse(lines[i]).value], ParseAll(lines[i + 1..]))
  {
    assert lines[i..][0] == lines[i] && lines[i..][1..] == lines[i + 1..];
  }

  /**
   * `calculate`: turns a new dial by every instruction in order and counts
   * how often it then reads 0; the first malformed instruction is the error.
   */
  method Calculate(lines: seq<string>) returns (r: Result<nat, RotationError>)
    requires ReachedSliceable(lines)
    ensures r == match ParseAll(lines)
                 case Err(e) => Err(e)
                 case Ok(rotations) => Ok(ZeroCount(rotations))
  {
    var dial := new Dial();
    var count := 0;
    ghost var rotations: seq<Rotation> := [];
    var i := 0;
    assert lines[i..] == lines;
    assert Prepend(rotations, ParseAll(lines)) == ParseAll(lines) by {
      assert ParseAll(lines).Ok? ==> rotations + ParseAll(lines).value == ParseAll(lines).value;
    }
    while i < |lines|
      invariant 0 <= i <= |lines|
      invariant ReachedSliceable(lines[i..])
      invariant ParseAll(lines) == Prepend(rotations, ParseAll(lines[i..]))
      invariant dial.Valid() && dial.position == Landing(rotations)
      invariant count == ZeroCount(rotations)
    {
      ParseAllFront(lines, i);
      var rotation := Parse(lines[i]);
      if rotation.Err? {
        return Err(rotation.error);
      }
      var current := dial.Turn(rotation.value);
      TurnedLanding(rotations, rotation.value);
      ZeroCountStep(rotations, rotation.value);
      PrependTwice(rotations, [rotation.value], ParseAll(lines[i + 1..]));
      rotations := rotations + [rotation.value];
      if current == 0 {
        count := count + 1;
      }
      i := i + 1;
    }
    assert lines[i..] == [];
    assert rotations + [] == rotations;
    r := Ok(count);
  }

  /** The worked sample: ten instructions. */
  const Sample := [Rotation(Left, 68), Rotation(Left, 30), Rotation(Right, 48), Rotation(Left, 5), Rotation(Right, 60), Rotation(Left, 55), Rotation(Left, 1), Rotation(Left, 99), Rotation(Right, 14), Rotation(Left, 82)]

  /** The first five instructions of the sample leave the dial at 0 once, after the third. */
  lemma SampleFirstFive()
    ensures Net(Sample[..5]) == 5 && ZeroCount(Sample[..5]) == 1
  {
    var sample := Sample;
    assert sample[..0] == [];
    assert sample[..1][..0] == sample[..0] && sample[..1][0] == sample[0];
    assert Net(sample[..1]) == -68 && ZeroCount(sample[..1]) == 0;
    assert sample[..2][..1] == sample[..1] && sample[..2][1] == sample[1];
    assert Net(sample[..2]) == -98 && ZeroCount(sample[..2]) == 0;
    assert sample[..3][..2] == sample[..2] && sample[..3][2] == sample[2];
    assert Net(sample[..3]) == -50 && ZeroCount(sample[..3]) == 1;
    assert sample[..4][..3] == sample[..3] && sample[..4][3] == sample[3];
    assert Net(sample[..4]) == -55 && ZeroCount(sample[..4]) == 1;
    assert sample[..5][..4] == sample[..4] && sample[..5][4] == sample[4];
  }

  /** The sample leaves the dial at 0 three times: after the third, sixth and eighth instructions. */
  lemma SampleCountsThree()
    ensures ZeroCount(Sample) == 3
  {
    var sample := Sample;
    SampleFirstFive();
    assert sample[..6][..5] == sample[..5] && sample[..6][5] == sample[5];
    assert Net(sample[..6]) == -50 && ZeroCount(sample[..6]) == 2;
    assert sample[..7][..6] == sample[..6] && sample[..7][6] == sample[6];
    assert Net(sample[..7]) == -51 && ZeroCount(sample[..7]) == 2;
    assert sample[..8][..7] == sample[..7] && sample[..8][7] == sample[7];
    assert Net(sample[..8]) == -150 && ZeroCount(sample[..8]) == 3;
    assert sample[..9][..8] == sample[..8] && sample[..9][8] == sample[8];
    assert Net(sample[..9]) == -136 && ZeroCount(sample[..9]) == 3;
    assert sample[..10][..9] == sample[..9] && sample[..10][9] == sample[9];
    assert Net(sample[..10]) == -218 && ZeroCount(sample[..10]) == 3;
    assert sample[..10] == sample;
  }
}
