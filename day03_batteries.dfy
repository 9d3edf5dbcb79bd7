/**
 * Battery banks (Rust/2025/day_03/src/main.rs): each input line is a row of
 * single-digit batteries, and a bank's joltage is the largest two-digit
 * number formed by a battery and a battery to its right.
 */
module Day03Batteries {
  import opened Wrappers
  import opened RustText

  type Digit = d: nat | d <= 9

  /** The `ParseIntError` of parsing one character as a `u8`. */
  datatype BankError = InvalidDigit

  /** The batteries a line of ASCII digits describes, in order. */
  function Bank(line: string): (bank: seq<Digit>)
    requires AllDigits(line)
    ensures |bank| == |line|
  {
    seq(|line|, i requires 0 <= i < |line| => DigitValue(line[i]))
  }

  /** `BatteryBank::parse`: one digit per character, in order; any other character is an error. */
  method ParseBank(line: string) returns (r: Result<seq<Digit>, BankError>)
    ensures r.Ok? <==> AllDigits(line)
    ensures r.Ok? ==> |r.value| == |line|
    ensures r.Ok? ==> forall i :: 0 <= i < |line| ==> r.value[i] == DigitValue(line[i])
  {
    var batteries: seq<Digit> := [];
    for i := 0 to |line|
      invariant |batteries| == i
      invariant forall k :: 0 <= k < i ==> IsAsciiDigit(line[k]) && batteries[k] == DigitValue(line[k])
    {
      ParseSingleDigit(line[i]);
      var parsed := ParseUnsigned([line[i]], U8Max);
      if parsed.None? {
        return Err(InvalidDigit);
      }
      batteries := batteries + [parsed.value];
    }
    return Ok(batteries);
  }

  /** The two-digit number with tens digit `tens` and ones digit `ones`. */
  function PairValue(tens: Digit, ones: Digit): nat {
    10 * tens + ones
  }

  /** `j` is the largest `PairValue(bank[a], bank[b])` over positions `a < b`. */
  ghost predicate IsBestPair(bank: seq<Digit>, j: nat) {
    (exists a, b :: 0 <= a < b < |bank| && j == PairValue(bank[a], bank[b])) &&
    (forall a, b {:trigger PairValue(bank[a], bank[b])} :: 0 <= a < b < |bank| ==> PairValue(bank[a], bank[b]) <= j)
  }

  function Max(x: nat, y: nat): nat {
    if x >= y then x else y
  }

  /** The largest battery of a non-empty row. */
  function SeqMax(s: seq<Digit>): (m: Digit)
    requires |s| >= 1
  {
    if |s| == 1 then s[0] else Max(SeqMax(s[..|s| - 1]), s[|s| - 1])
  }

  lemma {:induction false} SeqMaxIsMax(s: seq<Digit>)
    requires |s| >= 1
    ensures exists k :: 0 <= k < |s| && s[k] == SeqMax(s)
    ensures forall k :: 0 <= k < |s| ==> s[k] <= SeqMax(s)
  {
    if |s| > 1 {
      SeqMaxIsMax(s[..|s| - 1]);
      var k :| 0 <= k < |s| - 1 && s[..|s| - 1][k] == SeqMax(s[..|s| - 1]);
      assert s[k] == s[..|s| - 1][k];
      var w := if SeqMax(s) == s[k] then k else |s| - 1;
      assert s[w] == SeqMax(s);
      assert forall i :: 0 <= i < |s| - 1 ==> s[i] == s[..|s| - 1][i];
    } else {
      assert s[0] == SeqMax(s);
    }
  }

  /** Reference definition: each battery as the tens digit, paired with the best battery after it. */
  function BestPair(bank: seq<Digit>): nat
    requires |bank| >= 2
  {
    if |bank| == 2 then PairValue(bank[0], bank[1])
    else Max(PairValue(bank[0], SeqMax(bank[1..])), BestPair(bank[1..]))
  }

  lemma {:induction false} BestPairIsBest(bank: seq<Digit>)
    requires |bank| >= 2
    ensures IsBestPair(bank, BestPair(bank))
  {
    if |bank| == 2 {
      assert BestPair(bank) == PairValue(bank[0], bank[1]);
    } else {
      var rest := bank[1..];
      var best := BestPair(bank);
      var first := PairValue(bank[0], SeqMax(rest));
      SeqMaxIsMax(rest);
      BestPairIsBest(rest);
      var k :| 0 <= k < |rest| && rest[k] == SeqMax(rest);
      var a, b :| 0 <= a < b < |rest| && BestPair(rest) == PairValue(rest[a], rest[b]);
      if first >= BestPair(rest) {
        assert best == PairValue(bank[0], bank[k + 1]);
      } else {
        assert best == PairValue(bank[a + 1], bank[b + 1]);
      }
      forall a', b' | 0 <= a' < b' < |bank| ensures PairValue(bank[a'], bank[b']) <= best {
        assert bank[b'] == rest[b' - 1];
        if a' == 0 {
          assert bank[b'] <= SeqMax(rest);
        } else {
          assert bank[a'] == rest[a' - 1];
          assert PairValue(rest[a' - 1], rest[b' - 1]) <= BestPair(rest);
        }
      }
    }
  }

  /** Two values that are both the best pair are the same value. */
  lemma BestPairUnique(bank: seq<Digit>, j1: nat, j2: nat)
    requires IsBestPair(bank, j1) && IsBestPair(bank, j2)
    ensures j1 == j2
  {
    var a1, b1 :| 0 <= a1 < b1 < |bank| && j1 == PairValue(bank[a1], bank[b1]);
    var a2, b2 :| 0 <= a2 < b2 < |bank| && j2 == PairValue(bank[a2], bank[b2]);
  }

  /** What `joltage` computes: the best pair, or the only battery of a one-battery bank. */
  function BestJoltage(bank: seq<Digit>): nat
    requires |bank| >= 1
  {
    if |bank| == 1 then bank[0] else BestPair(bank)
  }

  /**
   * `BatteryBank::joltage`: one greedy pass keeps the highest battery seen
   * before the last one, and the best battery after its first occurrence.
   * `len() - 1` underflows on an empty bank, hence the precondition.
   */
  method Joltage(bank: seq<Digit>) returns (j: nat)
    requires |bank| >= 1
    ensures |bank| >= 2 ==> IsBestPair(bank, j)
    ensures |bank| == 1 ==> j == bank[0]
    ensures j == BestJoltage(bank)
    ensures j <= 99
  {
    var highest: Digit := 0;
    var secondHighest: Digit := 0;
    ghost var p := 0;
    for i := 0 to |bank| - 1
      invariant p <= i
      invariant i > 0 ==> p < i && bank[p] == highest
      invariant i == 0 ==> highest == 0 && secondHighest == 0
      invariant forall k :: 0 <= k < i ==> bank[k] <= highest
      invariant forall k :: 0 <= k < p ==> bank[k] < highest
      invariant forall k :: p < k < i ==> bank[k] <= secondHighest
      invariant secondHighest == 0 || exists k :: p < k < i && bank[k] == secondHighest
    {
      var battery := bank[i];
      if battery > highest {
        highest := battery;
        secondHighest := 0;
        p := i;
      } else if battery > secondHighest {
        secondHighest := battery;
      }
    }
    var lastBattery := bank[|bank| - 1];
    if lastBattery > secondHighest {
      secondHighest := lastBattery;
    }
    j := highest * 10 + secondHighest;
    if |bank| >= 2 {
      ghost var n := |bank|;
      ghost var b :| p < b < n && bank[b] == secondHighest;
      assert j == PairValue(bank[p], bank[b]);
      forall a, b | 0 <= a < b < n ensures PairValue(bank[a], bank[b]) <= j {
        if bank[a] < highest {
          assert PairValue(bank[a], bank[b]) <= 10 * (highest - 1) + 9;
        }
      }
      BestPairIsBest(bank);
      BestPairUnique(bank, j, BestPair(bank));
    }
  }

  lemma PairDigits(tens: Digit, ones: Digit)
    ensures PairValue(tens, ones) / 10 == tens && PairValue(tens, ones) % 10 == ones
  {
  }

  lemma PairOrder(tens1: Digit, ones1: Digit, tens2: Digit, ones2: Digit)
    requires PairValue(tens1, ones1) <= PairValue(tens2, ones2)
    ensures tens1 <= tens2
  {
  }

  /** The tens digit is the best battery among all but the last one. */
  lemma TensDigitSkipsLast(bank: seq<Digit>)
    requires |bank| >= 2
    ensures BestJoltage(bank) / 10 == SeqMax(bank[..|bank| - 1])
  {
    var last := |bank| - 1;
    var j := BestPair(bank);
    BestPairIsBest(bank);
    var a, b :| 0 <= a < b <= last && j == PairValue(bank[a], bank[b]);
    PairDigits(bank[a], bank[b]);
    var front := bank[..last];
    SeqMaxIsMax(front);
    var m :| 0 <= m < last && front[m] == SeqMax(front);
    assert bank[m] == front[m] && bank[a] == front[a];
    assert PairValue(bank[m], bank[last]) <= j;
    PairOrder(bank[m], bank[last], bank[a], bank[b]);
  }

  /** The units digit is a battery after the first one, so it is at most the best of those. */
  lemma UnitsDigitSkipsFirst(bank: seq<Digit>)
    requires |bank| >= 2
    ensures BestJoltage(bank) % 10 <= SeqMax(bank[1..])
  {
    var j := BestPair(bank);
    BestPairIsBest(bank);
    var a, b :| 0 <= a < b < |bank| && j == PairValue(bank[a], bank[b]);
    PairDigits(bank[a], bank[b]);
    var tail := bank[1..];
    SeqMaxIsMax(tail);
    assert bank[b] == tail[b - 1];
  }

  /** All lines that describe non-empty banks. */
  ghost predicate AllBanks(lines: seq<string>) {
    forall i :: 0 <= i < |lines| ==> AllDigits(lines[i]) && |lines[i]| > 0
  }

  /** The sum of the joltages of all banks. */
  function TotalJoltage(lines: seq<string>): nat
    requires forall i :: 0 <= i < |lines| ==> AllDigits(lines[i]) && |lines[i]| > 0
  {
    if lines == [] then 0
    else TotalJoltage(lines[..|lines| - 1]) + BestJoltage(Bank(lines[|lines| - 1]))
  }

  /**
   * `calculate`: parses every line as a bank and sums the joltages; the first
   * line with a character other than a digit makes it fail. An empty line
   * would make `joltage` underflow, hence the precondition.
   */
  method Calculate(lines: seq<string>) returns (r: Result<nat, BankError>)
    requires forall i :: 0 <= i < |lines| ==> |lines[i]| > 0
    ensures r.Err? <==> exists i :: 0 <= i < |lines| && !AllDigits(lines[i])
    ensures r.Ok? ==> r.value == TotalJoltage(lines)
  {
    var count := 0;
    for i := 0 to |lines|
      invariant forall k :: 0 <= k < i ==> AllDigits(lines[k])
      invariant count == TotalJoltage(lines[..i])
    {
      var bank := ParseBank(lines[i]);
      if bank.Err? {
        return Err(InvalidDigit);
      }
      assert bank.value == Bank(lines[i]);
      var joltage := Joltage(bank.value);
      assert lines[..i + 1][..i] == lines[..i];
      count := count + joltage;
    }
    assert lines[..|lines|] == lines;
    return Ok(count);
  }
}
