/**
 * Beams falling through a grid of empty cells '.' and splitters '^'
 * (Rust/2025/day_07/src/main.rs). A beam starts at every 'S' of the first
 * row and moves down one row at a time; a splitter below a beam stops it and
 * starts two beams beside the splitter. Part one rewrites the grid in place
 * and counts the splitters hit; part two follows every path separately with
 * a queue and counts the paths ("timelines") that reach the last row.
 */
module Day07Beams {
  import opened Wrappers

  type Grid = seq<seq<char>>

  datatype BeamError = UnevenLines | InvalidCharacter

  /** Every row has width `w`. */
  predicate Rectangular(g: Grid, w: nat) {
    forall y :: 0 <= y < |g| ==> |g[y]| == w
  }

  /**
   * No splitter below the first row sits in the first or last column, so
   * the beams it starts stay inside the grid; the source relies on this
   * property of the puzzle data and would index out of range without it.
   */
  predicate EdgesClear(g: Grid) {
    forall y :: 1 <= y < |g| && |g[y]| > 0 ==> g[y][0] != '^' && g[y][|g[y]| - 1] != '^'
  }

  predicate IsBeam(c: char) {
    c == '|' || c == 'S'
  }

  /** `h` is `g` with some cells overwritten by '|' and nothing else changed. */
  ghost predicate OnlyBeamsWritten(g: Grid, h: Grid) {
    |h| == |g| && (forall y :: 0 <= y < |g| ==> |h[y]| == |g[y]|)
    && forall y, x :: 0 <= y < |g| && 0 <= x < |g[y]| ==> h[y][x] == g[y][x] || h[y][x] == '|'
  }

  // ---- part one --------------------------------------------------------------------

  /**
   * Cell (`y`, `x`) of part one's scan: a beam above '.' or '|' continues
   * down, a beam above '^' marks both neighbours of the splitter and counts
   * one split, a beam above anything else is an error. Only row `y` + 1 changes.
   */
  function Step(g: Grid, w: nat, y: nat, x: nat): (r: Result<(Grid, nat), BeamError>)
    requires Rectangular(g, w) && EdgesClear(g) && y + 1 < |g| && x < w
    ensures r.Err? <==> IsBeam(g[y][x]) && g[y + 1][x] != '.' && g[y + 1][x] != '|' && g[y + 1][x] != '^'
    ensures r.Err? ==> r.error == InvalidCharacter
    ensures r.Ok? ==> r.value.1 == (if IsBeam(g[y][x]) && g[y + 1][x] == '^' then 1 else 0)
    ensures r.Ok? ==> var h := r.value.0;
      Rectangular(h, w) && EdgesClear(h) && OnlyBeamsWritten(g, h)
      && (forall k :: 0 <= k < |g| && k != y + 1 ==> h[k] == g[k])
      && (IsBeam(g[y][x]) && g[y + 1][x] != '^' ==> h[y + 1] == g[y + 1][x := '|'])
      && (IsBeam(g[y][x]) && g[y + 1][x] == '^' ==> 0 < x < w - 1 && h[y + 1] == g[y + 1][x - 1 := '|'][x + 1 := '|'])
      && (!IsBeam(g[y][x]) ==> h == g)
  {
    if !IsBeam(g[y][x]) then Ok((g, 0))
    else if g[y + 1][x] == '.' || g[y + 1][x] == '|' then Ok((g[y + 1 := g[y + 1][x := '|']], 0))
    else if g[y + 1][x] == '^' then Ok((g[y + 1 := g[y + 1][x - 1 := '|'][x + 1 := '|']], 1))
    else Err(InvalidCharacter)
  }

  /**
   * Part one's scan from cell (`y`, `x`) on, with `splits` counted so far:
   * rows 0 to |g| - 2, each from left to right. The grid is only ever
   * written with '|', the first row never, and the count only grows.
   */
  function Scan(g: Grid, w: nat, y: nat, x: nat, splits: nat): (r: Result<(Grid, nat), BeamError>)
    requires Rectangular(g, w) && EdgesClear(g) && y < |g| && x <= w
    decreases |g| - y, w - x
    ensures r.Ok? ==> var h := r.value.0;
      Rectangular(h, w) && OnlyBeamsWritten(g, h) && h[0] == g[0] && splits <= r.value.1
    ensures r.Err? ==> r.error == InvalidCharacter
  {
    if y + 1 >= |g| then Ok((g, splits))
    else if x == w then Scan(g, w, y + 1, 0, splits)
    else match Step(g, w, y, x)
      case Err(e) => Err(e)
      case Ok((h, d)) => Scan(h, w, y, x + 1, splits + d)
  }

  /** `calculate_part_one` on the lines of the input. */
  method CalculatePartOne(lines: seq<string>) returns (r: Result<nat, BeamError>)
    requires |lines| >= 1 && EdgesClear(lines)
    ensures !Rectangular(lines, |lines[0]|) ==> r == Err(UnevenLines)
    ensures Rectangular(lines, |lines[0]|) ==>
      r == match Scan(lines, |lines[0]|, 0, 0, 0)
           case Err(e) => Err(e)
           case Ok((_, splits)) => Ok(splits)
  {
    var grid := lines;
    var width, splits := |grid[0]|, 0;
    if exists y :: 0 <= y < |grid| && |grid[y]| != width {
      return Err(UnevenLines);
    }
    for y := 0 to |grid| - 1
      invariant |grid| == |lines| && Rectangular(grid, width) && EdgesClear(grid)
      invariant Scan(grid, width, y, 0, splits) == Scan(lines, width, 0, 0, 0)
    {
      for x := 0 to width
        invariant |grid| == |lines| && Rectangular(grid, width) && EdgesClear(grid)
        invariant Scan(grid, width, y, x, splits) == Scan(lines, width, 0, 0, 0)
      {
        if grid[y][x] == '|' || grid[y][x] == 'S' {
          var below := grid[y + 1][x];
          if below == '.' || below == '|' {
            grid := grid[y + 1 := grid[y + 1][x := '|']];
          } else if below == '^' {
            grid := grid[y + 1 := grid[y + 1][x - 1 := '|'][x + 1 := '|']];
            splits := splits + 1;
          } else {
            return Err(InvalidCharacter);
          }
        }
      }
    }
    r := Ok(splits);
  }

  /** Splitters in `row` from column `x` on. */
  function CaretsFrom(row: seq<char>, x: nat): nat
    decreases |row| - x
  {
    if x >= |row| then 0 else (if row[x] == '^' then 1 else 0) + CaretsFrom(row, x + 1)
  }

  /** Splitters in rows `y` to |g| - 1. */
  function CaretRows(g: Grid, y: nat): nat
    decreases |g| - y
  {
    if y >= |g| then 0 else CaretsFrom(g[y], 0) + CaretRows(g, y + 1)
  }

  /** Writing a beam never adds a splitter, and one left of `x` does not affect the count from `x`. */
  lemma {:induction false} CaretsFromWrite(row: seq<char>, i: nat, x: nat)
    requires i < |row|
    decreases |row| - x
    ensures CaretsFrom(row[i := '|'], x) <= CaretsFrom(row, x)
    ensures i < x ==> CaretsFrom(row[i := '|'], x) == CaretsFrom(row, x)
  {
    if x < |row| {
      CaretsFromWrite(row, i, x + 1);
    }
  }

  lemma {:induction false} CaretRowsUnchanged(g: Grid, h: Grid, y: nat)
    requires |g| == |h| && forall k :: y <= k < |g| ==> h[k] == g[k]
    decreases |g| - y
    ensures CaretRows(h, y) == CaretRows(g, y)
  {
    if y < |g| {
      CaretRowsUnchanged(g, h, y + 1);
    }
  }

  /**
   * Every split of the scan from (`y`, `x`) on is counted at a splitter the
   * scan reaches from directly above: the remaining ones of row `y` + 1 from
   * column `x`, and those of the rows below.
   */
  lemma {:induction false} ScanSplitsBound(g: Grid, w: nat, y: nat, x: nat, splits: nat)
    requires Rectangular(g, w) && EdgesClear(g) && y < |g| && x <= w
    requires Scan(g, w, y, x, splits).Ok?
    decreases |g| - y, w - x
    ensures Scan(g, w, y, x, splits).value.1 <= splits + (if y + 1 < |g| then CaretsFrom(g[y + 1], x) else 0) + CaretRows(g, y + 2)
  {
    if y + 1 >= |g| {
    } else if x == w {
      ScanSplitsBound(g, w, y + 1, 0, splits);
      assert CaretsFrom(g[y + 1], x) == 0;
      if y + 2 < |g| {
        assert CaretRows(g, y + 2) == CaretsFrom(g[y + 2], 0) + CaretRows(g, y + 3);
      }
    } else {
      var (h, d) := Step(g, w, y, x).value;
      StepSplitsBound(g, w, y, x);
      ScanSplitsBound(h, w, y, x + 1, splits + d);
    }
  }

  /** A step counts a split only at the splitter below it, and leaves the rows further down alone. */
  lemma StepSplitsBound(g: Grid, w: nat, y: nat, x: nat)
    requires Rectangular(g, w) && EdgesClear(g) && y + 1 < |g| && x < w
    requires Step(g, w, y, x).Ok?
    ensures Step(g, w, y, x).value.1 + CaretsFrom(Step(g, w, y, x).value.0[y + 1], x + 1) <= CaretsFrom(g[y + 1], x)
    ensures CaretRows(Step(g, w, y, x).value.0, y + 2) == CaretRows(g, y + 2)
  {
    var (h, d) := Step(g, w, y, x).value;
    CaretRowsUnchanged(g, h, y + 2);
    if !IsBeam(g[y][x]) {
    } else if g[y + 1][x] == '^' {
      CaretsFromWrite(g[y + 1], x - 1, x + 1);
      CaretsFromWrite(g[y + 1][x - 1 := '|'], x + 1, x + 1);
    } else {
      CaretsFromWrite(g[y + 1], x, x + 1);
    }
  }

  /** Part one never counts more splits than there are splitters below the first row. */
  lemma PartOneSplitsBound(g: Grid)
    requires |g| >= 1 && Rectangular(g, |g[0]|) && EdgesClear(g)
    requires Scan(g, |g[0]|, 0, 0, 0).Ok?
    ensures Scan(g, |g[0]|, 0, 0, 0).value.1 <= CaretRows(g, 1)
  {
    ScanSplitsBound(g, |g[0]|, 0, 0, 0);
    if 1 < |g| {
      assert CaretRows(g, 1) == CaretsFrom(g[1], 0) + CaretRows(g, 2);
    }
  }

  // ---- part two --------------------------------------------------------------------

  datatype Beam = Beam(x: nat, y: nat)

  predicate InGrid(g: Grid, w: nat, b: Beam) {
    b.x < w && b.y < |g|
  }

  /** Sum of two path counts; either count failing makes the sum fail. */
  function Plus(a: Result<nat, BeamError>, b: Result<nat, BeamError>): Result<nat, BeamError> {
    if a.Err? || b.Err? then Err(InvalidCharacter) else Ok(a.value + b.value)
  }

  function Pow2(k: nat): (r: nat)
    ensures r >= 1
  {
    if k == 0 then 1 else 2 * Pow2(k - 1)
  }

  function Pow3(k: nat): (r: nat)
    ensures r >= 1
  {
    if k == 0 then 1 else 3 * Pow3(k - 1)
  }

  /**
   * The number of paths from a beam at (`x`, `y`) to the last row: '.' below
   * continues the one path, '^' below adds the paths of the two beams beside
   * it, anything else (also 'S' and '|') is an error. Every beam lies on at
   * least one path and on at most one per split it can meet.
   */
  function Timelines(g: Grid, w: nat, x: nat, y: nat): (r: Result<nat, BeamError>)
    requires Rectangular(g, w) && EdgesClear(g) && x < w && y < |g|
    decreases |g| - y
    ensures r.Err? ==> r.error == InvalidCharacter
    ensures r.Ok? ==> 1 <= r.value <= Pow2(|g| - 1 - y)
  {
    if y + 1 >= |g| then Ok(1)
    else if g[y + 1][x] == '.' then Timelines(g, w, x, y + 1)
    else if g[y + 1][x] == '^' then Plus(Timelines(g, w, x - 1, y + 1), Timelines(g, w, x + 1, y + 1))
    else Err(InvalidCharacter)
  }

  /** The paths of all `beams` together. */
  function SumOver(g: Grid, w: nat, beams: seq<Beam>): Result<nat, BeamError>
    requires Rectangular(g, w) && EdgesClear(g)
    requires forall b :: b in beams ==> InGrid(g, w, b)
  {
    if beams == [] then Ok(0)
    else
      var b := beams[0];
      assert b in beams;
      assert InGrid(g, w, b);
      Plus(Timelines(g, w, b.x, b.y), SumOver(g, w, beams[1..]))
  }

  lemma {:induction false} SumOverAppend(g: Grid, w: nat, beams: seq<Beam>, b: Beam)
    requires Rectangular(g, w) && EdgesClear(g)
    requires forall b :: b in beams ==> InGrid(g, w, b)
    requires InGrid(g, w, b)
    ensures SumOver(g, w, beams + [b]) == Plus(SumOver(g, w, beams), Timelines(g, w, b.x, b.y))
  {
    if beams != [] {
      assert (beams + [b])[1..] == beams[1..] + [b];
      SumOverAppend(g, w, beams[1..], b);
    }
  }

  /** Termination measure of the queue: a beam `k` rows above the last weighs 3^k. */
  function Weight(g: Grid, beams: seq<Beam>): nat
    requires forall b :: b in beams ==> b.y < |g|
  {
    if beams == [] then 0 else Pow3(|g| - 1 - beams[0].y) + Weight(g, beams[1..])
  }

  lemma {:induction false} WeightAppend(g: Grid, beams: seq<Beam>, b: Beam)
    requires forall b :: b in beams ==> b.y < |g|
    requires b.y < |g|
    ensures Weight(g, beams + [b]) == Weight(g, beams) + Pow3(|g| - 1 - b.y)
  {
    if beams != [] {
      assert (beams + [b])[1..] == beams[1..] + [b];
      WeightAppend(g, beams[1..], b);
    }
  }

  /** The beams part two starts with: one per 'S' among the first `k` cells of the first row, in order. */
  function Seeds(row: seq<char>, k: nat): (r: seq<Beam>)
    requires k <= |row|
    ensures forall i :: 0 <= i < |r| ==> r[i].y == 0 && r[i].x < k && row[r[i].x] == 'S'
    ensures forall x :: 0 <= x < k && row[x] == 'S' ==> Beam(x, 0) in r
  {
    if k == 0 then [] else Seeds(row, k - 1) + (if row[k - 1] == 'S' then [Beam(k - 1, 0)] else [])
  }

  /** Path counts add up in any order. */
  lemma PlusRegroup(t: nat, a: Result<nat, BeamError>, rest: Result<nat, BeamError>, b: Result<nat, BeamError>)
    ensures Plus(Ok(t), Plus(Plus(rest, a), b)) == Plus(Ok(t), Plus(Plus(a, b), rest))
  {
  }

  lemma PlusSwap(t: nat, a: Result<nat, BeamError>, rest: Result<nat, BeamError>)
    ensures Plus(Ok(t), Plus(rest, a)) == Plus(Ok(t), Plus(a, rest))
  {
  }

  /** Taking the first beam off the queue: its paths and its weight leave the totals. */
  lemma QueueFront(g: Grid, w: nat, beams: seq<Beam>)
    requires Rectangular(g, w) && EdgesClear(g) && beams != [] && InGrid(g, w, beams[0])
    requires forall b :: b in beams ==> InGrid(g, w, b)
    ensures forall b :: b in beams[1..] ==> InGrid(g, w, b)
    ensures SumOver(g, w, beams) == Plus(Timelines(g, w, beams[0].x, beams[0].y), SumOver(g, w, beams[1..]))
    ensures Weight(g, beams) == Pow3(|g| - 1 - beams[0].y) + Weight(g, beams[1..])
  {
    assert beams[0] in beams;
  }

  /** Putting a beam at the back of the queue adds its paths and its weight. */
  lemma QueueAppend(g: Grid, w: nat, beams: seq<Beam>, b: Beam)
    requires Rectangular(g, w) && EdgesClear(g) && InGrid(g, w, b)
    requires forall c :: c in beams ==> InGrid(g, w, c)
    ensures forall c :: c in beams + [b] ==> InGrid(g, w, c)
    ensures SumOver(g, w, beams + [b]) == Plus(SumOver(g, w, beams), Timelines(g, w, b.x, b.y))
    ensures Weight(g, beams + [b]) == Weight(g, beams) + Pow3(|g| - 1 - b.y)
  {
    SumOverAppend(g, w, beams, b);
    WeightAppend(g, beams, b);
  }

  /** A beam on the last row is one more path. */
  lemma BottomStep(g: Grid, w: nat, t: nat, beams: seq<Beam>)
    requires Rectangular(g, w) && EdgesClear(g) && beams != []
    requires forall b :: b in beams ==> InGrid(g, w, b)
    requires InGrid(g, w, beams[0]) && beams[0].y + 1 >= |g|
    ensures forall b :: b in beams[1..] ==> InGrid(g, w, b)
    ensures Plus(Ok(t + 1), SumOver(g, w, beams[1..])) == Plus(Ok(t), SumOver(g, w, beams))
    ensures Weight(g, beams[1..]) < Weight(g, beams)
  {
    QueueFront(g, w, beams);
  }

  /** A beam above '.' moves one row down, to the back of the queue. */
  lemma DownStep(g: Grid, w: nat, t: nat, beams: seq<Beam>)
    requires Rectangular(g, w) && EdgesClear(g) && beams != []
    requires forall b :: b in beams ==> InGrid(g, w, b)
    requires InGrid(g, w, beams[0]) && beams[0].y + 1 < |g| && g[beams[0].y + 1][beams[0].x] == '.'
    ensures var next := beams[1..] + [Beam(beams[0].x, beams[0].y + 1)];
      (forall b :: b in next ==> InGrid(g, w, b))
      && Plus(Ok(t), SumOver(g, w, next)) == Plus(Ok(t), SumOver(g, w, beams))
      && Weight(g, next) < Weight(g, beams)
  {
    var b := beams[0];
    QueueFront(g, w, beams);
    QueueAppend(g, w, beams[1..], Beam(b.x, b.y + 1));
    PlusSwap(t, Timelines(g, w, b.x, b.y), SumOver(g, w, beams[1..]));
  }

  /** A beam above '^' becomes the two beams beside the splitter, one row down. */
  lemma SplitStep(g: Grid, w: nat, t: nat, beams: seq<Beam>)
    requires Rectangular(g, w) && EdgesClear(g) && beams != []
    requires forall b :: b in beams ==> InGrid(g, w, b)
    requires InGrid(g, w, beams[0]) && beams[0].y + 1 < |g| && g[beams[0].y + 1][beams[0].x] == '^'
    ensures 0 < beams[0].x
    ensures var next := beams[1..] + [Beam(beams[0].x - 1, beams[0].y + 1)] + [Beam(beams[0].x + 1, beams[0].y + 1)];
      (forall b :: b in next ==> InGrid(g, w, b))
      && Plus(Ok(t), SumOver(g, w, next)) == Plus(Ok(t), SumOver(g, w, beams))
      && Weight(g, next) < Weight(g, beams)
  {
    var b := beams[0];
    QueueFront(g, w, beams);
    var left, right := Beam(b.x - 1, b.y + 1), Beam(b.x + 1, b.y + 1);
    QueueAppend(g, w, beams[1..], left);
    QueueAppend(g, w, beams[1..] + [left], right);
    PlusRegroup(t, Timelines(g, w, left.x, left.y), SumOver(g, w, beams[1..]), Timelines(g, w, right.x, right.y));
  }

  /** `calculate_part_two` on the lines of the input. */
  method CalculatePartTwo(lines: seq<string>) returns (r: Result<nat, BeamError>)
    requires |lines| >= 1 && EdgesClear(lines)
    ensures !Rectangular(lines, |lines[0]|) ==> r == Err(UnevenLines)
    ensures Rectangular(lines, |lines[0]|) ==>
      r == SumOver(lines, |lines[0]|, Seeds(lines[0], |lines[0]|))
  {
    var grid := lines;
    var width := |grid[0]|;
    if exists y :: 0 <= y < |grid| && |grid[y]| != width {
      return Err(UnevenLines);
    }
    var beams: seq<Beam> := [];
    for x := 0 to width
      invariant beams == Seeds(grid[0], x)
    {
      if grid[0][x] == 'S' {
        beams := beams + [Beam(x, 0)];
      }
    }
    r := DrainQueue(grid, width, beams);
  }

  lemma MulSucc(n: nat, p: nat)
    ensures (n + 1) * p == p + n * p
  {
  }

  /**
   * The `while let` loop of `calculate_part_two`: takes beams from the
   * front of the queue, counts those on the last row and puts the beams one
   * row lower at the back.
   */
  method DrainQueue(grid: Grid, width: nat, seeds: seq<Beam>) returns (r: Result<nat, BeamError>)
    requires Rectangular(grid, width) && EdgesClear(grid)
    requires forall b :: b in seeds ==> InGrid(grid, width, b)
    ensures r == SumOver(grid, width, seeds)
  {
    var beams, timelines := seeds, 0;
    while beams != []
      invariant forall b :: b in beams ==> InGrid(grid, width, b)
      invariant Plus(Ok(timelines), SumOver(grid, width, beams)) == SumOver(grid, width, seeds)
      decreases Weight(grid, beams)
    {
      var beam := beams[0];
      assert beam in beams;
      var x, y := beam.x, beam.y;
      if y + 1 >= |grid| {
        BottomStep(grid, width, timelines, beams);
        beams, timelines := beams[1..], timelines + 1;
        continue;
      }
      if grid[y + 1][x] == '.' {
        DownStep(grid, width, timelines, beams);
        beams := beams[1..] + [Beam(x, y + 1)];
      } else if grid[y + 1][x] == '^' {
        SplitStep(grid, width, timelines, beams);
        beams := beams[1..] + [Beam(x - 1, y + 1)] + [Beam(x + 1, y + 1)];
      } else {
        assert Timelines(grid, width, x, y).Err?;
        QueueFront(grid, width, beams);
        return Err(InvalidCharacter);
      }
    }
    r := Ok(timelines);
  }

  /**
   * Part two counts at least one path per start and at most one per start
   * and combination of splits: between |seeds| and |seeds| * 2^(|g| - 1).
   */
  lemma {:induction false} SumOverBounds(g: Grid, w: nat, beams: seq<Beam>)
    requires |g| >= 1 && Rectangular(g, w) && EdgesClear(g)
    requires forall b :: b in beams ==> InGrid(g, w, b) && b.y == 0
    requires SumOver(g, w, beams).Ok?
    ensures |beams| <= SumOver(g, w, beams).value <= |beams| * Pow2(|g| - 1)
  {
    if beams != [] {
      var b, rest := beams[0], beams[1..];
      assert b in beams && InGrid(g, w, b);
      assert forall c :: c in rest ==> c in beams;
      SumOverBounds(g, w, rest);
      var t, u := Timelines(g, w, b.x, b.y), SumOver(g, w, rest);
      assert SumOver(g, w, beams) == Plus(t, u);
      assert 1 <= t.value <= Pow2(|g| - 1);
      MulSucc(|rest|, Pow2(|g| - 1));
    }
  }
}
