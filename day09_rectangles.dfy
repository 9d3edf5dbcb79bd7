/**
 * Rectangles spanned by pairs of red tiles (Rust/2025/day_09/src/main.rs).
 * Each input line is a point `x,y`. Part one finds the largest rectangle,
 * counted in tiles with both corners included, over all pairs of points.
 * Part two walks the points as a closed loop, gives each point the unit
 * direction to the next one, and keeps only the rectangles that a heuristic
 * check (`IsValid`) accepts.
 */
module Day09Rectangles {
  import opened Wrappers
  import opened RustText

  datatype Point = Point(x: int, y: int)

  /** E2 is a line without a comma; a part that is no `i64` is a parse error. */
  datatype PointError = MissingSecond | InvalidInteger(text: string)

  /**
   * `part_one::get_point` and `part_two::Point::parse`: the first two
   * comma-separated parts of `line` as `i64`s; later parts are ignored. The
   * first part is parsed before the second is looked for.
   */
  function GetPoint(line: string): (r: Result<Point, PointError>)
    ensures var parts := Split(line, ",");
      && (r.Ok? <==> |parts| >= 2 && ParseI64(parts[0]).Some? && ParseI64(parts[1]).Some?)
      && (r.Ok? ==> r.value == Point(ParseI64(parts[0]).value, ParseI64(parts[1]).value))
      && (ParseI64(parts[0]).None? ==> r == Err(InvalidInteger(parts[0])))
      && (r == Err(MissingSecond) <==> ParseI64(parts[0]).Some? && |parts| == 1)
  {
    var parts := Split(line, ",");
    match ParseI64(parts[0])
    case None => Err(InvalidInteger(parts[0]))
    case Some(x) =>
      if |parts| < 2 then Err(MissingSecond)
      else match ParseI64(parts[1])
        case None => Err(InvalidInteger(parts[1]))
        case Some(y) => Ok(Point(x, y))
  }

  lemma IntTextHasNoComma(v: int)
    ensures ',' !in IntText(v)
  {
    var t := if v < 0 then DecimalText(-v) else DecimalText(v);
    assert forall i :: 0 <= i < |t| ==> t[i] != ',' by {
      assert AllDigits(t);
    }
    if v < 0 {
      assert IntText(v) == "-" + t;
    }
  }

  /** Reading back a point written as `x,y` gives the point. */
  lemma GetPointRoundTrip(p: Point)
    requires I64Min <= p.x <= I64Max && I64Min <= p.y <= I64Max
    ensures GetPoint(IntText(p.x) + "," + IntText(p.y)) == Ok(p)
  {
    IntTextHasNoComma(p.x);
    IntTextHasNoComma(p.y);
    SplitAtOnly(IntText(p.x), ",", IntText(p.y));
    assert IntText(p.x) + "," + IntText(p.y) == IntText(p.x) + [','] + IntText(p.y);
    ParseI64IntText(p.x);
    ParseI64IntText(p.y);
  }

  /** The points of `lines`, or the error of the first line that is no point. */
  function ParseAll(lines: seq<string>): (r: Result<seq<Point>, PointError>)
    ensures r.Ok? ==> |r.value| == |lines|
    ensures r.Ok? ==> forall i :: 0 <= i < |lines| ==> GetPoint(lines[i]) == Ok(r.value[i])
    ensures r.Err? ==> exists i :: 0 <= i < |lines| && GetPoint(lines[i]) == Err(r.error)
  {
    if lines == [] then Ok([])
    else match ParseAll(lines[..|lines| - 1])
      case Err(e) => Err(e)
      case Ok(points) =>
        match GetPoint(lines[|lines| - 1])
        case Err(e) => Err(e)
        case Ok(p) => Ok(points + [p])
  }

  lemma {:induction false} ParseAllFailurePersists(lines: seq<string>, n: nat)
    requires n <= |lines| && ParseAll(lines[..n]).Err?
    decreases |lines| - n
    ensures ParseAll(lines) == ParseAll(lines[..n])
  {
    if n < |lines| {
      assert lines[..n + 1][..n] == lines[..n];
      ParseAllFailurePersists(lines, n + 1);
    } else {
      assert lines[..n] == lines;
    }
  }

  /** The reading loop shared by both parts: one point per line, stopping at the first error. */
  method ParsePoints(lines: seq<string>) returns (r: Result<seq<Point>, PointError>)
    ensures r == ParseAll(lines)
  {
    var points := [];
    for i := 0 to |lines|
      invariant ParseAll(lines[..i]) == Ok(points)
    {
      assert lines[..i + 1][..i] == lines[..i];
      var p := GetPoint(lines[i]);
      if p.Err? {
        ParseAllFailurePersists(lines, i + 1);
        return Err(p.error);
      }
      points := points + [p.value];
    }
    assert lines[..|lines|] == lines;
    r := Ok(points);
  }

  // ---- part one --------------------------------------------------------------------

  function Abs(v: int): nat {
    if v < 0 then -v else v
  }

  /** Tiles of the rectangle with opposite corners `p` and `q`, both included. */
  function PairArea(p: Point, q: Point): (a: nat)
    ensures a >= Abs(q.x - p.x) + 1 && a >= Abs(q.y - p.y) + 1
  {
    var width, height := Abs(q.x - p.x) + 1, Abs(q.y - p.y) + 1;
    MulAtLeast(width, height);
    width * height
  }

  lemma MulAtLeast(a: nat, b: nat)
    requires a >= 1 && b >= 1
    ensures a * b >= a && a * b >= b
  {
  }

  /** `a` is the largest area over the pairs of distinct positions of `points`, or 0 when there is no pair. */
  ghost predicate IsLargestArea(points: seq<Point>, a: nat) {
    (forall i, j :: 0 <= i < j < |points| ==> PairArea(points[i], points[j]) <= a)
    && (a == 0 || exists i, j :: 0 <= i < j < |points| && PairArea(points[i], points[j]) == a)
  }

  /** Every rectangle has at least one tile, so with two points the largest area is some pair's. */
  lemma LargestAreaAttained(points: seq<Point>, a: nat)
    requires IsLargestArea(points, a)
    ensures |points| < 2 <==> a == 0
    ensures |points| >= 2 ==> exists i, j :: 0 <= i < j < |points| && PairArea(points[i], points[j]) == a
  {
    if |points| >= 2 {
      assert PairArea(points[0], points[1]) <= a;
    }
  }

  /** The pair loop of `part_one::calculate`: every point against every later point. */
  method LargestArea(points: seq<Point>) returns (largest: nat)
    ensures IsLargestArea(points, largest)
  {
    largest := 0;
    for index := 0 to |points|
      invariant forall i, j :: 0 <= i < index && i < j < |points| ==> PairArea(points[i], points[j]) <= largest
      invariant largest == 0 || exists i, j :: 0 <= i < j < |points| && PairArea(points[i], points[j]) == largest
    {
      var p1 := points[index];
      for k := index + 1 to |points|
        invariant forall i, j :: 0 <= i < index && i < j < |points| ==> PairArea(points[i], points[j]) <= largest
        invariant forall j :: index < j < k ==> PairArea(p1, points[j]) <= largest
        invariant largest == 0 || exists i, j :: 0 <= i < j < |points| && PairArea(points[i], points[j]) == largest
      {
        var area := PairArea(p1, points[k]);
        if area > largest {
          largest := area;
        }
      }
    }
  }

  /** `part_one::calculate` on the lines of the input. */
  method PartOne(lines: seq<string>) returns (r: Result<nat, PointError>)
    ensures ParseAll(lines).Err? ==> r == Err(ParseAll(lines).error)
    ensures ParseAll(lines).Ok? ==> r.Ok? && IsLargestArea(ParseAll(lines).value, r.value)
  {
    var parsed := ParsePoints(lines);
    if parsed.Err? {
      return Err(parsed.error);
    }
    var largest := LargestArea(parsed.value);
    r := Ok(largest);
  }

  // ---- part two: points, directions and rectangles ---------------------------------

  /** `Add for &Point`. */
  function Add(p: Point, q: Point): (r: Point)
    ensures r.x - p.x == q.x && r.y - p.y == q.y
  {
    Point(p.x + q.x, p.y + q.y)
  }

  function Clamp(v: int): (r: int)
    ensures -1 <= r <= 1
    ensures (r < 0 <==> v < 0) && (r == 0 <==> v == 0)
    ensures -1 <= v <= 1 ==> r == v
  {
    if v < -1 then -1 else if v > 1 then 1 else v
  }

  /** `Point::dir`: each coordinate of `to - from` clamped to -1..1, so it keeps its sign. */
  function Dir(from: Point, to: Point): (d: Point)
    ensures -1 <= d.x <= 1 && -1 <= d.y <= 1
    ensures (d.x < 0 <==> to.x < from.x) && (d.x == 0 <==> to.x == from.x)
    ensures (d.y < 0 <==> to.y < from.y) && (d.y == 0 <==> to.y == from.y)
  {
    Point(Clamp(to.x - from.x), Clamp(to.y - from.y))
  }

  /** One step in the direction of `to` brings `from` one closer to it in each coordinate that differs. */
  lemma DirStepsCloser(from: Point, to: Point)
    ensures var next := Add(from, Dir(from, to));
      && Abs(to.x - next.x) == (if to.x == from.x then 0 else Abs(to.x - from.x) - 1)
      && Abs(to.y - next.y) == (if to.y == from.y then 0 else Abs(to.y - from.y) - 1)
  {
  }

  /** `outside`: `dir` turned a quarter, (x, y) to (y, -x), the side to the left of a clockwise walk. */
  function Outside(dir: Point): (o: Point)
    ensures o.x * dir.x + o.y * dir.y == 0
    ensures o.x * o.x + o.y * o.y == dir.x * dir.x + dir.y * dir.y
  {
    Point(dir.y, -dir.x)
  }

  /** Turning a quarter four times is the identity; twice reverses the direction. */
  lemma OutsideFourTimes(dir: Point)
    ensures Outside(Outside(dir)) == Point(-dir.x, -dir.y)
    ensures Outside(Outside(Outside(Outside(dir)))) == dir
  {
  }

  /** `corner1` holds the smallest and `corner2` the largest coordinates. */
  datatype Rectangle = Rectangle(corner1: Point, corner2: Point)

  function Min(a: int, b: int): int {
    if a <= b then a else b
  }

  function Max(a: int, b: int): int {
    if a >= b then a else b
  }

  /** `Rectangle::parse`: the rectangle with opposite corners `p1` and `p2`, corners normalised. */
  function RectangleOf(p1: Point, p2: Point): (r: Rectangle)
    ensures r.corner1 == Point(Min(p1.x, p2.x), Min(p1.y, p2.y))
    ensures r.corner2 == Point(Max(p1.x, p2.x), Max(p1.y, p2.y))
  {
    var (c1x, c2x) := if p1.x >= p2.x then (p2.x, p1.x) else (p1.x, p2.x);
    var (c1y, c2y) := if p1.y >= p2.y then (p2.y, p1.y) else (p1.y, p2.y);
    Rectangle(Point(c1x, c1y), Point(c2x, c2y))
  }

  lemma RectangleOfSymmetric(p1: Point, p2: Point)
    ensures RectangleOf(p1, p2) == RectangleOf(p2, p1)
  {
  }

  /** `Rectangle::contains`: `p` lies on or inside the border. */
  predicate Contains(rect: Rectangle, p: Point) {
    rect.corner1.x <= p.x <= rect.corner2.x && rect.corner1.y <= p.y <= rect.corner2.y
  }

  /** A parsed rectangle holds exactly the points between its two source points, both included. */
  lemma ContainsBetween(p1: Point, p2: Point, p: Point)
    ensures Contains(RectangleOf(p1, p2), p) <==>
      Min(p1.x, p2.x) <= p.x <= Max(p1.x, p2.x) && Min(p1.y, p2.y) <= p.y <= Max(p1.y, p2.y)
    ensures Contains(RectangleOf(p1, p2), p1) && Contains(RectangleOf(p1, p2), p2)
  {
  }

  /** `Rectangle::area`: tiles covered, border included. */
  function Area(rect: Rectangle): (a: nat)
    ensures a >= 1
  {
    PairArea(rect.corner1, rect.corner2)
  }

  /** The area of a parsed rectangle is part one's area of the same two points. */
  lemma AreaIsPairArea(p1: Point, p2: Point)
    ensures Area(RectangleOf(p1, p2)) == PairArea(p1, p2)
  {
    var r := RectangleOf(p1, p2);
    var w, h := Abs(p2.x - p1.x) + 1, Abs(p2.y - p1.y) + 1;
    assert Abs(r.corner2.x - r.corner1.x) + 1 == w;
    assert Abs(r.corner2.y - r.corner1.y) + 1 == h;
  }

  // ---- part two: the validity check --------------------------------------------------

  /** A point paired with the direction to the next point of the loop. */
  type Marked = (Point, Point)

  /** The position after `k` in a loop of `n` points: the first one follows the last. */
  function NextIndex(n: nat, k: nat): (j: nat)
    requires k < n
    ensures j < n
  {
    if k == n - 1 then 0 else k + 1
  }

  /** The position before `k` in a loop of `n` points: the last one precedes the first. */
  function PrevIndex(n: nat, k: nat): (j: nat)
    requires k < n
    ensures j < n && NextIndex(n, j) == k
  {
    if k == 0 then n - 1 else k - 1
  }

  /**
   * What the loop of `Rectangle::is_valid` demands of one point, given the
   * point before it. Where the walk turns to the outside, the tile diagonally
   * ahead on the outside must lie outside the rectangle. Otherwise the
   * outside neighbours for both directions must lie outside it, and the
   * step from the previous point must not cross the rectangle from one side
   * to the other.
   */
  predicate Passes(rect: Rectangle, point: Point, dir: Point, prevPoint: Point, prevDir: Point) {
    if dir == Outside(prevDir) then
      !Contains(rect, Add(Add(point, dir), Outside(dir)))
    else
      !Contains(rect, Add(point, Outside(dir)))
      && !Contains(rect, Add(point, Outside(prevDir)))
      && !(((point.x > rect.corner2.x && prevPoint.x < rect.corner1.x)
            || (point.x < rect.corner1.x && prevPoint.x > rect.corner2.x))
           && point.y <= rect.corner2.y && point.y >= rect.corner1.y)
      && !(((point.y > rect.corner2.y && prevPoint.y < rect.corner1.y)
            || (point.y < rect.corner1.y && prevPoint.y > rect.corner2.y))
           && point.x <= rect.corner2.x && point.x >= rect.corner1.x)
  }

  /** Every point of the loop passes, each judged against the one before it. */
  predicate IsValid(rect: Rectangle, points: seq<Marked>)
    requires |points| >= 1
  {
    forall k :: 0 <= k < |points| ==>
      Passes(rect, points[k].0, points[k].1, points[PrevIndex(|points|, k)].0, points[PrevIndex(|points|, k)].1)
  }

  /**
   * `Rectangle::is_valid`: one pass over the points, carrying the previous
   * point and direction, which start as the last ones. Indexing the last
   * point panics on an empty list.
   */
  method CheckValid(rect: Rectangle, points: seq<Marked>) returns (r: bool)
    requires |points| >= 1
    ensures r <==> IsValid(rect, points)
  {
    var n := |points|;
    var prevPoint, prevDir := points[n - 1].0, points[n - 1].1;
    for k := 0 to n
      invariant forall m :: 0 <= m < k ==>
        Passes(rect, points[m].0, points[m].1, points[PrevIndex(n, m)].0, points[PrevIndex(n, m)].1)
      invariant k < n ==> prevPoint == points[PrevIndex(n, k)].0 && prevDir == points[PrevIndex(n, k)].1
    {
      var (point, dir) := points[k];
      if !Passes(rect, point, dir, prevPoint, prevDir) {
        return false;
      }
      prevDir, prevPoint := dir, point;
    }
    r := true;
  }

  /** The points of the loop, each with the direction to the next one; the last point's is to the first. */
  function MarkAll(points: seq<Point>): (marked: seq<Marked>)
    requires |points| >= 1
    ensures |marked| == |points|
    ensures forall i :: 0 <= i < |points| ==>
      marked[i] == (points[i], Dir(points[i], points[NextIndex(|points|, i)]))
  {
    seq(|points|, i requires 0 <= i < |points| => (points[i], Dir(points[i], points[NextIndex(|points|, i)])))
  }

  /** The rectangle of the points at `i` and `j` passes the check. */
  ghost predicate ValidPair(points: seq<Marked>, i: nat, j: nat)
    requires i < |points| && j < |points|
  {
    IsValid(RectangleOf(points[i].0, points[j].0), points)
  }

  /** The area of the rectangle of the points at `i` and `j`. */
  function AreaAt(points: seq<Marked>, i: nat, j: nat): nat
    requires i < |points| && j < |points|
  {
    Area(RectangleOf(points[i].0, points[j].0))
  }

  /** `a` is the largest area over the pairs of distinct positions whose rectangle `IsValid` accepts, or 0. */
  ghost predicate IsLargestValidArea(points: seq<Marked>, a: nat)
    requires |points| >= 1
  {
    (forall i, j :: 0 <= i < j < |points| && ValidPair(points, i, j) ==>
       AreaAt(points, i, j) <= a)
    && (a == 0 || exists i, j :: (0 <= i < j < |points| && ValidPair(points, i, j)
                                  && AreaAt(points, i, j) == a))
  }

  /**
   * The direction loop of `part_two::calculate`: every point but the last
   * gets the direction to the next point, then the last one the direction
   * to the first.
   */
  method MarkDirections(parsed: seq<Point>) returns (points: seq<Marked>)
    requires |parsed| >= 1
    ensures points == MarkAll(parsed)
  {
    var n := |parsed|;
    points := seq(n, i requires 0 <= i < n => (parsed[i], Point(0, 0)));
    for i := 0 to n - 1
      invariant |points| == n
      invariant forall m :: 0 <= m < n ==> points[m].0 == parsed[m]
      invariant forall m :: 0 <= m < i ==> points[m].1 == Dir(parsed[m], parsed[m + 1])
    {
      points := points[i := (points[i].0, Dir(points[i].0, points[i + 1].0))];
    }
    points := points[n - 1 := (points[n - 1].0, Dir(points[n - 1].0, points[0].0))];
  }

  /** Valid pairs (`i`, `j`) ordered before (`index`, `k`) have an area of at most `largest`. */
  ghost predicate ValidPairsBounded(points: seq<Marked>, index: nat, k: nat, largest: nat)
    requires |points| >= 1
  {
    forall i, j ::
      (0 <= i < j < |points| && (i < index || (i == index && j < k))
       && ValidPair(points, i, j)) ==>
      AreaAt(points, i, j) <= largest
  }

  /** `largest` is 0 or the area of a valid pair. */
  ghost predicate ValidAreaAttained(points: seq<Marked>, largest: nat)
    requires |points| >= 1
  {
    largest == 0 || exists i, j :: (0 <= i < j < |points| && ValidPair(points, i, j)
                                   && AreaAt(points, i, j) == largest)
  }

  /** One pair of the loop: the bound moves past (`index`, `k`) and stays attained. */
  lemma BoundStep(points: seq<Marked>, index: nat, k: nat, before: nat, after: nat)
    requires index < k < |points|
    requires ValidPairsBounded(points, index, k, before) && ValidAreaAttained(points, before)
    requires after == if AreaAt(points, index, k) > before && ValidPair(points, index, k) then AreaAt(points, index, k) else before
    ensures ValidPairsBounded(points, index, k + 1, after) && ValidAreaAttained(points, after)
  {
  }

  /** The pair loop of `part_two::calculate`: the check runs only for an area larger than the best so far. */
  method LargestValid(points: seq<Marked>) returns (largest: nat)
    requires |points| >= 1
    ensures IsLargestValidArea(points, largest)
  {
    var n := |points|;
    largest := 0;
    for index := 0 to n
      invariant ValidPairsBounded(points, index, 0, largest) && ValidAreaAttained(points, largest)
    {
      var point1 := points[index].0;
      for k := index + 1 to n
        invariant ValidPairsBounded(points, index, k, largest) && ValidAreaAttained(points, largest)
      {
        var rectangle := RectangleOf(point1, points[k].0);
        var area := Area(rectangle);
        ghost var before := largest;
        if area > largest {
          var valid := CheckValid(rectangle, points);
          if valid {
            largest := area;
          }
        }
        BoundStep(points, index, k, before, largest);
      }
    }
  }

  /**
   * `part_two::calculate` on the lines of the input: parse, give every
   * point its direction, then keep the largest area the check accepts. It
   * panics on an empty input, where `points.len() - 1` underflows.
   */
  method PartTwo(lines: seq<string>) returns (r: Result<nat, PointError>)
    requires |lines| >= 1
    ensures ParseAll(lines).Err? ==> r == Err(ParseAll(lines).error)
    ensures ParseAll(lines).Ok? ==> r.Ok? && IsLargestValidArea(MarkAll(ParseAll(lines).value), r.value)
  {
    var parsed := ParsePoints(lines);
    if parsed.Err? {
      return Err(parsed.error);
    }
    var points := MarkDirections(parsed.value);
    var largest := LargestValid(points);
    r := Ok(largest);
  }

  /** Part two only filters part one's pairs, so its answer never exceeds part one's on the same points. */
  lemma PartTwoAtMostPartOne(points: seq<Point>, a: nat, b: nat)
    requires |points| >= 1
    requires IsLargestValidArea(MarkAll(points), a) && IsLargestArea(points, b)
    ensures a <= b
  {
    var marked := MarkAll(points);
    if a != 0 {
      var i, j :| 0 <= i < j < |marked| && IsValid(RectangleOf(marked[i].0, marked[j].0), marked)
        && Area(RectangleOf(marked[i].0, marked[j].0)) == a;
      AreaIsPairArea(points[i], points[j]);
      assert PairArea(points[i], points[j]) <= b;
    }
  }
}
