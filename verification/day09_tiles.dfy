/** Day 9: red tiles on a grid floor. Part 1 finds the largest rectangle
    with red tiles at two opposite corners. Part 2 joins each red tile to
    the next one (the last to the first) by the tiles of the rectangle
    between them, which are green, and takes the largest rectangle, in a
    stable largest-first order, with no green tile strictly inside. */
module Tiles {
  import opened Results
  import Text
  import Sorting
  import Circuits

  /** A tile position. The solver's points compare by identity; the model
      compares coordinates, which is all that `any(...)` over them sees. */
  datatype Point = Point(x: int, y: int)

  datatype Error =
    /** `Point.__init__` on a line that is not two comma-separated integers
        (ValueError). */
    | BadPoint(line: string)
    /** `rectangles[-1]` on an empty list (IndexError). */
    | NoRectangle
    /** `r` read after a loop that never ran (UnboundLocalError). */
    | Unbound

  // ---------------------------------------------------------------------
  // Parsing
  // ---------------------------------------------------------------------

  /** `Point(line)`: `map(int, line.split(","))` unpacked into two
      coordinates. */
  function ParsePoint(line: string): (r: Result<Point, Error>)
    ensures r.Err? ==> r.error == BadPoint(line)
  {
    var parts := Text.Split(line, ",");
    if |parts| != 2 then Err(BadPoint(line))
    else
      match (Text.ParseInt(parts[0]), Text.ParseInt(parts[1]))
      case (Some(x), Some(y)) => Ok(Point(x, y))
      case _ => Err(BadPoint(line))
  }

  /** `f"{x},{y}"`. */
  function ShowPoint(p: Point): string {
    Text.Join([Text.Show(p.x), Text.Show(p.y)], ",")
  }

  /** Reading a tile back from its text gives the same tile, so
      `Point(f"{x},{y}")` is the tile at `(x, y)`. */
  lemma ParseShowPoint(p: Point)
    ensures ParsePoint(ShowPoint(p)) == Ok(p)
  {
    var parts := [Text.Show(p.x), Text.Show(p.y)];
    Circuits.NoComma(p.x);
    Circuits.NoComma(p.y);
    Text.SplitJoin(parts, ",");
    Text.ParseShow(p.x);
    Text.ParseShow(p.y);
  }

  /** `[Point(l) for l in input_data.strip().split("\n")]`. */
  function Points(input: string): Result<seq<Point>, Error> {
    ParseEach(Text.Split(Text.Strip(input), "\n"), ParsePoint)
  }

  // ---------------------------------------------------------------------
  // Rectangles
  // ---------------------------------------------------------------------

  function Abs(d: int): nat {
    if d < 0 then -d else d
  }

  function Min(a: int, b: int): int {
    if a < b then a else b
  }

  function Max(a: int, b: int): int {
    if a < b then b else a
  }

  /** The rectangle with corners `p1` and `p2`, borders included. */
  datatype Rectangle = Rectangle(p1: Point, p2: Point) {
    /** The number of columns it spans. */
    function Width(): nat { Abs(p1.x - p2.x) + 1 }

    /** The number of rows it spans. */
    function Height(): nat { Abs(p1.y - p2.y) + 1 }

    /** `area`: the number of tiles it covers. */
    function Area(): int { Width() * Height() }

    function MinX(): int { Min(p1.x, p2.x) }
    function MaxX(): int { Max(p1.x, p2.x) }
    function MinY(): int { Min(p1.y, p2.y) }
    function MaxY(): int { Max(p1.y, p2.y) }

    /** The tile lies in the rectangle, border included. */
    predicate Covers(p: Point) {
      MinX() <= p.x <= MaxX() && MinY() <= p.y <= MaxY()
    }
  }

  /** The area is positive and does not depend on which corner comes
      first; the bounds are ordered and span the width and height. */
  lemma AreaFacts(r: Rectangle)
    ensures r.MinX() <= r.MaxX() && r.MinY() <= r.MaxY()
    ensures r.MaxX() - r.MinX() + 1 == r.Width() && r.MaxY() - r.MinY() + 1 == r.Height()
    ensures r.Area() >= 1
    ensures Rectangle(r.p2, r.p1).Area() == r.Area()
  {
    assert r.Width() * r.Height() >= 1 * r.Height();
  }

  /** The tiles of column `x` of `r`, bottom up. */
  function Column(r: Rectangle, x: int): (c: seq<Point>)
    ensures |c| == r.Height()
    ensures forall k :: 0 <= k < |c| ==> c[k] == Point(x, r.MinY() + k)
  {
    seq(r.Height(), k => Point(x, r.MinY() + k))
  }

  /** The tiles of the first `n` columns of `r`, column by column. */
  function Columns(r: Rectangle, n: nat): seq<Point> {
    if n == 0 then [] else Columns(r, n - 1) + Column(r, r.MinX() + n - 1)
  }

  /** `r.points()`: every tile of `r`, column by column. */
  function Lattice(r: Rectangle): seq<Point> {
    Columns(r, r.Width())
  }

  /** Column before row: the order in which `points()` yields tiles. */
  predicate Earlier(p: Point, q: Point) {
    p.x < q.x || (p.x == q.x && p.y < q.y)
  }

  lemma {:induction false} ColumnsSize(r: Rectangle, n: nat)
    ensures |Columns(r, n)| == n * r.Height()
  {
    if n > 0 {
      ColumnsSize(r, n - 1);
      assert (n - 1) * r.Height() + r.Height() == n * r.Height();
    }
  }

  lemma {:induction false} ColumnsMembers(r: Rectangle, n: nat)
    ensures forall p :: p in Columns(r, n) <==>
              r.MinX() <= p.x < r.MinX() + n && r.MinY() <= p.y < r.MinY() + r.Height()
  {
    if n > 0 {
      ColumnsMembers(r, n - 1);
      var col := Column(r, r.MinX() + n - 1);
      forall p: Point | p.x == r.MinX() + n - 1 && r.MinY() <= p.y < r.MinY() + r.Height()
        ensures p in col
      {
        assert col[p.y - r.MinY()] == p;
      }
    }
  }

  lemma {:induction false} ColumnsOrder(r: Rectangle, n: nat)
    ensures forall a, b :: 0 <= a < b < |Columns(r, n)| ==> Earlier(Columns(r, n)[a], Columns(r, n)[b])
  {
    if n > 0 {
      ColumnsOrder(r, n - 1);
      ColumnsMembers(r, n - 1);
      var left := Columns(r, n - 1);
      var col := Column(r, r.MinX() + n - 1);
      var all := left + col;
      forall a, b | 0 <= a < b < |all| ensures Earlier(all[a], all[b]) {
        if a >= |left| {
          assert all[a] == col[a - |left|] && all[b] == col[b - |left|];
        } else if b >= |left| {
          assert all[a] in left;
        }
      }
    }
  }

  /** `points()` yields each tile of the rectangle exactly once, `area`
      tiles in all. */
  lemma LatticeSpec(r: Rectangle)
    ensures |Lattice(r)| == r.Area()
    ensures forall p :: p in Lattice(r) <==> r.Covers(p)
    ensures forall a, b :: 0 <= a < b < |Lattice(r)| ==> Lattice(r)[a] != Lattice(r)[b]
  {
    AreaFacts(r);
    ColumnsSize(r, r.Width());
    ColumnsMembers(r, r.Width());
    ColumnsOrder(r, r.Width());
  }

  /** `Rectangle.points`: the two nested loops over columns and rows. */
  method LatticePoints(r: Rectangle) returns (ps: seq<Point>)
    ensures ps == Lattice(r)
  {
    AreaFacts(r);
    ps := [];
    for x := r.MinX() to r.MaxX() + 1
      invariant ps == Columns(r, x - r.MinX())
    {
      var col := Column(r, x);
      for y := r.MinY() to r.MaxY() + 1
        invariant ps == Columns(r, x - r.MinX()) + col[..y - r.MinY()]
      {
        assert col[..y + 1 - r.MinY()] == col[..y - r.MinY()] + [Point(x, y)];
        ps := ps + [Point(x, y)];
      }
      assert col[..r.MaxY() + 1 - r.MinY()] == col;
    }
  }

  /** `contains_not_border`: strictly inside on both axes. */
  predicate ContainsNotBorder(r: Rectangle, p: Point) {
    r.MinX() < p.x < r.MaxX() && r.MinY() < p.y < r.MaxY()
  }

  /** The tiles strictly inside are the tiles of the rectangle off its
      border; in particular neither corner is inside. */
  lemma InsideSpec(r: Rectangle, p: Point)
    ensures ContainsNotBorder(r, p) <==>
              p in Lattice(r) && p.x != r.MinX() && p.x != r.MaxX() && p.y != r.MinY() && p.y != r.MaxY()
    ensures !ContainsNotBorder(r, r.p1) && !ContainsNotBorder(r, r.p2)
  {
    LatticeSpec(r);
  }

  /** `[Rectangle(p1, p2) for p1, p2 in combinations(points, 2)]`, in the
      order `combinations` yields the pairs. */
  function Rectangles(points: seq<Point>): (rs: seq<Rectangle>)
    ensures forall i, j :: 0 <= i < j < |points| ==> Rectangle(points[i], points[j]) in rs
    ensures forall r :: r in rs ==> exists i, j :: 0 <= i < j < |points| && r == Rectangle(points[i], points[j])
    ensures rs == [] <==> |points| < 2
  {
    var pairs := Circuits.Pairs(|points|);
    var rs := seq(|pairs|, k requires 0 <= k < |pairs| =>
                assert pairs[k] in pairs;
                Rectangle(points[pairs[k].p1], points[pairs[k].p2]));
    forall i, j | 0 <= i < j < |points| ensures Rectangle(points[i], points[j]) in rs {
      var k :| 0 <= k < |pairs| && pairs[k] == Circuits.Edge(i, j);
      assert rs[k] == Rectangle(points[i], points[j]);
    }
    forall r | r in rs ensures exists i, j :: 0 <= i < j < |points| && r == Rectangle(points[i], points[j]) {
      var k :| 0 <= k < |rs| && rs[k] == r;
      assert pairs[k] in pairs;
    }
    assert |points| >= 2 ==> Rectangle(points[0], points[1]) in rs;
    assert rs != [] ==> rs[0] in rs;
    rs
  }

  // ---------------------------------------------------------------------
  // Part 1
  // ---------------------------------------------------------------------

  /** `sorted(rectangles, key=lambda e: e.area)`. */
  function ByArea(rs: seq<Rectangle>): seq<Rectangle> {
    Sorting.SortBy(rs, (r: Rectangle) => r.Area())
  }

  /** `rectangles[-1].area`: the area of the last rectangle in ascending
      order of area. */
  function Largest(points: seq<Point>): Result<int, Error> {
    var rs := ByArea(Rectangles(points));
    if rs == [] then Err(NoRectangle) else Ok(rs[|rs| - 1].Area())
  }

  /** `area` is the largest area of a rectangle between two of the red tiles. */
  ghost predicate IsLargestArea(points: seq<Point>, area: int) {
    && (forall i, j :: 0 <= i < j < |points| ==> Rectangle(points[i], points[j]).Area() <= area)
    && exists i, j :: 0 <= i < j < |points| && Rectangle(points[i], points[j]).Area() == area
  }

  /** `part1`: the text of the largest area over all pairs of red tiles;
      the parse error, or `IndexError` when there is no pair. */
  function Part1(input: string): (r: Result<string, Error>)
    ensures r.Ok? <==> Points(input).Ok? && |Points(input).value| >= 2
    ensures r.Err? ==> r.error == if Points(input).Err? then Points(input).error else NoRectangle
    ensures r.Ok? ==> exists area :: r.value == Text.Show(area) && IsLargestArea(Points(input).value, area)
  {
    var points :- Points(input);
    LargestSpec(points);
    var area :- Largest(points);
    Ok(Text.Show(area))
  }

  /** Part 1 is the largest area over all pairs of red tiles, and fails
      when there is no pair. */
  lemma LargestSpec(points: seq<Point>)
    ensures Largest(points).Ok? <==> |points| >= 2
    ensures Largest(points).Err? ==> Largest(points).error == NoRectangle
    ensures Largest(points).Ok? ==> IsLargestArea(points, Largest(points).value)
  {
    var rs := Rectangles(points);
    var sorted := ByArea(rs);
    if |points| >= 2 {
      Sorting.SortedLastIsMax(rs, (r: Rectangle) => r.Area());
      var last := sorted[|sorted| - 1];
      assert last in multiset(sorted);
      assert last in rs;
    }
  }

  // ---------------------------------------------------------------------
  // Part 2
  // ---------------------------------------------------------------------

  /** The rectangle between red tile `idx` and the next one, the last
      wrapping round to the first. */
  function Side(reds: seq<Point>, idx: nat): Rectangle
    requires idx < |reds|
  {
    Rectangle(reds[idx], reds[(idx + 1) % |reds|])
  }

  /** The green tiles: every tile that `points()` yields for a side. */
  function Greens(reds: seq<Point>): set<Point> {
    set idx, p | 0 <= idx < |reds| && p in Lattice(Side(reds, idx)) :: p
  }

  /** A tile is green exactly when a side covers it; every red tile is
      green. */
  lemma GreensSpec(reds: seq<Point>)
    ensures forall p :: p in Greens(reds) <==> exists idx :: 0 <= idx < |reds| && Side(reds, idx).Covers(p)
    ensures forall k :: 0 <= k < |reds| ==> reds[k] in Greens(reds)
  {
    forall p: Point ensures p in Greens(reds) <==> exists idx :: 0 <= idx < |reds| && Side(reds, idx).Covers(p) {
      forall idx | 0 <= idx < |reds| ensures p in Lattice(Side(reds, idx)) <==> Side(reds, idx).Covers(p) {
        LatticeSpec(Side(reds, idx));
      }
    }
    forall k | 0 <= k < |reds| ensures reds[k] in Greens(reds) {
      LatticeSpec(Side(reds, k));
    }
  }

  /** `not any(contains_not_border(r, g) for g in greens)`. */
  predicate Clear(r: Rectangle, greens: set<Point>) {
    !exists g :: g in greens && ContainsNotBorder(r, g)
  }

  /** `sorted(rectangles, key=lambda e: e.area, reverse=True)`. */
  function ByAreaDesc(rs: seq<Rectangle>): (sorted: seq<Rectangle>)
    ensures multiset(sorted) == multiset(rs)
    ensures forall a, b :: 0 <= a < b < |sorted| ==> sorted[a].Area() >= sorted[b].Area()
  {
    var sorted := Sorting.SortBy(rs, (r: Rectangle) => -r.Area());
    assert forall a, b :: 0 <= a < b < |sorted| ==> -sorted[a].Area() <= -sorted[b].Area();
    sorted
  }

  /** The index of the first clear rectangle of `rs`, `|rs|` if none is. */
  function FirstClear(rs: seq<Rectangle>, greens: set<Point>): (k: nat)
    ensures k <= |rs|
    ensures k < |rs| ==> Clear(rs[k], greens)
    ensures forall m :: 0 <= m < k ==> !Clear(rs[m], greens)
  {
    if rs == [] then 0
    else if Clear(rs[0], greens) then 0
    else
      var k := FirstClear(rs[1..], greens);
      assert forall m :: 1 <= m < k + 1 ==> rs[m] == rs[1..][m - 1];
      k + 1
  }

  /** The rectangle the loop leaves in `r`: the first clear one, or the
      last one when none is clear; unbound when there is none. */
  function Chosen(rs: seq<Rectangle>, greens: set<Point>): Result<Rectangle, Error> {
    if rs == [] then Err(Unbound)
    else
      var k := FirstClear(rs, greens);
      Ok(if k < |rs| then rs[k] else rs[|rs| - 1])
  }

  /** A clear rectangle at `m` of a largest-first list is no larger than
      the first clear one. */
  lemma FirstClearLargest(rs: seq<Rectangle>, greens: set<Point>, m: nat)
    requires forall a, b :: 0 <= a < b < |rs| ==> rs[a].Area() >= rs[b].Area()
    requires m < |rs| && Clear(rs[m], greens)
    ensures FirstClear(rs, greens) <= m && rs[FirstClear(rs, greens)].Area() >= rs[m].Area()
  {
    var k := FirstClear(rs, greens);
    if k < m {
      assert rs[k].Area() >= rs[m].Area();
    }
  }

  /** `x` occurs in `s` at some index. */
  lemma IndexOfIn(s: seq<Rectangle>, x: Rectangle) returns (m: nat)
    requires x in multiset(s)
    ensures m < |s| && s[m] == x
  {
    m :| 0 <= m < |s| && s[m] == x;
  }

  /** In largest-first order, the first clear rectangle is a largest clear
      one. */
  lemma ChosenLargest(all: seq<Rectangle>, greens: set<Point>)
    requires exists c :: c in all && Clear(c, greens)
    ensures Chosen(ByAreaDesc(all), greens).Ok?
    ensures var c := Chosen(ByAreaDesc(all), greens).value;
            c in all && Clear(c, greens) && forall d :: d in all && Clear(d, greens) ==> d.Area() <= c.Area()
  {
    var rs := ByAreaDesc(all);
    var c0 :| c0 in all && Clear(c0, greens);
    var m0 := IndexOfIn(rs, c0);
    FirstClearLargest(rs, greens, m0);
    var k := FirstClear(rs, greens);
    assert Chosen(rs, greens) == Ok(rs[k]);
    assert rs[k] in multiset(all);
    forall d | d in all && Clear(d, greens) ensures d.Area() <= rs[k].Area() {
      var m := IndexOfIn(rs, d);
      FirstClearLargest(rs, greens, m);
    }
  }

  /** A reordering keeps the same elements. */
  lemma SameElements(rs: seq<Rectangle>, all: seq<Rectangle>)
    requires multiset(rs) == multiset(all)
    ensures forall m :: 0 <= m < |rs| ==> rs[m] in all
  {
    forall m | 0 <= m < |rs| ensures rs[m] in all {
      assert rs[m] in multiset(all);
    }
  }

  /** When nothing is clear the loop runs out and leaves the last, hence a
      smallest, rectangle. */
  lemma ChosenFallback(all: seq<Rectangle>, greens: set<Point>)
    requires all != [] && forall c :: c in all ==> !Clear(c, greens)
    ensures Chosen(ByAreaDesc(all), greens).Ok?
    ensures var c := Chosen(ByAreaDesc(all), greens).value;
            c in all && forall d :: d in all ==> c.Area() <= d.Area()
  {
    var rs := ByAreaDesc(all);
    var _ := IndexOfIn(rs, all[0]);
    SameElements(rs, all);
    var k := FirstClear(rs, greens);
    assert k == |rs|;
    var last := rs[|rs| - 1];
    assert Chosen(rs, greens) == Ok(last);
    forall d | d in all ensures last.Area() <= d.Area() {
      var m := IndexOfIn(rs, d);
    }
  }

  /** Part 2 on the red tiles read: the area of the rectangle the loop
      leaves in `r`. */
  function LargestClear(reds: seq<Point>): Result<int, Error> {
    var r :- Chosen(ByAreaDesc(Rectangles(reds)), Greens(reds));
    Ok(r.Area())
  }

  /** Part 2's answer, before it is printed. */
  function Answer2(input: string): Result<int, Error> {
    var reds :- Points(input);
    LargestClear(reds)
  }

  /** When some pair of red tiles spans a clear rectangle, part 2 is the
      largest area of such a rectangle. */
  lemma LargestClearSpec(reds: seq<Point>)
    requires exists i, j :: 0 <= i < j < |reds| && Clear(Rectangle(reds[i], reds[j]), Greens(reds))
    ensures LargestClear(reds).Ok?
    ensures forall i, j :: 0 <= i < j < |reds| && Clear(Rectangle(reds[i], reds[j]), Greens(reds))
              ==> Rectangle(reds[i], reds[j]).Area() <= LargestClear(reds).value
    ensures exists i, j :: 0 <= i < j < |reds| && Clear(Rectangle(reds[i], reds[j]), Greens(reds))
              && Rectangle(reds[i], reds[j]).Area() == LargestClear(reds).value
  {
    var all := Rectangles(reds);
    var i0, j0 :| 0 <= i0 < j0 < |reds| && Clear(Rectangle(reds[i0], reds[j0]), Greens(reds));
    assert Rectangle(reds[i0], reds[j0]) in all;
    ChosenLargest(all, Greens(reds));
  }

  /** When no pair spans a clear rectangle, part 2 is the smallest area of
      any pair. */
  lemma LargestClearFallback(reds: seq<Point>)
    requires |reds| >= 2
    requires forall i, j :: 0 <= i < j < |reds| ==> !Clear(Rectangle(reds[i], reds[j]), Greens(reds))
    ensures LargestClear(reds).Ok?
    ensures forall i, j :: 0 <= i < j < |reds| ==> LargestClear(reds).value <= Rectangle(reds[i], reds[j]).Area()
  {
    var all := Rectangles(reds);
    ChosenFallback(all, Greens(reds));
  }

  /** With fewer than two red tiles there is no rectangle, and the loop
      leaves `r` unbound. */
  lemma LargestClearUnbound(reds: seq<Point>)
    requires |reds| < 2
    ensures LargestClear(reds) == Err(Unbound)
  {
  }

  /** `for r in rectangles: if not any(...): break`. */
  method FirstFit(rectangles: seq<Rectangle>, greens: set<Point>) returns (res: Result<Rectangle, Error>)
    ensures res == Chosen(rectangles, greens)
  {
    var r: Option<Rectangle> := None;
    for k := 0 to |rectangles|
      invariant forall m :: 0 <= m < k ==> !Clear(rectangles[m], greens)
      invariant r == if k == 0 then None else Some(rectangles[k - 1])
    {
      r := Some(rectangles[k]);
      if !exists g :: g in greens && ContainsNotBorder(rectangles[k], g) {
        return Ok(rectangles[k]);
      }
    }
    if r == None {
      return Err(Unbound);
    }
    return Ok(r.value);
  }

  /** `part2`. */
  method Part2(input: string) returns (res: Result<string, Error>)
    ensures Answer2(input).Ok? ==> res == Ok(Text.Show(Answer2(input).value))
    ensures Answer2(input).Err? ==> res == Err(Answer2(input).error)
  {
    var reds :- Points(input);
    var greens := Greens(reds);
    var rectangles := ByAreaDesc(Rectangles(reds));
    var r :- FirstFit(rectangles, greens);
    return Ok(Text.Show(r.Area()));
  }
}
