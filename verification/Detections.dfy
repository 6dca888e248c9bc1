/** Detections and planar geometry, with real numbers for the source's floating point. */
module Detections {
  datatype Detection = Detection(x1: real, y1: real, x2: real, y2: real, confidence: real, classId: int,
                                 className: string)
  datatype Point = Point(x: real, y: real)

  function Max(a: real, b: real): real {
    if a < b then b else a
  }

  function Min(a: real, b: real): real {
    if b < a then b else a
  }

  function Area(d: Detection): real {
    (d.x2 - d.x1) * (d.y2 - d.y1)
  }

  function Intersection(a: Detection, b: Detection): (r: real)
    ensures r >= 0.0
  {
    Max(0.0, Min(a.x2, b.x2) - Max(a.x1, b.x1)) * Max(0.0, Min(a.y2, b.y2) - Max(a.y1, b.y1))
  }

  function UnionArea(a: Detection, b: Detection): real {
    Area(a) + Area(b) - Intersection(a, b)
  }

  /** Intersection over union; boxes whose union has no positive area do not overlap. */
  function Iou(a: Detection, b: Detection): (r: real)
    ensures r >= 0.0
  {
    if UnionArea(a, b) <= 0.0 then 0.0 else Intersection(a, b) / UnionArea(a, b)
  }

  lemma IouSymmetric(a: Detection, b: Detection)
    ensures Intersection(a, b) == Intersection(b, a) && UnionArea(a, b) == UnionArea(b, a) && Iou(a, b) == Iou(b, a)
  {
  }

  // ---------- what overlap is ----------

  /** A box whose corners are whole numbers, the first corner not beyond the second. */
  datatype GridBox = GridBox(x1: int, y1: int, x2: int, y2: int)

  ghost predicate Ordered(d: Detection) {
    d.x1 <= d.x2 && d.y1 <= d.y2
  }

  /** The detection has the corners of the box. */
  ghost predicate OnGrid(d: Detection, g: GridBox) {
    && g.x1 <= g.x2 && g.y1 <= g.y2
    && d.x1 == g.x1 as real && d.y1 == g.y1 as real && d.x2 == g.x2 as real && d.y2 == g.y2 as real
  }

  /** The unit squares of a box, by their lower corners. */
  ghost function Cells(g: GridBox): set<(int, int)> {
    set x, y | g.x1 <= x < g.x2 && g.y1 <= y < g.y2 :: (x, y)
  }

  ghost function Column(x: int, y1: int, y2: int): set<(int, int)> {
    set y | y1 <= y < y2 :: (x, y)
  }

  lemma {:induction false} ColumnCount(x: int, y1: int, y2: int)
    requires y1 <= y2
    ensures |Column(x, y1, y2)| == y2 - y1
    decreases y2 - y1
  {
    if y1 < y2 {
      ColumnCount(x, y1, y2 - 1);
      assert Column(x, y1, y2) == Column(x, y1, y2 - 1) + {(x, y2 - 1)};
    } else {
      assert Column(x, y1, y2) == {};
    }
  }

  lemma OneMoreColumn(w: int, h: int)
    ensures w * h == (w - 1) * h + h
  {
  }

  lemma {:induction false} CellCount(g: GridBox)
    requires g.x1 <= g.x2 && g.y1 <= g.y2
    ensures |Cells(g)| == (g.x2 - g.x1) * (g.y2 - g.y1)
    decreases g.x2 - g.x1
  {
    if g.x1 < g.x2 {
      var less := g.(x2 := g.x2 - 1);
      CellCount(less);
      ColumnCount(less.x2, g.y1, g.y2);
      SplitColumn(g);
      OneMoreColumn(g.x2 - g.x1, g.y2 - g.y1);
      hide Cells, Column;
    } else {
      assert Cells(g) == {};
    }
  }

  lemma SplitColumn(g: GridBox)
    requires g.x1 < g.x2
    ensures var less := g.(x2 := g.x2 - 1);
            |Cells(g)| == |Cells(less)| + |Column(less.x2, g.y1, g.y2)|
  {
    var less := g.(x2 := g.x2 - 1);
    var column := Column(less.x2, g.y1, g.y2);
    assert Cells(g) == Cells(less) + column;
    assert Cells(less) !! column;
  }

  function Larger(a: int, b: int): int {
    if a < b then b else a
  }

  function Smaller(a: int, b: int): int {
    if b < a then b else a
  }

  /** The box both have in common, without cells if they are apart. */
  function Common(a: GridBox, b: GridBox): (c: GridBox)
    ensures c.x1 <= c.x2 && c.y1 <= c.y2
  {
    var x1, y1 := Larger(a.x1, b.x1), Larger(a.y1, b.y1);
    GridBox(x1, y1, Larger(x1, Smaller(a.x2, b.x2)), Larger(y1, Smaller(a.y2, b.y2)))
  }

  lemma ProductAsReal(w: int, h: int)
    ensures (w * h) as real == w as real * h as real
  {
  }

  /** The number of cells, from the lengths of the sides. */
  lemma CellsOfSides(g: GridBox, w: real, h: real)
    requires g.x1 <= g.x2 && g.y1 <= g.y2 && w == (g.x2 - g.x1) as real && h == (g.y2 - g.y1) as real
    ensures |Cells(g)| as real == w * h
  {
    CellCount(g);
    ProductAsReal(g.x2 - g.x1, g.y2 - g.y1);
    hide Cells;
  }

  lemma CommonCells(a: GridBox, b: GridBox)
    ensures Cells(a) * Cells(b) == Cells(Common(a, b))
  {
  }

  /** Along one axis. */
  lemma CommonLength(a1: int, a2: int, b1: int, b2: int)
    ensures var from := Larger(a1, b1);
            Max(0.0, Min(a2 as real, b2 as real) - Max(a1 as real, b1 as real)) ==
            (Larger(from, Smaller(a2, b2)) - from) as real
  {
  }

  lemma IntersectionCount(a: Detection, b: Detection, g: GridBox, h: GridBox)
    requires OnGrid(a, g) && OnGrid(b, h)
    ensures Intersection(a, b) == |Cells(g) * Cells(h)| as real
  {
    CommonLength(g.x1, g.x2, h.x1, h.x2);
    CommonLength(g.y1, g.y2, h.y1, h.y2);
    CommonCells(g, h);
    hide Cells, Larger, Smaller, Max, Min;
    CellsOfSides(Common(g, h), Max(0.0, Min(a.x2, b.x2) - Max(a.x1, b.x1)),
                 Max(0.0, Min(a.y2, b.y2) - Max(a.y1, b.y1)));
  }

  lemma AreaCount(a: Detection, g: GridBox)
    requires OnGrid(a, g)
    ensures Area(a) == |Cells(g)| as real
  {
    hide Cells;
    CellsOfSides(g, a.x2 - a.x1, a.y2 - a.y1);
  }

  lemma UnionCount(a: Detection, b: Detection, g: GridBox, h: GridBox)
    requires OnGrid(a, g) && OnGrid(b, h)
    ensures UnionArea(a, b) == |Cells(g) + Cells(h)| as real
  {
    IntersectionCount(a, b, g, h);
    AreaCount(a, g);
    AreaCount(b, h);
    hide Cells, Intersection, Area, OnGrid;
    assert |Cells(g) + Cells(h)| == |Cells(g)| + |Cells(h)| - |Cells(g) * Cells(h)|;
  }

  lemma IouTimesUnion(a: Detection, b: Detection)
    requires Intersection(a, b) <= UnionArea(a, b)
    ensures Iou(a, b) * UnionArea(a, b) == Intersection(a, b)
  {
    hide Intersection, UnionArea;
    if UnionArea(a, b) > 0.0 {
      ShareOf(Intersection(a, b), UnionArea(a, b));
    }
  }

  lemma FewerCommon(a: set<(int, int)>, b: set<(int, int)>)
    ensures |a * b| <= |a + b|
  {
    assert a + b == a * b + (a + b - a * b);
  }

  /** For boxes with whole corners, overlap is the share of common cells among the cells of either. */
  lemma IouIsShareOfCells(a: Detection, b: Detection, g: GridBox, h: GridBox)
    requires OnGrid(a, g) && OnGrid(b, h)
    ensures Iou(a, b) * |Cells(g) + Cells(h)| as real == |Cells(g) * Cells(h)| as real
  {
    hide Cells, Intersection, UnionArea, OnGrid, Iou;
    IntersectionCount(a, b, g, h);
    UnionCount(a, b, g, h);
    FewerCommon(Cells(g), Cells(h));
    IouTimesUnion(a, b);
  }

  lemma ProductGrows(a: real, b: real, c: real, d: real)
    requires 0.0 <= a <= c && 0.0 <= b <= d
    ensures 0.0 <= a * b <= c * d
    ensures a * b == c * d > 0.0 ==> a == c && b == d
  {
    assert c * d - a * b == (c - a) * d + a * (d - b);
    assert (c - a) * d >= 0.0 && a * (d - b) >= 0.0;
    if a * b == c * d > 0.0 {
      assert (c - a) * d == 0.0 && a * (d - b) == 0.0;
      assert d != 0.0 && a != 0.0;
    }
  }

  ghost predicate SameCorners(a: Detection, b: Detection) {
    a.x1 == b.x1 && a.y1 == b.y1 && a.x2 == b.x2 && a.y2 == b.y2
  }

  /** The intersection lies in either box and fills it only if the box lies in the other. */
  lemma IntersectionWithin(a: Detection, b: Detection)
    requires Ordered(a) && Ordered(b)
    ensures Intersection(a, b) <= Area(a)
    ensures Intersection(a, b) == Area(a) > 0.0 ==> b.x1 <= a.x1 && b.y1 <= a.y1 && a.x2 <= b.x2 && a.y2 <= b.y2
  {
    var w := Max(0.0, Min(a.x2, b.x2) - Max(a.x1, b.x1));
    var h := Max(0.0, Min(a.y2, b.y2) - Max(a.y1, b.y1));
    ProductGrows(w, h, a.x2 - a.x1, a.y2 - a.y1);
  }

  /** Overlap is a share, and it is complete exactly for boxes with the same corners and an area. */
  lemma IouIsShare(a: Detection, b: Detection)
    requires Ordered(a) && Ordered(b)
    ensures 0.0 <= Iou(a, b) <= 1.0
    ensures Iou(a, b) == 1.0 <==> SameCorners(a, b) && a.x1 < a.x2 && a.y1 < a.y2
  {
    IntersectionWithin(a, b);
    IntersectionWithin(b, a);
    IouSymmetric(a, b);
    var i, u := Intersection(a, b), UnionArea(a, b);
    if u > 0.0 {
      ShareOf(i, u);
    }
    if SameCorners(a, b) && a.x1 < a.x2 && a.y1 < a.y2 {
      assert Area(a) > 0.0;
    }
    if i == Area(a) {
      if i > 0.0 {
        ProductPositive(a.x2 - a.x1, a.y2 - a.y1);
      }
    }
  }

  lemma ProductPositive(w: real, h: real)
    requires w >= 0.0 && h >= 0.0
    ensures w * h > 0.0 ==> w > 0.0 && h > 0.0
  {
  }

  lemma ShareOf(i: real, u: real)
    requires u > 0.0
    ensures i / u <= 1.0 <==> i <= u
    ensures i / u == 1.0 <==> i == u
    ensures i / u * u == i
  {
    assert i / u * u == i;
  }

  // ---------- the side of a line ----------

  function CrossProduct(a: Point, b: Point, p: Point): real {
    (b.x - a.x) * (p.y - a.y) - (b.y - a.y) * (p.x - a.x)
  }

  function Sign(x: real): (s: int)
    ensures -1 <= s <= 1 && (s == 1 <==> x > 0.0) && (s == -1 <==> x < 0.0)
  {
    if x > 0.0 then 1 else if x < 0.0 then -1 else 0
  }

  /** `along` steps from `a` towards `b`, then `off` steps turned by a quarter from the x axis towards the y axis. */
  function Reached(a: Point, b: Point, along: real, off: real): Point {
    Point(a.x + along * (b.x - a.x) - off * (b.y - a.y), a.y + along * (b.y - a.y) + off * (b.x - a.x))
  }

  function SquaredLength(x: real, y: real): real {
    x * x + y * y
  }

  lemma SquaresPositive(x: real, y: real)
    requires x != 0.0 || y != 0.0
    ensures x * x + y * y > 0.0
  {
    assert x != 0.0 ==> x * x > 0.0;
    assert y != 0.0 ==> y * y > 0.0;
  }

  lemma LengthPositive(x: real, y: real)
    requires x != 0.0 || y != 0.0
    ensures SquaredLength(x, y) > 0.0
  {
    calc {
      SquaredLength(x, y);
      x * x + y * y;
    > { SquaresPositive(x, y); }
      0.0;
    }
  }

  lemma SignOfProduct(x: real, k: real)
    requires k > 0.0
    ensures Sign(x * k) == Sign(x)
  {
    assert x > 0.0 ==> x * k > 0.0;
    assert x < 0.0 ==> x * k < 0.0;
  }

  /** The sign of the cross product is the side of the line on which a point lies, and every point lies on some side. */
  lemma SideOfLine(a: Point, b: Point, along: real, off: real)
    requires a != b
    ensures var product := CrossProduct(a, b, Reached(a, b, along, off));
            (product > 0.0 <==> off > 0.0) && (product < 0.0 <==> off < 0.0)
  {
    var dx, dy := b.x - a.x, b.y - a.y;
    assert CrossProduct(a, b, Reached(a, b, along, off)) == off * SquaredLength(dx, dy) by {
      assert dx * (along * dy + off * dx) - dy * (along * dx - off * dy) == off * (dx * dx + dy * dy);
    }
    LengthPositive(dx, dy);
    hide SquaredLength, CrossProduct, Reached;
    SignOfProduct(off, SquaredLength(dx, dy));
  }

  lemma EveryPointReached(a: Point, b: Point, p: Point)
    requires a != b
    ensures exists along, off :: p == Reached(a, b, along, off)
  {
    var dx, dy := b.x - a.x, b.y - a.y;
    LengthPositive(dx, dy);
    hide SquaredLength;
    var along, off := Solve(dx, dy, p.x - a.x, p.y - a.y);
    assert p == Reached(a, b, along, off);
  }

  /** Two linear equations in the two offsets, by Cramer's rule. */
  lemma Solve(dx: real, dy: real, x: real, y: real) returns (along: real, off: real)
    requires SquaredLength(dx, dy) != 0.0
    ensures along * dx - off * dy == x && along * dy + off * dx == y
  {
    Cramer(dx, dy, x, y);
    hide SquaredLength;
    var k, u, v := SquaredLength(dx, dy), dx * x + dy * y, dx * y - dy * x;
    along, off := u / k, v / k;
    Combine(along, off, dx, dy, k);
    assert along * k == u && off * k == v;
    Cancel(along * dx - off * dy, x, k);
    Cancel(along * dy + off * dx, y, k);
  }

  lemma Combine(along: real, off: real, dx: real, dy: real, k: real)
    ensures (along * dx - off * dy) * k == dx * (along * k) - dy * (off * k)
    ensures (along * dy + off * dx) * k == dy * (along * k) + dx * (off * k)
  {
  }

  lemma Cramer(dx: real, dy: real, x: real, y: real)
    ensures dx * (dx * x + dy * y) - dy * (dx * y - dy * x) == x * SquaredLength(dx, dy)
    ensures dy * (dx * x + dy * y) + dx * (dx * y - dy * x) == y * SquaredLength(dx, dy)
  {
  }

  lemma Cancel(u: real, v: real, k: real)
    requires k != 0.0 && u * k == v * k
    ensures u == v
  {
    assert (u - v) * k == 0.0;
  }

  function Center(d: Detection): Point {
    Point((d.x1 + d.x2) * 0.5, (d.y1 + d.y2) * 0.5)
  }

  /** The middle of the box, as far from one side as from the other. */
  lemma CenterIsMiddle(d: Detection)
    ensures var c := Center(d); c.x - d.x1 == d.x2 - c.x && c.y - d.y1 == d.y2 - c.y
  {
  }

  /** Pixel coordinates to 0..1; frames without a size leave the point alone. */
  function Normalize(p: Point, width: int, height: int): Point {
    if width <= 0 || height <= 0 then p else Point(p.x / width as real, p.y / height as real)
  }

  /** A point given by its share of the width and of the height is found again. */
  lemma NormalizeInvertsScaling(u: real, v: real, width: int, height: int)
    requires width > 0 && height > 0
    ensures Normalize(Point(u * width as real, v * height as real), width, height) == Point(u, v)
  {
  }
}
