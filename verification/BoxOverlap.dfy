/** Axis-parallel boxes of detected text and their intersection over union, in exact rationals. */
module BoxOverlap {
  import opened Arith

  datatype Point = Point(x: real, y: real)

  datatype Box = Box(minX: int, minY: int, maxX: int, maxY: int) {
    ghost predicate Ordered() {
      minX <= maxX && minY <= maxY
    }

    function Area(): int {
      (maxX - minX) * (maxY - minY)
    }
  }

  function MinReal(a: real, b: real): real {
    if a <= b then a else b
  }

  function MaxReal(a: real, b: real): real {
    if a <= b then b else a
  }

  /** Conversion to an integer drops the fraction, towards zero. */
  function Truncate(r: real): int {
    if r >= 0.0 then r.Floor else -(-r).Floor
  }

  /** The bounding box of a quadrilateral; anything else has an empty box. */
  function Corners(points: seq<Point>): Box {
    if |points| != 4 then Box(0, 0, 0, 0)
    else
      var a, b, c, d := points[0], points[1], points[2], points[3];
      Box(Truncate(MinReal(MinReal(a.x, b.x), MinReal(c.x, d.x))),
          Truncate(MinReal(MinReal(a.y, b.y), MinReal(c.y, d.y))),
          Truncate(MaxReal(MaxReal(a.x, b.x), MaxReal(c.x, d.x))),
          Truncate(MaxReal(MaxReal(a.y, b.y), MaxReal(c.y, d.y))))
  }

  lemma TruncateMonotone(r: real, s: real)
    requires r <= s
    ensures Truncate(r) <= Truncate(s)
  {
    if 0.0 <= r {
    } else if s < 0.0 {
      assert -s <= -r;
    }
  }

  lemma CornersOrdered(points: seq<Point>)
    ensures Corners(points).Ordered()
  {
    if |points| == 4 {
      var a, b, c, d := points[0], points[1], points[2], points[3];
      TruncateMonotone(MinReal(MinReal(a.x, b.x), MinReal(c.x, d.x)), MaxReal(MaxReal(a.x, b.x), MaxReal(c.x, d.x)));
      TruncateMonotone(MinReal(MinReal(a.y, b.y), MinReal(c.y, d.y)), MaxReal(MaxReal(a.y, b.y), MaxReal(c.y, d.y)));
    }
  }

  function Intersection(a: Box, b: Box): int {
    Max(0, Min(a.maxX, b.maxX) - Max(a.minX, b.minX)) * Max(0, Min(a.maxY, b.maxY) - Max(a.minY, b.minY))
  }

  function Iou(a: Box, b: Box): real {
    var inter := Intersection(a, b);
    var denom := a.Area() + b.Area() - inter;
    if denom > 0 then inter as real / denom as real else 0.0
  }

  lemma IouSymmetric(a: Box, b: Box)
    ensures Iou(a, b) == Iou(b, a)
  {
  }

  lemma ProductMonotone(x: int, y: int, x': int, y': int)
    requires 0 <= x <= x' && 0 <= y <= y'
    ensures 0 <= x * y <= x' * y'
  {
    assert x * y <= x' * y;
    assert x' * y <= x' * y';
  }

  /** The intersection lies in both boxes. */
  lemma IntersectionFits(a: Box, b: Box)
    requires a.Ordered() && b.Ordered()
    ensures 0 <= Intersection(a, b) <= a.Area() && Intersection(a, b) <= b.Area()
  {
    var w := Max(0, Min(a.maxX, b.maxX) - Max(a.minX, b.minX));
    var h := Max(0, Min(a.maxY, b.maxY) - Max(a.minY, b.minY));
    ProductMonotone(w, h, a.maxX - a.minX, a.maxY - a.minY);
    ProductMonotone(w, h, b.maxX - b.minX, b.maxY - b.minY);
  }

  lemma Quotient(p: int, q: int)
    requires 0 <= p <= q && q > 0
    ensures 0.0 <= p as real / q as real <= 1.0
    ensures p as real / q as real == 1.0 <==> p == q
  {
    var r := p as real / q as real;
    assert r * q as real == p as real;
  }

  lemma IouRange(a: Box, b: Box)
    requires a.Ordered() && b.Ordered()
    ensures 0.0 <= Iou(a, b) <= 1.0
    ensures Iou(a, b) == 1.0 <==> Intersection(a, b) == a.Area() == b.Area() > 0
  {
    IntersectionFits(a, b);
    var inter, denom := Intersection(a, b), a.Area() + b.Area() - Intersection(a, b);
    if denom > 0 {
      assert inter <= denom;
      Quotient(inter, denom);
    }
  }

  /** A part of positive area is the whole only when it is as wide and as high. */
  lemma FullPart(x: int, y: int, x': int, y': int)
    requires 0 <= x <= x' && 0 <= y <= y' && x * y == x' * y' > 0
    ensures x == x' && y == y'
  {
    assert x * (y' - y) + (x' - x) * y' == x' * y' - x * y;
    assert x * (y' - y) >= 0 && (x' - x) * y' >= 0;
    assert x' > 0 && y' > 0 && x > 0;
  }

  /** The overlap is complete exactly for equal boxes of positive area. */
  lemma IouOne(a: Box, b: Box)
    requires a.Ordered() && b.Ordered()
    ensures Iou(a, b) == 1.0 <==> a == b && a.Area() > 0
  {
    IouRange(a, b);
    var w := Max(0, Min(a.maxX, b.maxX) - Max(a.minX, b.minX));
    var h := Max(0, Min(a.maxY, b.maxY) - Max(a.minY, b.minY));
    if Iou(a, b) == 1.0 {
      FullPart(w, h, a.maxX - a.minX, a.maxY - a.minY);
      FullPart(w, h, b.maxX - b.minX, b.maxY - b.minY);
    }
  }

  /** The unit cells with lower left corners (x, y) that make up the box. */
  ghost function Cells(b: Box): set<(int, int)> {
    set x, y | b.minX <= x < b.maxX && b.minY <= y < b.maxY :: (x, y)
  }

  lemma {:induction false} ColumnSize(x: int, lo: int, hi: int)
    requires lo <= hi
    ensures |set y | lo <= y < hi :: (x, y)| == hi - lo
    decreases hi - lo
  {
    var column := set y | lo <= y < hi :: (x, y);
    if lo == hi {
      assert column == {};
    } else {
      var rest := set y | lo <= y < hi - 1 :: (x, y);
      ColumnSize(x, lo, hi - 1);
      assert column == rest + {(x, hi - 1)} && (x, hi - 1) !in rest;
    }
  }

  /** A box has as many cells as its area says. */
  lemma {:induction false} CellsSize(b: Box)
    requires b.Ordered()
    ensures |Cells(b)| == b.Area()
    decreases b.maxX - b.minX
  {
    if b.minX == b.maxX {
      assert Cells(b) == {};
    } else {
      var x := b.maxX - 1;
      var rest, column := b.(maxX := x), set y | b.minY <= y < b.maxY :: (x, y);
      CellsSize(rest);
      ColumnSize(x, b.minY, b.maxY);
      assert Cells(b) == Cells(rest) + column && Cells(rest) !! column;
      MulNext(x - b.minX, b.maxY - b.minY);
    }
  }

  /** The box that two boxes have in common; not an ordered one if they have none. */
  ghost function Common(a: Box, b: Box): Box {
    Box(Max(a.minX, b.minX), Max(a.minY, b.minY), Min(a.maxX, b.maxX), Min(a.maxY, b.maxY))
  }

  lemma CommonCells(a: Box, b: Box)
    ensures Cells(a) * Cells(b) == Cells(Common(a, b))
  {
  }

  lemma CommonArea(a: Box, b: Box)
    ensures Intersection(a, b) == if Common(a, b).Ordered() then Common(a, b).Area() else 0
  {
    var c := Common(a, b);
    if c.maxX <= c.minX || c.maxY <= c.minY {
      assert Max(0, c.maxX - c.minX) == 0 || Max(0, c.maxY - c.minY) == 0;
    }
  }

  /** The intersection is the number of cells that lie in both boxes. */
  lemma IntersectionCounts(a: Box, b: Box)
    ensures Intersection(a, b) == |Cells(a) * Cells(b)|
  {
    CommonCells(a, b);
    CommonArea(a, b);
    hide Intersection, Box.Area;
    if Common(a, b).Ordered() {
      CellsSize(Common(a, b));
    } else {
      assert Cells(Common(a, b)) == {};
    }
  }

  lemma UnionSize<T>(a: set<T>, b: set<T>)
    ensures |a + b| == |a| + |b| - |a * b|
  {
    assert a + b == a + (b - a) && a !! (b - a);
    assert b == (b - a) + a * b && (b - a) !! (a * b);
  }

  lemma TimesQuotient(p: nat, q: nat)
    requires q > 0
    ensures p as real / q as real * q as real == p as real
  {
  }

  /** The overlap in terms of the two counts. */
  lemma IouOf(a: Box, b: Box, inter: nat, union: nat)
    requires inter == Intersection(a, b) && union == a.Area() + b.Area() - inter
    ensures Iou(a, b) == if union > 0 then inter as real / union as real else 0.0
  {
    hide Intersection, Box.Area;
  }

  /** The overlap is the share of the cells in either box that are in both; there is none where neither has any. */
  lemma IouCounts(a: Box, b: Box)
    requires a.Ordered() && b.Ordered()
    ensures Iou(a, b) * |Cells(a) + Cells(b)| as real == |Cells(a) * Cells(b)| as real
    ensures Cells(a) + Cells(b) == {} ==> Iou(a, b) == 0.0
  {
    hide Cells, Intersection, Box.Area, Iou;
    CellsSize(a);
    CellsSize(b);
    IntersectionCounts(a, b);
    UnionSize(Cells(a), Cells(b));
    var inter, union := |Cells(a) * Cells(b)|, |Cells(a) + Cells(b)|;
    IouOf(a, b, inter, union);
    if union > 0 {
      TimesQuotient(inter, union);
    } else {
      assert Cells(a) * Cells(b) <= Cells(a) + Cells(b) == {};
    }
  }

  /** Conversion keeps the integer part and drops the fraction. */
  lemma TruncateTowardsZero(r: real)
    ensures if r >= 0.0 then Truncate(r) as real <= r < Truncate(r) as real + 1.0
            else Truncate(r) as real - 1.0 < r <= Truncate(r) as real
    ensures -1.0 < r < 1.0 ==> Truncate(r) == 0
  {
  }

  lemma SidesBound(p: real, q: real, r: real, s: real)
    ensures var lo, hi := Truncate(MinReal(MinReal(p, q), MinReal(r, s))), Truncate(MaxReal(MaxReal(p, q), MaxReal(r, s)));
            && lo <= Truncate(p) <= hi && lo <= Truncate(q) <= hi && lo <= Truncate(r) <= hi && lo <= Truncate(s) <= hi
            && (lo == Truncate(p) || lo == Truncate(q) || lo == Truncate(r) || lo == Truncate(s))
            && (hi == Truncate(p) || hi == Truncate(q) || hi == Truncate(r) || hi == Truncate(s))
  {
    hide Truncate;
    var least, most := MinReal(MinReal(p, q), MinReal(r, s)), MaxReal(MaxReal(p, q), MaxReal(r, s));
    TruncateMonotone(least, p);
    TruncateMonotone(least, q);
    TruncateMonotone(least, r);
    TruncateMonotone(least, s);
    TruncateMonotone(p, most);
    TruncateMonotone(q, most);
    TruncateMonotone(r, most);
    TruncateMonotone(s, most);
  }

  /** Every corner point lies in the bounding box, and each side passes through one of them. */
  lemma CornersBound(points: seq<Point>)
    ensures |points| != 4 ==> Corners(points) == Box(0, 0, 0, 0)
    ensures |points| == 4 ==>
              var b := Corners(points);
              && (forall i :: 0 <= i < 4 ==> b.minX <= Truncate(points[i].x) <= b.maxX)
              && (forall i :: 0 <= i < 4 ==> b.minY <= Truncate(points[i].y) <= b.maxY)
              && (exists i :: 0 <= i < 4 && b.minX == Truncate(points[i].x))
              && (exists i :: 0 <= i < 4 && b.maxX == Truncate(points[i].x))
              && (exists i :: 0 <= i < 4 && b.minY == Truncate(points[i].y))
              && (exists i :: 0 <= i < 4 && b.maxY == Truncate(points[i].y))
  {
    if |points| == 4 {
      var p, q, r, s := points[0], points[1], points[2], points[3];
      SidesBound(p.x, q.x, r.x, s.x);
      SidesBound(p.y, q.y, r.y, s.y);
    }
  }
}
