/** scopeimg/bitmap.c: draw_line, an integer line rasteriser. */
module Raster {

  datatype Point = Point(x: int, y: int)

  function Abs(x: int): nat { if x < 0 then -x else x }
  function Max(a: nat, b: nat): nat { if a < b then b else a }

  /** Where the line is after a steps along x and b along y. */
  function At(start: Point, sx: int, sy: int, a: nat, b: nat): Point
  {
    Point(start.x + sx * a, start.y + sy * b)
  }

  /** Twice the distance from the ideal line, scaled by the longer side, is at most that side:
      the point is half a pixel from the line at most.  Of two points at just half a pixel the
      one is taken that has gone less far along the shorter side. */
  predicate Near(dx: nat, dy: nat, a: nat, b: nat)
  {
    var d := 2 * (dx * b - dy * a);
    if dx >= dy then -(dx as int) <= d < Max(dx, 1) else -(dy as int) < d <= dy
  }

  /** After i turns: the longer side has been followed for i steps, the other one near the line. */
  predicate OnLine(dx: nat, dy: nat, a: nat, b: nat, i: nat)
  {
    (if dx >= dy then a == i else b == i) && a <= dx && b <= dy && Near(dx, dy, a, b)
  }

  /** The dots of a line from start to end. */
  ghost predicate IsLine(start: Point, end: Point, dots: seq<Point>)
  {
    var dx, dy := Abs(end.x - start.x), Abs(end.y - start.y);
    && |dots| == Max(dx, dy) + 1 && dots[0] == start && dots[|dots| - 1] == end
    && forall i: nat :: i < |dots| ==> DotAt(start, end, dots[i], i)
  }

  /** Dot i lies i steps along the longer side, never past the end on either, near the line. */
  ghost predicate DotAt(start: Point, end: Point, dot: Point, i: nat)
  {
    var dx, dy := Abs(end.x - start.x), Abs(end.y - start.y);
    exists a: nat, b: nat :: OnLine(dx, dy, a, b, i) &&
      dot == At(start, Sign(start.x, end.x), Sign(start.y, end.y), a, b)
  }

  function Sign(from: int, to: int): int { if from < to then 1 else -1 }

  // ----- arithmetic of one turn -----

  /** The error term after a and b steps. */
  function Err(dx: nat, dy: nat, a: nat, b: nat): int { dx - dy + dx * b - dy * a }

  lemma ErrSteps(dx: nat, dy: nat, a: nat, b: nat)
    ensures Err(dx, dy, a + 1, b) == Err(dx, dy, a, b) - dy
    ensures Err(dx, dy, a, b + 1) == Err(dx, dy, a, b) + dx
  {
    assert dy * (a + 1) == dy * a + dy;
    assert dx * (b + 1) == dx * b + dx;
  }

  /** The line has arrived after exactly Max(dx, dy) turns. */
  lemma ArrivesAtEnd(dx: nat, dy: nat, a: nat, b: nat, i: nat)
    requires OnLine(dx, dy, a, b, i)
    ensures i <= Max(dx, dy) && (i == Max(dx, dy) <==> a == dx && b == dy)
  {
    if i == Max(dx, dy) {
      if dx >= dy {
        EndsTogether(dx, dy, b);
      } else {
        EndsTogether(dy, dx, a);
      }
    }
  }

  lemma {:induction false} MulMono(m: nat, j: nat, k: nat)
    requires j <= k
    ensures m * j <= m * k
    decreases k
  {
    if j < k {
      MulMono(m, j, k - 1);
      assert m * k == m * (k - 1) + m;
    }
  }

  lemma MulCancel(m: nat, j: nat, k: nat)
    requires m * j < m * k
    ensures j < k
  {
    if j >= k { MulMono(m, k, j); }
  }

  /** At the end of the longer side m, a point near the line is at the end of the other one. */
  lemma EndsTogether(m: nat, n: nat, b: nat)
    requires n <= m && b <= n && -(m as int) <= 2 * (m * b - n * m) <= m
    ensures b == n
  {
    if m > 0 {
      assert m * (b + 1) == m * b + m;
      assert m * n == n * m;
      MulCancel(m, n, b + 1);
    }
  }

  /** One turn with the line longer along x: x steps always, y steps when the error says so. */
  lemma TurnX(dx: nat, dy: nat, a: nat, b: nat, i: nat)
    requires dx >= dy && OnLine(dx, dy, a, b, i) && i < dx
    ensures var e2 := 2 * Err(dx, dy, a, b);
            && e2 > -(dy as int)
            && OnLine(dx, dy, a + 1, if e2 < dx then b + 1 else b, i + 1)
            && (e2 < dx ==> b < dy)
  {
    var d, e := dx * b - dy * a, Err(dx, dy, a, b);
    if dx == dy { SameSides(dx, a, b); }
    ErrSteps(dx, dy, a, b);
    var b1 := if 2 * e < dx then b + 1 else b;
    assert dy * (a + 1) == dy * a + dy && dx * (b + 1) == dx * b + dx;
    assert Near(dx, dy, a + 1, b1);
    NotPast(dx, dy, a + 1, b1);
  }

  /** Going along a diagonal both sides advance together. */
  lemma SameSides(dx: nat, a: nat, b: nat)
    requires Near(dx, dx, a, b) && dx > 0
    ensures a == b
  {
    assert dx * (a + 1) == dx * a + dx && dx * (b + 1) == dx * b + dx;
    MulCancel(dx, b, a + 1);
    MulCancel(dx, a, b + 1);
  }

  /** A point near the line is not past the end n of the side other than m. */
  lemma NotPast(m: nat, n: nat, along: nat, across: nat)
    requires m > 0 && along <= m && 2 * (m * across - n * along) <= m
    ensures across <= n
  {
    MulMono(n, along, m);
    assert n * m == m * n;
    assert m * (n + 1) == m * n + m;
    MulCancel(m, across, n + 1);
  }

  /** One turn with the line longer along y: y steps always. */
  lemma TurnY(dx: nat, dy: nat, a: nat, b: nat, i: nat)
    requires dx < dy && OnLine(dx, dy, a, b, i) && i < dy
    ensures var e2 := 2 * Err(dx, dy, a, b);
            && e2 < dx
            && OnLine(dx, dy, if e2 > -(dy as int) then a + 1 else a, b + 1, i + 1)
            && (e2 > -(dy as int) ==> a < dx)
  {
    var e := Err(dx, dy, a, b);
    ErrSteps(dx, dy, a, b);
    var a1 := if 2 * e > -(dy as int) then a + 1 else a;
    assert dy * (a + 1) == dy * a + dy && dx * (b + 1) == dx * b + dx;
    assert Near(dx, dy, a1, b + 1);
    NotPast(dy, dx, b + 1, a1);
  }

  // ----- the line is determined by its ends -----

  /** Of all points i steps along the longer side just one is near the line. */
  lemma NearIsOne(dx: nat, dy: nat, a: nat, b: nat, a': nat, b': nat, i: nat)
    requires OnLine(dx, dy, a, b, i) && OnLine(dx, dy, a', b', i)
    ensures a == a' && b == b'
  {
    if dx >= dy {
      if dx > 0 { StepsDiffer(dx, b, b'); }
    } else {
      StepsDiffer(dy, a, a');
    }
  }

  /** Two multiples of m that are closer than m are equal. */
  lemma StepsDiffer(m: nat, j: nat, k: nat)
    requires -(m as int) < m * j - m * k < m
    ensures j == k
  {
    assert m * (j + 1) == m * j + m && m * (k + 1) == m * k + m;
    MulCancel(m, j, k + 1);
    MulCancel(m, k, j + 1);
  }

  /** So there is one line between two points. */
  lemma LineIsOne(start: Point, end: Point, dots: seq<Point>, dots': seq<Point>)
    requires IsLine(start, end, dots) && IsLine(start, end, dots')
    ensures dots == dots'
  {
    var dx, dy := Abs(end.x - start.x), Abs(end.y - start.y);
    var sx, sy := Sign(start.x, end.x), Sign(start.y, end.y);
    hide OnLine, At, Abs, Sign;
    forall i: nat | i < |dots| ensures dots[i] == dots'[i] {
      assert DotAt(start, end, dots[i], i) && DotAt(start, end, dots'[i], i);
      var a: nat, b: nat :| OnLine(dx, dy, a, b, i) && dots[i] == At(start, sx, sy, a, b);
      var a': nat, b': nat :| OnLine(dx, dy, a', b', i) && dots'[i] == At(start, sx, sy, a', b');
      NearIsOne(dx, dy, a, b, a', b', i);
    }
  }

  // ----- draw_line -----

  /** One turn of the loop, whichever side is the longer one: where it leads, and that it can
      only pass the end halfway when the turn is the last one. */
  lemma Turn(dx: nat, dy: nat, a: nat, b: nat, i: nat)
    requires OnLine(dx, dy, a, b, i) && !(a == dx && b == dy)
    ensures var e2 := 2 * Err(dx, dy, a, b);
            var a1, b1 := if e2 > -(dy as int) then a + 1 else a, if e2 < dx then b + 1 else b;
            && OnLine(dx, dy, a1, b1, i + 1) && i < Max(dx, dy)
            && (a1 == dx && b == dy ==> b1 == b)
            && Err(dx, dy, a1, b1) ==
               Err(dx, dy, a, b) - (if e2 > -(dy as int) then dy else 0) + if e2 < dx then dx else 0
  {
    ArrivesAtEnd(dx, dy, a, b, i);
    if dx >= dy { TurnX(dx, dy, a, b, i); } else { TurnY(dx, dy, a, b, i); }
    ErrSteps(dx, dy, a, b);
    ErrSteps(dx, dy, a + 1, b);
  }

  const BWIDTH := 501

  /** The dots from (x0, y0) to (x1, y1), mirrored along x, in the order in which they are plotted. */
  method DrawLine(x0: int, y0: int, x1: int, y1: int) returns (dots: seq<Point>)
    ensures IsLine(Point(BWIDTH - (x0 + 1), y0), Point(BWIDTH - (x1 + 1), y1), dots)
  {
    var x, y, xEnd := BWIDTH - (x0 + 1), y0, BWIDTH - (x1 + 1);
    ghost var start := Point(x, y0);
    var end := Point(xEnd, y1);
    var dx: int, dy: int := Abs(xEnd - x), Abs(y1 - y);
    var sx, sy := Sign(x, xEnd), Sign(y, y1);
    var err: int := dx - dy;
    dots := [];
    ghost var a: nat, b: nat, i: nat := 0, 0, 0;
    hide OnLine, Err, At, DotAt, Abs, Sign, Max, IsLine, Near;
    LineStarts(start, end);
    while true
      invariant OnLine(dx, dy, a, b, i) && err == Err(dx, dy, a, b)
      invariant Point(x, y) == At(start, sx, sy, a, b)
      invariant Plotted(start, end, dots, i)
      decreases Max(dx, dy) - i
    {
      Arrived(start, end, a, b, i);
      PlotOne(start, end, dots, i, Point(x, y));
      hide Plotted;
      dots := dots + [Point(x, y)];
      if x == xEnd && y == y1 {
        AllDots(start, end, dots);
        break;
      }
      var arrived;
      x, y, err, arrived, a, b := OneTurn(start, end, sx, sy, dx, dy, x, y, err, a, b, i);
      i := i + 1;
      if arrived {
        Arrived(start, end, a, b, i);
        PlotOne(start, end, dots, i, Point(x, y));
        dots := dots + [Point(x, y)];
        AllDots(start, end, dots);
        break;
      }
    }
  }

  /** The steps of one turn; arrived means that the end was met after the step along x. */
  method OneTurn(ghost start: Point, end: Point, sx: int, sy: int, dx: int, dy: int, x0: int, y0: int, err0: int,
                 ghost a0: nat, ghost b0: nat, ghost i: nat)
    returns (x: int, y: int, err: int, arrived: bool, ghost a: nat, ghost b: nat)
    requires dx == Abs(end.x - start.x) && dy == Abs(end.y - start.y) && sx == Sign(start.x, end.x) &&
             sy == Sign(start.y, end.y)
    requires OnLine(dx, dy, a0, b0, i) && err0 == Err(dx, dy, a0, b0) && Point(x0, y0) == At(start, sx, sy, a0, b0) &&
             Point(x0, y0) != end
    ensures OnLine(dx, dy, a, b, i + 1) && err == Err(dx, dy, a, b) && Point(x, y) == At(start, sx, sy, a, b) &&
            i < Max(dx, dy)
    ensures arrived ==> Point(x, y) == end
  {
    hide OnLine, Err, At, Abs, Sign, Max, Near;
    Arrived(start, end, a0, b0, i);
    Turn(dx, dy, a0, b0, i);
    x, y, err, arrived := x0, y0, err0, false;
    var e2: int := err * 2;
    a, b := if e2 > -dy then a0 + 1 else a0, if e2 < dx then b0 + 1 else b0;
    AtSteps(start, sx, sy, a0, b0);
    AtSteps(start, sx, sy, a, b0);
    OnTheWay(start, end, a, b0, b, i + 1);
    if e2 > -dy {
      err := err - dy;
      x := x + sx;
    }
    if x == end.x && y == end.y {
      arrived := true;
      return;
    }
    if e2 < dx {
      err := err + dx;
      y := y + sy;
    }
  }

  ghost predicate Plotted(start: Point, end: Point, dots: seq<Point>, n: nat)
  {
    |dots| == n && forall k: nat :: k < n ==> DotAt(start, end, dots[k], k)
  }

  lemma PlotOne(start: Point, end: Point, dots: seq<Point>, n: nat, dot: Point)
    requires Plotted(start, end, dots, n) && DotAt(start, end, dot, n)
    ensures Plotted(start, end, dots + [dot], n + 1) && |dots + [dot]| == n + 1
  {
    hide DotAt;
  }

  lemma LineStarts(start: Point, end: Point)
    ensures var dx, dy := Abs(end.x - start.x), Abs(end.y - start.y);
            OnLine(dx, dy, 0, 0, 0) && Err(dx, dy, 0, 0) == dx - dy
    ensures At(start, Sign(start.x, end.x), Sign(start.y, end.y), 0, 0) == start
  {}

  lemma AllDots(start: Point, end: Point, dots: seq<Point>)
    requires |dots| == Max(Abs(end.x - start.x), Abs(end.y - start.y)) + 1 && dots[|dots| - 1] == end
    requires Plotted(start, end, dots, |dots|)
    ensures IsLine(start, end, dots)
  {
    var dx, dy := Abs(end.x - start.x), Abs(end.y - start.y);
    assert DotAt(start, end, dots[0], 0);
    var a: nat, b: nat :| OnLine(dx, dy, a, b, 0) &&
      dots[0] == At(start, Sign(start.x, end.x), Sign(start.y, end.y), a, b);
    NoSteps(dx, dy, a, b);
    LineStarts(start, end);
  }

  lemma AtSteps(start: Point, sx: int, sy: int, a: nat, b: nat)
    ensures At(start, sx, sy, a + 1, b) == Point(At(start, sx, sy, a, b).x + sx, At(start, sx, sy, a, b).y)
    ensures At(start, sx, sy, a, b + 1) == Point(At(start, sx, sy, a, b).x, At(start, sx, sy, a, b).y + sy)
  {
    assert sx * (a + 1) == sx * a + sx;
    assert sy * (b + 1) == sy * b + sy;
  }

  lemma NoSteps(dx: nat, dy: nat, a: nat, b: nat)
    requires OnLine(dx, dy, a, b, 0)
    ensures a == 0 && b == 0
  {
    if dx >= dy {
      if dx > 0 { MulCancel(dx, b, 1); }
    } else {
      MulCancel(dy, a, 1);
    }
  }

  /** A turn's dot is one of the line's; it is the end exactly when all turns have been made. */
  lemma Arrived(start: Point, end: Point, a: nat, b: nat, i: nat)
    requires OnLine(Abs(end.x - start.x), Abs(end.y - start.y), a, b, i)
    ensures var dot := At(start, Sign(start.x, end.x), Sign(start.y, end.y), a, b);
            && DotAt(start, end, dot, i)
            && (dot == end <==> a == Abs(end.x - start.x) && b == Abs(end.y - start.y))
            && (dot == end <==> i == Max(Abs(end.x - start.x), Abs(end.y - start.y)))
  {
    ArrivesAtEnd(Abs(end.x - start.x), Abs(end.y - start.y), a, b, i);
    SignedSteps(start.x, end.x, a);
    SignedSteps(start.y, end.y, b);
  }

  /** Halfway through a turn the end is met only when the turn has no second half. */
  lemma OnTheWay(start: Point, end: Point, a1: nat, b: nat, b1: nat, i: nat)
    requires OnLine(Abs(end.x - start.x), Abs(end.y - start.y), a1, b1, i) && b <= b1
    requires a1 == Abs(end.x - start.x) && b == Abs(end.y - start.y) ==> b1 == b
    ensures At(start, Sign(start.x, end.x), Sign(start.y, end.y), a1, b) == end ==> b1 == b
  {
    SignedSteps(start.x, end.x, a1);
    SignedSteps(start.y, end.y, b);
  }

  lemma SignedSteps(from: int, to: int, a: nat)
    ensures Sign(from, to) * a == if from < to then a else -(a as int)
  {}
}
