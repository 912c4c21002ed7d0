/** The line loop of the software GPU (exec_line in source/hle/hle_gpu.c): Bresenham's algorithm with
    one error term for both directions. */
module GpuLine {
  import opened Words

  const WIDTH: nat := 1024
  const HEIGHT: nat := 512

  datatype Point = Point(x: int, y: int)

  function Abs(v: int): nat {
    if v < 0 then -v else v
  }

  function Max(a: nat, b: nat): nat {
    if a < b then b else a
  }

  function Direction(from: int, to: int): int {
    if from < to then 1 else -1
  }

  // ---- where the line goes ----

  /** A point i steps along x and j along y, and how far that is from the ideal line, in units where a
      pixel is max(a, b). */
  function Off(a: nat, b: nat, i: int, j: int): int {
    j * a - i * b
  }

  /** The point lies within half a pixel of the ideal line. */
  predicate Near(a: nat, b: nat, i: int, j: int) {
    if a >= b then -(a as int) <= 2 * Off(a, b, i, j) <= a else -(b as int) <= 2 * Off(a, b, i, j) <= b
  }

  /** What keeps the loop on course: rounding goes one way at the half. */
  predicate OnCourse(a: nat, b: nat, i: int, j: int) {
    if a >= b then (a > 0 ==> -(a as int) < 2 * Off(a, b, i, j) <= a) else -(b as int) <= 2 * Off(a, b, i, j) < b
  }

  predicate StepsX(a: nat, b: nat, err: int) {
    2 * err >= -(b as int)
  }

  predicate StepsY(a: nat, b: nat, err: int) {
    2 * err <= a
  }

  lemma OffStep(a: nat, b: nat, i: int, j: int)
    ensures Off(a, b, i + 1, j) == Off(a, b, i, j) - b
    ensures Off(a, b, i, j + 1) == Off(a, b, i, j) + a
    ensures Off(a, b, i + 1, j + 1) == Off(a, b, i, j) + a - b
  {
  }

  /** From a point on course, one pass of the loop makes the major step, and stays on course. */
  lemma PassKeepsCourse(a: nat, b: nat, i: int, j: int, err: int)
    requires OnCourse(a, b, i, j) && err == Off(a, b, i, j) + a - b && (a > 0 || b > 0)
    ensures if a >= b then StepsX(a, b, err) else StepsY(a, b, err)
    ensures OnCourse(a, b, i + if StepsX(a, b, err) then 1 else 0, j + if StepsY(a, b, err) then 1 else 0)
  {
    OffStep(a, b, i, j);
  }

  lemma BoundedQuotient(d: nat, x: int, y: int)
    requires d > 0 && 2 * (x * d) <= 2 * (y * d) + d
    ensures x <= y
  {
    if x > y {
      MulMono(d, y + 1, x);
    }
  }

  /** Going mostly along x, y never passes its end, and gets there when x does. */
  lemma CourseEndsX(a: nat, b: nat, i: nat, j: nat)
    requires a >= b && a > 0 && OnCourse(a, b, i, j) && i <= a
    ensures j <= b && (i == a ==> j == b)
  {
    MulMono(b, i, a);
    assert i * b <= b * a;
    BoundedQuotient(a, j, b);
    if i == a && j < b {
      MulMono(a, j, b - 1);
    }
  }

  /** Going mostly along y, x never passes its end, and gets there when y does. */
  lemma CourseEndsY(a: nat, b: nat, i: nat, j: nat)
    requires a < b && OnCourse(a, b, i, j) && j <= b
    ensures i <= a && (j == b ==> i == a)
  {
    MulMono(a, j, b);
    assert j * a <= a * b;
    BoundedQuotient(b, i, a);
    if j == b && i < a {
      MulMono(b, i, a - 1);
    }
  }

  // ---- drawing ----

  /** The drawing area and the way a pixel is put: a color, blended with what is there or not. */
  datatype Pen = Pen(left: nat, top: nat, right: nat, bottom: nat, color: Half, blend: (Half, Half) -> Half, semi: bool)

  predicate Inside(pen: Pen, p: Point) {
    pen.left <= p.x <= pen.right && pen.top <= p.y <= pen.bottom && 0 <= p.x < WIDTH && 0 <= p.y < HEIGHT
  }

  type Vram = v: seq<Half> | |v| == WIDTH * HEIGHT witness seq<Half>(524288, _ => 0)

  function Draw(v: Vram, pen: Pen, p: Point): Vram {
    if !Inside(pen, p) then v
    else
      var at := p.y * WIDTH + p.x;
      v[at := if pen.semi then pen.blend(v[at], pen.color) else pen.color]
  }

  function DrawAll(v: Vram, pen: Pen, points: seq<Point>): Vram
    decreases |points|
  {
    if points == [] then v else Draw(DrawAll(v, pen, points[..|points| - 1]), pen, points[|points| - 1])
  }

  /** A line between two points: it begins at one and ends at the other, has one point for each step
      along the longer direction, makes that step every time and never a step back, and stays within
      half a pixel of the ideal line. */
  ghost predicate IsLine(points: seq<Point>, p: Point, q: Point) {
    var a, b := Abs(q.x - p.x), Abs(q.y - p.y);
    && |points| == Max(a, b) + 1 && points[0] == p && points[Max(a, b)] == q
    && forall k {:trigger points[k]} :: 0 <= k < |points| ==> OnLine(points[k], p, q, k)
  }

  /** The k-th point: k steps along the longer direction. */
  ghost predicate OnLine(r: Point, p: Point, q: Point, k: nat) {
    var a, b := Abs(q.x - p.x), Abs(q.y - p.y);
    exists i: nat, j: nat {:trigger Steps(r, p, q, i, j)} ::
      Steps(r, p, q, i, j) && Near(a, b, i, j) && i <= a && j <= b && k == if a >= b then i else j
  }

  /** r is i steps along x and j along y from p, toward q. */
  predicate Steps(r: Point, p: Point, q: Point, i: nat, j: nat) {
    r == Point(p.x + i * Direction(p.x, q.x), p.y + j * Direction(p.y, q.y))
  }

  lemma StepsArrive(r: Point, p: Point, q: Point, i: nat, j: nat)
    requires Steps(r, p, q, i, j)
    ensures r == q <==> i == Abs(q.x - p.x) && j == Abs(q.y - p.y)
  {
  }

  lemma StepFurther(p: Point, q: Point, r: Point, i: nat, j: nat)
    requires Steps(r, p, q, i, j)
    ensures Steps(Point(r.x + Direction(p.x, q.x), r.y), p, q, i + 1, j)
    ensures Steps(Point(r.x, r.y + Direction(p.y, q.y)), p, q, i, j + 1)
    ensures Steps(Point(r.x + Direction(p.x, q.x), r.y + Direction(p.y, q.y)), p, q, i + 1, j + 1)
  {
  }

  ghost predicate AllOnLine(points: seq<Point>, p: Point, q: Point) {
    forall k {:trigger points[k]} :: 0 <= k < |points| ==> OnLine(points[k], p, q, k)
  }

  /** The points visited so far, with i x-steps and j y-steps made. */
  ghost predicate Tracing(points: seq<Point>, p: Point, q: Point, i: nat, j: nat) {
    var a, b := Abs(q.x - p.x), Abs(q.y - p.y);
    && i <= a && j <= b && OnCourse(a, b, i, j)
    && |points| == (if a >= b then i else j) && (|points| == 0 ==> i == 0 && j == 0)
       && (|points| > 0 ==> points[0] == p)
    && AllOnLine(points, p, q)
  }

  lemma PointJoins(points: seq<Point>, p: Point, q: Point, i: nat, j: nat, r: Point)
    requires Tracing(points, p, q, i, j) && Steps(r, p, q, i, j)
    ensures OnLine(r, p, q, |points|) && (points + [r])[0] == p
    ensures forall k {:trigger (points + [r])[k]} :: 0 <= k < |points| + 1 ==> OnLine((points + [r])[k], p, q, k)
  {
    var a, b := Abs(q.x - p.x), Abs(q.y - p.y);
    assert Near(a, b, i, j);
    assert OnLine(r, p, q, |points|);
    forall k | 0 <= k < |points| + 1 ensures OnLine((points + [r])[k], p, q, k) {
      if k < |points| {
        assert (points + [r])[k] == points[k];
      }
    }
  }

  lemma TraceEnds(points: seq<Point>, p: Point, q: Point, i: nat, j: nat, r: Point)
    requires Tracing(points, p, q, i, j) && Steps(r, p, q, i, j) && r == q
    ensures IsLine(points + [r], p, q)
  {
    PointJoins(points, p, q, i, j, r);
    StepsArrive(r, p, q, i, j);
  }

  lemma TraceGoesOn(points: seq<Point>, p: Point, q: Point, i: nat, j: nat, r: Point, err: int, i': nat, j': nat)
    requires Tracing(points, p, q, i, j) && Steps(r, p, q, i, j) && r != q
    requires var a, b := Abs(q.x - p.x), Abs(q.y - p.y);
             && err == Off(a, b, i, j) + a - b
             && i' == i + (if StepsX(a, b, err) then 1 else 0) && j' == j + (if StepsY(a, b, err) then 1 else 0)
    ensures Tracing(points + [r], p, q, i', j') && |points| < Max(Abs(q.x - p.x), Abs(q.y - p.y))
  {
    var a, b := Abs(q.x - p.x), Abs(q.y - p.y);
    PointJoins(points, p, q, i, j, r);
    StepsArrive(r, p, q, i, j);
    StillToGo(a, b, i, j);
    PassKeepsCourse(a, b, i, j, err);
    if a >= b {
      CourseEndsX(a, b, i', j');
    } else {
      CourseEndsY(a, b, i', j');
    }
  }

  /** What the loop carries: the point to draw next, and the error term. */
  datatype Cursor = Cursor(at: Point, err: int)

  /** One pass: both tests look at the error term as it was. */
  function Pass(c: Cursor, a: nat, b: nat, sx: int, sy: int): Cursor {
    var x, y := StepsX(a, b, c.err), StepsY(a, b, c.err);
    Cursor(Point(if x then c.at.x + sx else c.at.x, if y then c.at.y + sy else c.at.y),
      c.err - (if x then b else 0) + (if y then a else 0))
  }

  /** The loop's invariant: after i x-steps and j y-steps, the error term is (j + 1) * a - (i + 1) * b. */
  ghost predicate Underway(points: seq<Point>, p: Point, q: Point, c: Cursor, i: nat, j: nat) {
    var a, b := Abs(q.x - p.x), Abs(q.y - p.y);
    Tracing(points, p, q, i, j) && Steps(c.at, p, q, i, j) && c.err == Off(a, b, i, j) + a - b
  }

  lemma Starts(p: Point, q: Point, c: Cursor)
    requires c == Cursor(p, Abs(q.x - p.x) - Abs(q.y - p.y))
    ensures Underway([], p, q, c, 0, 0)
  {
  }

  lemma LastPoint(points: seq<Point>, p: Point, q: Point, c: Cursor, i: nat, j: nat)
    requires Underway(points, p, q, c, i, j) && c.at == q
    ensures IsLine(points + [q], p, q)
  {
    TraceEnds(points, p, q, i, j, q);
  }

  lemma PassSteps(p: Point, q: Point, c: Cursor, i: nat, j: nat, i': nat, j': nat)
    requires Steps(c.at, p, q, i, j)
    requires var a, b := Abs(q.x - p.x), Abs(q.y - p.y);
             && c.err == Off(a, b, i, j) + a - b
             && i' == i + (if StepsX(a, b, c.err) then 1 else 0) && j' == j + (if StepsY(a, b, c.err) then 1 else 0)
    ensures var a, b := Abs(q.x - p.x), Abs(q.y - p.y);
            var next := Pass(c, a, b, Direction(p.x, q.x), Direction(p.y, q.y));
            Steps(next.at, p, q, i', j') && next.err == Off(a, b, i', j') + a - b
  {
    StepFurther(p, q, c.at, i, j);
    OffStep(Abs(q.x - p.x), Abs(q.y - p.y), i, j);
  }

  /** One pass of the loop after a point is drawn that is not the last. */
  lemma PassGoesOn(points: seq<Point>, p: Point, q: Point, c: Cursor, i: nat, j: nat, next: Cursor)
    returns (i': nat, j': nat)
    requires Underway(points, p, q, c, i, j) && c.at != q
    requires next == Pass(c, Abs(q.x - p.x), Abs(q.y - p.y), Direction(p.x, q.x), Direction(p.y, q.y))
    ensures Underway(points + [c.at], p, q, next, i', j')
    ensures |points| < Max(Abs(q.x - p.x), Abs(q.y - p.y))
  {
    var a, b := Abs(q.x - p.x), Abs(q.y - p.y);
    i' := i + if StepsX(a, b, c.err) then 1 else 0;
    j' := j + if StepsY(a, b, c.err) then 1 else 0;
    TraceGoesOn(points, p, q, i, j, c.at, c.err, i', j');
    PassSteps(p, q, c, i, j, i', j');
  }

  /** The loop of exec_line, with the points it visits in order. */
  method ExecLine(vram: array<Half>, pen: Pen, p: Point, q: Point) returns (ghost points: seq<Point>)
    requires vram.Length == WIDTH * HEIGHT
    modifies vram
    ensures IsLine(points, p, q)
    ensures vram[..] == DrawAll(old(vram[..]), pen, points)
  {
    var a, b := Abs(q.x - p.x), Abs(q.y - p.y);
    var sx, sy := Direction(p.x, q.x), Direction(p.y, q.y);
    var dy: int := -(b as int);
    var x, y, err := p.x, p.y, a + dy;
    ghost var i: nat, j: nat := 0, 0;
    ghost var v: Vram := vram[..];
    points := [];
    Starts(p, q, Cursor(Point(x, y), err));
    while true
      invariant Underway(points, p, q, Cursor(Point(x, y), err), i, j)
      invariant vram[..] == DrawAll(v, pen, points)
      decreases Max(a, b) - |points|
    {
      ghost var c := Cursor(Point(x, y), err);
      Visit(vram, pen, Point(x, y), v, points);
      if x == q.x && y == q.y {
        LastPoint(points, p, q, c, i, j);
        points := points + [c.at];
        break;
      }
      var e2 := 2 * err;
      if e2 >= dy {
        err := err + dy;
        x := x + sx;
      }
      if e2 <= a {
        err := err + a;
        y := y + sy;
      }
      i, j := PassGoesOn(points, p, q, c, i, j, Cursor(Point(x, y), err));
      points := points + [c.at];
    }
  }

  lemma DrawLast(v: Vram, pen: Pen, points: seq<Point>, r: Point)
    ensures DrawAll(v, pen, points + [r]) == Draw(DrawAll(v, pen, points), pen, r)
  {
    assert (points + [r])[..|points|] == points;
  }

  /** Draws one more point of a line. */
  method Visit(vram: array<Half>, pen: Pen, r: Point, ghost v: Vram, ghost points: seq<Point>)
    requires vram.Length == WIDTH * HEIGHT && vram[..] == DrawAll(v, pen, points)
    modifies vram
    ensures vram[..] == DrawAll(v, pen, points + [r])
  {
    Plot(vram, pen, r);
    DrawLast(v, pen, points, r);
  }

  method Plot(vram: array<Half>, pen: Pen, p: Point)
    requires vram.Length == WIDTH * HEIGHT
    modifies vram
    ensures vram[..] == Draw(old(vram[..]), pen, p)
  {
    if pen.left <= p.x <= pen.right && pen.top <= p.y <= pen.bottom {
      if 0 <= p.x < WIDTH && 0 <= p.y < HEIGHT {
        var at := p.y * WIDTH + p.x;
        vram[at] := if pen.semi then pen.blend(vram[at], pen.color) else pen.color;
      }
    }
  }

  lemma StillToGo(a: nat, b: nat, i: nat, j: nat)
    requires OnCourse(a, b, i, j) && i <= a && j <= b && !(i == a && j == b)
    ensures if a >= b then a > 0 && i < a else j < b
  {
    if a >= b {
      if a > 0 { CourseEndsX(a, b, i, j); }
    } else {
      CourseEndsY(a, b, i, j);
    }
  }
}
