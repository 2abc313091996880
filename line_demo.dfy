/** The integer line demo: a 240×240 buffer of u32 addressed from 1, and a Bresenham line that
    transposes steep lines, orders the endpoints left to right and steps an error accumulator. */
module LineDemo {
  import opened Space

  type u32 = n: int | 0 <= n < 0x1_0000_0000

  const WIDTH: nat := 240
  const HEIGHT: nat := 240
  const PIXEL_COUNT: nat := WIDTH * HEIGHT

  /** The colour every line is drawn in: 255 << 16 | 255 << 8 | 255. */
  const WHITE: u32 := 0xFF_FFFF

  /** A point of usize coordinates. */
  datatype Point2D = Point2D(x: nat, y: nat)

  /** Point2D::x_distance_to: the signed distance from other to this point along x. */
  function XDistanceTo(self: Point2D, other: Point2D): (d: int)
    ensures other.x + d == self.x
  {
    self.x - other.x
  }

  /** Point2D::y_distance_to: the signed distance from other to this point along y. */
  function YDistanceTo(self: Point2D, other: Point2D): (d: int)
    ensures other.y + d == self.y
  {
    self.y - other.y
  }

  // ---------------------------------------------------------------------------
  // Addressing
  // ---------------------------------------------------------------------------

  /** A point Buffer::xy accepts without panicking: neither subtraction underflows and the
      index is within the array. */
  predicate Addressable(point: Point2D)
  {
    point.y >= 1 && (point.y - 1) * WIDTH + point.x >= 1 && (point.y - 1) * WIDTH + point.x - 1 < PIXEL_COUNT
  }

  /** The 1-based grid the demo draws in. */
  predicate InGrid(point: Point2D)
  {
    1 <= point.x <= WIDTH && 1 <= point.y <= HEIGHT
  }

  /** Buffer::xy: the array index of the cell the returned reference points at. */
  function Xy(point: Point2D): (index: nat)
    requires Addressable(point)
    ensures index < PIXEL_COUNT
  {
    (point.y - 1) * WIDTH + point.x - 1
  }

  /** Over the grid, xy is one-to-one and reaches every index: the cell of index i is
      (i % 240 + 1, i / 240 + 1). */
  lemma XyBijective(p: Point2D, q: Point2D, i: nat)
    requires InGrid(p) && InGrid(q) && i < PIXEL_COUNT
    ensures Addressable(p) && Addressable(q)
    ensures Xy(p) == Xy(q) ==> p == q
    ensures InGrid(Point2D(i % WIDTH + 1, i / WIDTH + 1)) && Xy(Point2D(i % WIDTH + 1, i / WIDTH + 1)) == i
  {
    var c := Point2D(i % WIDTH + 1, i / WIDTH + 1);
    assert (c.y - 1) * WIDTH + c.x - 1 == i;
  }

  // ---------------------------------------------------------------------------
  // The buffer
  // ---------------------------------------------------------------------------

  class Buffer {
    /** The fixed-size pixel array. */
    const buffer: array<u32>

    ghost predicate Valid()
      reads this
    {
      buffer.Length == PIXEL_COUNT
    }

    /** Buffer::new: a fresh array of zeros. */
    constructor ()
      ensures Valid() && fresh(buffer)
      ensures forall i :: 0 <= i < buffer.Length ==> buffer[i] == 0
    {
      buffer := new u32[PIXEL_COUNT](_ => 0);
    }
  }

  /** The contents after writing WHITE at every cell of the sequence in turn. */
  function Painted(data: seq<u32>, cells: seq<Point2D>): (r: seq<u32>)
    requires |data| == PIXEL_COUNT
    requires forall c :: c in cells ==> Addressable(c)
    ensures |r| == |data|
    decreases |cells|
  {
    if cells == [] then data
    else Painted(data, cells[..|cells| - 1])[Xy(cells[|cells| - 1]) := WHITE]
  }

  /** Only WHITE is written, exactly at the cells' indices; every other element keeps its value. */
  lemma {:induction false} PaintedAt(data: seq<u32>, cells: seq<Point2D>, k: nat)
    requires |data| == PIXEL_COUNT && k < PIXEL_COUNT
    requires forall c :: c in cells ==> Addressable(c)
    ensures Painted(data, cells)[k] ==
      if exists c :: c in cells && Xy(c) == k then WHITE else data[k]
    decreases |cells|
  {
    if cells != [] {
      var front := cells[..|cells| - 1];
      assert forall c :: c in front ==> c in cells;
      PaintedAt(data, front, k);
      if exists c :: c in cells && Xy(c) == k {
        var c :| c in cells && Xy(c) == k;
        if c != cells[|cells| - 1] && Xy(cells[|cells| - 1]) != k {
          assert c in front;
        }
      } else {
        assert !exists c :: c in front && Xy(c) == k;
      }
    }
  }

  // ---------------------------------------------------------------------------
  // The pixels a line visits
  // ---------------------------------------------------------------------------

  /** The endpoints after line's two swaps, and whether the image was transposed. */
  datatype Plan = Plan(steep: bool, from: Point2D, to: Point2D)

  function Transpose(p: Point2D): Point2D
  {
    Point2D(p.y, p.x)
  }

  function Min(a: int, b: int): int
  {
    if a <= b then a else b
  }

  function Max(a: int, b: int): int
  {
    if a >= b then a else b
  }

  /** A plan the stepping loop can follow: either its x range is empty, or it rises no more
      than it runs. */
  predicate Shallow(plan: Plan)
  {
    plan.to.x < plan.from.x || Abs(plan.to.y - plan.from.y) <= plan.to.x - plan.from.x
  }

  /** Transpose when |dx| < |dy|; then swap the endpoints when the ORIGINAL dx is negative. */
  function PlanOf(point1: Point2D, point2: Point2D): (plan: Plan)
    ensures plan.steep <==> Abs(XDistanceTo(point2, point1)) < Abs(YDistanceTo(point2, point1))
    ensures Shallow(plan)
  {
    var xDistance := XDistanceTo(point2, point1);
    var yDistance := YDistanceTo(point2, point1);
    var steep := Abs(xDistance) < Abs(yDistance);
    var p1 := if steep then Transpose(point1) else point1;
    var p2 := if steep then Transpose(point2) else point2;
    if xDistance < 0 then Plan(steep, p2, p1) else Plan(steep, p1, p2)
  }

  /** Twice the amount, in units of 1/d, by which row r lies below the ideal line of run d and
      rise a at column t: the error accumulator of the loop. */
  function Slack(a: int, d: int, t: int, r: int): int
  {
    2 * a * t - 2 * d * r
  }

  /** How many rows a shallow line with run d and rise a has climbed after t columns: the
      rounding of a·t/d, halves rounded down. */
  function Rise(a: int, d: int, t: int): (r: int)
    requires 0 <= a <= d && 0 <= t <= d
    ensures 0 <= r <= a
    ensures d > 0 ==> -d < Slack(a, d, t, r) <= d
  {
    if d == 0 then 0
    else
      var n := 2 * a * t + d - 1;
      QuotientBounds(n, 2 * d, 2 * a * d + 2 * d, a + 1);
      RoundingSlack(a, d, t, n, n / (2 * d));
      n / (2 * d)
  }

  /** The row of a plan after climbing r rows towards its end. */
  function RowAt(plan: Plan, r: nat): nat
    requires r <= Abs(plan.to.y - plan.from.y)
  {
    if plan.to.y - plan.from.y > 0 then plan.from.y + r else plan.from.y - r
  }

  /** The cells the loop writes for a plan: one per column from the left endpoint to the right,
      each on the row nearest the ideal line. */
  function Scan(plan: Plan): (cells: seq<Point2D>)
    requires Shallow(plan)
    ensures plan.to.x < plan.from.x ==> cells == []
    ensures plan.to.x >= plan.from.x ==> |cells| == plan.to.x - plan.from.x + 1
  {
    var d := plan.to.x - plan.from.x;
    var a := Abs(plan.to.y - plan.from.y);
    if d < 0 then []
    else seq(d + 1, t requires 0 <= t <= d => Point2D(plan.from.x + t, RowAt(plan, Rise(a, d, t))))
  }

  /** The cells line writes, in order (as written, transposed when the line is steep). */
  function Trace(point1: Point2D, point2: Point2D): seq<Point2D>
  {
    Scan(PlanOf(point1, point2))
  }

  // ---------------------------------------------------------------------------
  // Arithmetic behind Rise
  // ---------------------------------------------------------------------------

  lemma MulMonotone(m: int, a: int, b: int)
    requires m >= 0 && a <= b
    ensures m * a <= m * b
  {
    var k := b - a;
    assert m * b == m * a + m * k;
  }

  /** The quotient of n ≥ 0 by m > 0 lies in [0, k) when n < hi <= m·k. */
  lemma QuotientBounds(n: int, m: int, hi: int, k: int)
    requires n >= 0 && m > 0 && n < hi && hi <= m * k
    ensures 0 <= n / m < k
    ensures m * (n / m) <= n < m * (n / m) + m
  {
    var q := n / m;
    assert m * q <= n;
    if q >= k {
      MulMonotone(m, k, q);
    }
  }

  /** Rounding 2at + d - 1 down to a multiple of 2d leaves the row within half a pixel. */
  lemma RoundingSlack(a: int, d: int, t: int, n: int, q: int)
    requires n == 2 * a * t + d - 1
    requires (2 * d) * q <= n < (2 * d) * q + 2 * d
    ensures -d < Slack(a, d, t, q) <= d
  {
  }

  /** A multiple of d > 0 strictly between -d and d is zero. */
  lemma UnitMultiple(d: int, k: int)
    requires d > 0 && -d < d * k < d
    ensures k == 0
  {
    if k >= 1 {
      MulMonotone(d, 1, k);
    } else if k <= -1 {
      MulMonotone(d, k, -1);
    }
  }

  /** Moving one column right adds 2a to the slack; climbing one row takes 2d from it. */
  lemma SlackStep(a: int, d: int, t: int, r: int)
    ensures Slack(a, d, t + 1, r) == Slack(a, d, t, r) + 2 * a
    ensures Slack(a, d, t + 1, r + 1) == Slack(a, d, t, r) + 2 * a - 2 * d
  {
  }

  lemma SlackRows(a: int, d: int, t: int, r: int, r0: int)
    ensures Slack(a, d, t, r0) - Slack(a, d, t, r) == 2 * (d * (r - r0))
  {
  }

  lemma SlackAtEnds(a: int, d: int)
    ensures Slack(a, d, 0, 0) == 0 && Slack(a, d, d, a) == 0
  {
  }

  /** The row Rise gives is the only one within half a pixel of the ideal line. */
  lemma RiseUnique(a: int, d: int, t: int, r: int)
    requires 0 <= a <= d && 0 <= t <= d && d > 0
    requires -d < Slack(a, d, t, r) <= d
    ensures r == Rise(a, d, t)
  {
    var r0 := Rise(a, d, t);
    SlackRows(a, d, t, r, r0);
    UnitMultiple(d, r - r0);
  }

  /** A line starts on its first row and ends on its last. */
  lemma RiseEnds(a: int, d: int)
    requires 0 <= a <= d
    ensures Rise(a, d, 0) == 0 && Rise(a, d, d) == a
  {
    if d > 0 {
      SlackAtEnds(a, d);
      RiseUnique(a, d, 0, 0);
      RiseUnique(a, d, d, a);
    }
  }

  /** One pass of the loop body: adding 2a to the slack and, when it exceeds d, climbing a row
      and subtracting 2d, moves from the row of column t to the row of column t + 1. */
  lemma RiseStep(a: int, d: int, t: int, r: int)
    requires 0 <= a <= d && 0 <= t < d
    requires r == Rise(a, d, t)
    ensures Slack(a, d, t, r) + 2 * a > d ==> r + 1 == Rise(a, d, t + 1)
    ensures Slack(a, d, t, r) + 2 * a <= d ==> r == Rise(a, d, t + 1)
  {
    SlackStep(a, d, t, r);
    if Slack(a, d, t, r) + 2 * a > d {
      RiseUnique(a, d, t + 1, r + 1);
    } else {
      RiseUnique(a, d, t + 1, r);
    }
  }

  // ---------------------------------------------------------------------------
  // line
  // ---------------------------------------------------------------------------

  /** Where the loop stands before column t: the error accumulator is the slack of row r,
      r is the row Rise gives while columns remain, and y is r rows from the first endpoint
      towards the second. */
  ghost predicate Scanning(plan: Plan, t: int, r: int, errorDouble: int, y: int)
    requires Shallow(plan)
  {
    var d := plan.to.x - plan.from.x;
    var a := Abs(plan.to.y - plan.from.y);
    && errorDouble == Slack(a, d, t, r)
    && (0 <= t <= d ==> r == Rise(a, d, t))
    && y == if plan.to.y - plan.from.y > 0 then plan.from.y + r else plan.from.y - r
  }

  /** The body's error update: add the doubled rise, and past the run step y towards the
      second endpoint and subtract the doubled run. It carries the loop from column t to t + 1. */
  method StepError(ghost plan: Plan, ghost t: int, ghost r: int,
                   swappedXDistance: int, swappedYDistance: int, errorDoubleDifference: int,
                   errorDouble: int, y: nat)
    returns (y': nat, errorDouble': int, ghost r': int)
    requires Shallow(plan)
    requires swappedXDistance == plan.to.x - plan.from.x && swappedYDistance == plan.to.y - plan.from.y
    requires errorDoubleDifference == Abs(swappedYDistance) * 2
    requires 0 <= t <= swappedXDistance && y >= 1
    requires Scanning(plan, t, r, errorDouble, y)
    ensures Scanning(plan, t + 1, r', errorDouble', y')
    ensures r' == r || r' == r + 1
  {
    ghost var a := Abs(swappedYDistance);
    SlackStep(a, swappedXDistance, t, r);
    if t < swappedXDistance {
      RiseStep(a, swappedXDistance, t, r);
    }
    y', errorDouble', r' := y, errorDouble + errorDoubleDifference, r;
    if errorDouble' > swappedXDistance {
      if swappedYDistance > 0 { y' := y' + 1; } else { y' := y' - 1; }
      errorDouble' := errorDouble' - swappedXDistance * 2;
      r' := r + 1;
    }
  }

  /** Writing one more cell of a sequence is one more update of the painted contents. */
  lemma PaintedExtend(data: seq<u32>, cells: seq<Point2D>, t: nat)
    requires |data| == PIXEL_COUNT && t < |cells|
    requires forall c :: c in cells[..t + 1] ==> Addressable(c)
    ensures forall c :: c in cells[..t] ==> Addressable(c)
    ensures Painted(data, cells[..t + 1]) == Painted(data, cells[..t])[Xy(cells[t]) := WHITE]
  {
    assert cells[..t + 1][..t] == cells[..t];
    assert cells[..t + 1][t] == cells[t];
  }

  /** Cell t of a scan: column from.x + t, on the row Rise gives. */
  lemma ScanCell(plan: Plan, t: int, r: int)
    requires Shallow(plan) && 0 <= t <= plan.to.x - plan.from.x
    requires r == Rise(Abs(plan.to.y - plan.from.y), plan.to.x - plan.from.x, t)
    ensures t < |Scan(plan)| && Scan(plan)[t] in Scan(plan)
    ensures Scan(plan)[t] == Point2D(plan.from.x + t, if plan.to.y - plan.from.y > 0 then plan.from.y + r else plan.from.y - r)
  {
  }

  /** The write of the loop body. The steep branch spells the point Point2D{y, x}, which names
      the fields and so is the same point as the other branch's Point2D{x, y}: both write the
      cell at column x, row y. */
  method Plot(x: nat, y: nat, steep: bool, buffer: Buffer)
    requires buffer.Valid() && Addressable(Point2D(x, y))
    modifies buffer.buffer
    ensures buffer.buffer[..] == old(buffer.buffer[..])[Xy(Point2D(x, y)) := WHITE]
  {
    if steep {
      buffer.buffer[Xy(Point2D(y := y, x := x))] := WHITE;
    } else {
      buffer.buffer[Xy(Point2D(x := x, y := y))] := WHITE;
    }
  }

  /** One pass of the loop: write the cell of column t, then update the error and the row. */
  method ScanColumn(ghost plan: Plan, ghost data: seq<u32>, ghost t: nat, ghost r: int,
                    x: nat, y: nat, steep: bool, swappedXDistance: int, swappedYDistance: int,
                    errorDoubleDifference: int, errorDouble: int, buffer: Buffer)
    returns (y': nat, errorDouble': int, ghost r': int)
    requires buffer.Valid() && Shallow(plan) && |data| == PIXEL_COUNT
    requires forall c :: c in Scan(plan) ==> Addressable(c)
    requires swappedXDistance == plan.to.x - plan.from.x && swappedYDistance == plan.to.y - plan.from.y
    requires errorDoubleDifference == Abs(swappedYDistance) * 2
    requires x == plan.from.x + t && t < |Scan(plan)|
    requires Scanning(plan, t, r, errorDouble, y)
    requires buffer.buffer[..] == Painted(data, Scan(plan)[..t])
    modifies buffer.buffer
    ensures Scanning(plan, t + 1, r', errorDouble', y')
    ensures buffer.buffer[..] == Painted(data, Scan(plan)[..t + 1])
  {
    ScanCell(plan, t, r);
    assert forall c :: c in Scan(plan)[..t + 1] ==> c in Scan(plan);
    PaintedExtend(data, Scan(plan), t);
    Plot(x, y, steep, buffer);
    y', errorDouble', r' := StepError(plan, t, r, swappedXDistance, swappedYDistance, errorDoubleDifference, errorDouble, y);
  }

  /** Before the first column the error is zero and y is on the first endpoint's row. */
  lemma ScanStart(plan: Plan)
    requires Shallow(plan)
    ensures Scanning(plan, 0, 0, 0, plan.from.y)
  {
    var d := plan.to.x - plan.from.x;
    var a := Abs(plan.to.y - plan.from.y);
    if d >= 0 {
      RiseEnds(a, d);
      SlackAtEnds(a, d);
    }
  }

  /** The loop of line once the endpoints are in place: one cell per column from p1.x to p2.x,
      the row following the error accumulator. */
  method ScanLine(p1: Point2D, p2: Point2D, steep: bool, buffer: Buffer)
    requires buffer.Valid() && Shallow(Plan(steep, p1, p2))
    requires forall c :: c in Scan(Plan(steep, p1, p2)) ==> Addressable(c)
    modifies buffer.buffer
    ensures buffer.buffer[..] == Painted(old(buffer.buffer[..]), Scan(Plan(steep, p1, p2)))
  {
    ghost var plan := Plan(steep, p1, p2);
    var swappedXDistance := XDistanceTo(p2, p1);
    var swappedYDistance := YDistanceTo(p2, p1);
    var errorDoubleDifference := Abs(swappedYDistance) * 2;
    ScanStart(plan);
    assert buffer.buffer[..] == Painted(buffer.buffer[..], Scan(plan)[..0]);
    ScanColumns(plan, buffer.buffer[..], p1.x, p2.x, p1.y, steep, swappedXDistance, swappedYDistance,
                errorDoubleDifference, buffer);
  }

  /** The for loop itself, over the columns x from p1.x to p2.x, with y and the doubled error
      starting at the first endpoint's row and zero. */
  method ScanColumns(ghost plan: Plan, ghost data: seq<u32>, start: nat, end: nat, y0: nat, steep: bool,
                     swappedXDistance: int, swappedYDistance: int, errorDoubleDifference: int,
                     buffer: Buffer)
    requires buffer.Valid() && Shallow(plan) && |data| == PIXEL_COUNT
    requires forall c :: c in Scan(plan) ==> Addressable(c)
    requires start == plan.from.x && end == plan.to.x
    requires swappedXDistance == plan.to.x - plan.from.x && swappedYDistance == plan.to.y - plan.from.y
    requires errorDoubleDifference == Abs(swappedYDistance) * 2
    requires Scanning(plan, 0, 0, 0, y0)
    requires buffer.buffer[..] == Painted(data, Scan(plan)[..0])
    modifies buffer.buffer
    ensures buffer.buffer[..] == Painted(data, Scan(plan))
  {
    ghost var cells := Scan(plan);
    var errorDouble := 0;
    var y := y0;
    ghost var r := 0;
    var x := start;
    ghost var t := 0;
    while x <= end
      invariant x == start + t && t <= |cells|
      invariant Scanning(plan, t, r, errorDouble, y)
      invariant buffer.buffer[..] == Painted(data, cells[..t])
      decreases |cells| - t
    {
      y, errorDouble, r := ScanColumn(plan, data, t, r, x, y, steep, swappedXDistance, swappedYDistance,
                                      errorDoubleDifference, errorDouble, buffer);
      x, t := x + 1, t + 1;
    }
    assert cells[..|cells|] == cells;
  }

  /** line: transpose a steep line, order the endpoints by the original dx, then scan; every
      cell of the trace gets WHITE through xy, in order, and nothing else changes. */
  method Line(point1: Point2D, point2: Point2D, buffer: Buffer)
    requires buffer.Valid()
    requires forall c :: c in Trace(point1, point2) ==> Addressable(c)
    modifies buffer.buffer
    ensures buffer.buffer[..] == Painted(old(buffer.buffer[..]), Trace(point1, point2))
  {
    var p1 := point1;
    var p2 := point2;
    var steep := false;
    var xDistance := XDistanceTo(p2, p1);
    var yDistance := YDistanceTo(p2, p1);
    if Abs(xDistance) < Abs(yDistance) {
      p1 := p1.(x := p1.y, y := p1.x);
      p2 := p2.(x := p2.y, y := p2.x);
      steep := true;
    }
    if xDistance < 0 {
      p1, p2 := p1.(x := p2.x), p2.(x := p1.x);
      p1, p2 := p1.(y := p2.y), p2.(y := p1.y);
    }
    assert Plan(steep, p1, p2) == PlanOf(point1, point2);
    ScanLine(p1, p2, steep, buffer);
  }

  // ---------------------------------------------------------------------------
  // What line draws
  // ---------------------------------------------------------------------------

  /** A line with |dx| >= |dy| writes |dx| + 1 cells, one per column from the left endpoint. */
  lemma NonSteepColumns(point1: Point2D, point2: Point2D)
    requires Abs(XDistanceTo(point2, point1)) >= Abs(YDistanceTo(point2, point1))
    ensures |Trace(point1, point2)| == Abs(XDistanceTo(point2, point1)) + 1
    ensures forall i :: 0 <= i < |Trace(point1, point2)| ==>
      Trace(point1, point2)[i].x == Min(point1.x, point2.x) + i
  {
  }

  /** The first cell is the left endpoint of the plan and the last is its right endpoint. */
  lemma TraceEnds(point1: Point2D, point2: Point2D)
    ensures var plan := PlanOf(point1, point2);
      Trace(point1, point2) != [] ==>
        Trace(point1, point2)[0] == plan.from && Trace(point1, point2)[|Trace(point1, point2)| - 1] == plan.to
  {
    var plan := PlanOf(point1, point2);
    var d := plan.to.x - plan.from.x;
    var a := Abs(plan.to.y - plan.from.y);
    if d >= 0 {
      RiseEnds(a, d);
    }
  }

  /** From one cell to the next, x advances by one and y moves at most one row, always towards
      the plan's right endpoint. */
  lemma TraceSteps(point1: Point2D, point2: Point2D, i: nat)
    requires i + 1 < |Trace(point1, point2)|
    ensures var plan := PlanOf(point1, point2);
      var c := Trace(point1, point2)[i];
      var n := Trace(point1, point2)[i + 1];
      n.x == c.x + 1 &&
      (n.y == c.y || (plan.to.y > plan.from.y && n.y == c.y + 1) || (plan.to.y < plan.from.y && n.y + 1 == c.y))
  {
    var plan := PlanOf(point1, point2);
    var d := plan.to.x - plan.from.x;
    var a := Abs(plan.to.y - plan.from.y);
    RiseStep(a, d, i, Rise(a, d, i));
  }

  /** Equal endpoints write exactly that one cell. */
  lemma SinglePoint(point: Point2D)
    ensures Trace(point, point) == [point]
  {
    assert Rise(0, 0, 0) == 0;
  }

  /** Because the swap tests the dx from before the transposition, a steep line is drawn only
      when dx and dy agree in sign (dx = 0 counting as non-negative); otherwise the column
      range is empty and nothing is written. */
  lemma SteepEmpty(point1: Point2D, point2: Point2D)
    requires PlanOf(point1, point2).steep
    ensures var xd := XDistanceTo(point2, point1);
      var yd := YDistanceTo(point2, point1);
      Trace(point1, point2) == [] <==> (xd < 0 && yd > 0) || (xd >= 0 && yd < 0)
  {
  }

  /** A drawn line starts and ends at its two endpoints; for a steep line those are the
      endpoints with x and y exchanged, since both branches of the loop write Point2D{x, y}. */
  lemma EndpointsDrawn(point1: Point2D, point2: Point2D)
    requires Trace(point1, point2) != []
    ensures var cells := Trace(point1, point2);
      var ends := {cells[0], cells[|cells| - 1]};
      if PlanOf(point1, point2).steep then ends == {Transpose(point1), Transpose(point2)}
      else ends == {point1, point2}
  {
    TraceEnds(point1, point2);
  }

  /** Two steep lines as written: one with dx < 0 < dy writes nothing, and one with both
      positive ends on its second endpoint mirrored, (5, 2) instead of (2, 5). */
  lemma SteepMisdrawn()
    ensures Trace(Point2D(2, 1), Point2D(1, 5)) == []
    ensures |Trace(Point2D(1, 1), Point2D(2, 5))| == 5
    ensures Trace(Point2D(1, 1), Point2D(2, 5))[4] == Point2D(5, 2)
    ensures Point2D(2, 5) !in Trace(Point2D(1, 1), Point2D(2, 5))
  {
    assert PlanOf(Point2D(2, 1), Point2D(1, 5)) == Plan(true, Point2D(5, 1), Point2D(1, 2));
    var plan := Plan(true, Point2D(1, 1), Point2D(5, 2));
    assert PlanOf(Point2D(1, 1), Point2D(2, 5)) == plan;
    TraceEnds(Point2D(1, 1), Point2D(2, 5));
    ScanRows(plan);
  }

  /** Every cell of a scan lies on a row between the rows of the plan's endpoints. */
  lemma ScanRows(plan: Plan)
    requires Shallow(plan)
    ensures forall c :: c in Scan(plan) ==> Min(plan.from.y, plan.to.y) <= c.y <= Max(plan.from.y, plan.to.y)
  {
    var d := plan.to.x - plan.from.x;
    var a := Abs(plan.to.y - plan.from.y);
    forall c | c in Scan(plan)
      ensures Min(plan.from.y, plan.to.y) <= c.y <= Max(plan.from.y, plan.to.y)
    {
      var t :| 0 <= t < |Scan(plan)| && Scan(plan)[t] == c;
      assert Rise(a, d, t) <= a;
    }
  }

  /** Endpoints in the grid keep every written cell in the grid, so xy never panics. */
  lemma GridSuffices(point1: Point2D, point2: Point2D)
    requires InGrid(point1) && InGrid(point2)
    ensures forall c :: c in Trace(point1, point2) ==> InGrid(c) && Addressable(c)
  {
    var plan := PlanOf(point1, point2);
    assert InGrid(plan.from) && InGrid(plan.to);
    var d := plan.to.x - plan.from.x;
    var a := Abs(plan.to.y - plan.from.y);
    forall c | c in Trace(point1, point2)
      ensures InGrid(c) && Addressable(c)
    {
      var t :| 0 <= t < |Trace(point1, point2)| && Trace(point1, point2)[t] == c;
      assert Rise(a, d, t) <= a;
      assert (c.y - 1) * WIDTH <= (HEIGHT - 1) * WIDTH;
    }
  }

  // ---------------------------------------------------------------------------
  // The line the comments describe
  // ---------------------------------------------------------------------------

  /** The plan line evidently intends: after transposing, order the endpoints by the dx of the
      transposed points. */
  function PlanCorrected(point1: Point2D, point2: Point2D): (plan: Plan)
    ensures plan.steep <==> Abs(XDistanceTo(point2, point1)) < Abs(YDistanceTo(point2, point1))
    ensures plan.from.x <= plan.to.x && Shallow(plan)
    ensures {plan.from, plan.to} == if plan.steep then {Transpose(point1), Transpose(point2)} else {point1, point2}
  {
    var steep := Abs(XDistanceTo(point2, point1)) < Abs(YDistanceTo(point2, point1));
    var p1 := if steep then Transpose(point1) else point1;
    var p2 := if steep then Transpose(point2) else point2;
    if p2.x < p1.x then Plan(steep, p2, p1) else Plan(steep, p1, p2)
  }

  /** The cells line evidently intends to write: the corrected plan's scan, transposed back
      when the line is steep. */
  function TraceCorrected(point1: Point2D, point2: Point2D): (cells: seq<Point2D>)
  {
    var plan := PlanCorrected(point1, point2);
    var scan := Scan(plan);
    if plan.steep then seq(|scan|, i requires 0 <= i < |scan| => Transpose(scan[i])) else scan
  }

  /** Every corrected line, steep or not, writes one cell per step of its longer axis, starting
      and ending at its two endpoints as given. */
  lemma CorrectedEndpoints(point1: Point2D, point2: Point2D)
    ensures var cells := TraceCorrected(point1, point2);
      && |cells| == Max(Abs(XDistanceTo(point2, point1)), Abs(YDistanceTo(point2, point1))) + 1
      && {cells[0], cells[|cells| - 1]} == {point1, point2}
  {
    var plan := PlanCorrected(point1, point2);
    var d := plan.to.x - plan.from.x;
    var a := Abs(plan.to.y - plan.from.y);
    RiseEnds(a, d);
    var scan := Scan(plan);
    assert scan[0] == plan.from && scan[|scan| - 1] == plan.to;
  }
}
