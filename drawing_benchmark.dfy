/** The benchmark's copy of the line demo. Its line is the same algorithm; what differs is the
    buffer lookup, which answers None for points that fail a containment test and otherwise
    indexes the array, the drawing unwrapping that answer. */
module DrawingBenchmark {
  import opened Space
  import opened LineDemo

  // ---------------------------------------------------------------------------
  // u16 arithmetic of is_nonzero
  // ---------------------------------------------------------------------------

  /** Bitwise or of two naturals, one binary digit at a time. */
  function BitOr(a: nat, b: nat): (r: nat)
    ensures a <= r <= a + b && b <= r
    ensures r == 0 <==> a == 0 && b == 0
    decreases a + b
  {
    if a == 0 then b
    else if b == 0 then a
    else 2 * BitOr(a / 2, b / 2) + (if a % 2 == 1 || b % 2 == 1 then 1 else 0)
  }

  /** The `as u16` cast of a usize: its low sixteen bits. */
  function AsU16(n: nat): (r: nat)
    ensures r < 0x1_0000 && (n - r) % 0x1_0000 == 0
  {
    n % 0x1_0000
  }

  /** A u16 shifted left by eight, the high bits falling off. */
  function Shl8(v: nat): nat
  {
    (v * 256) % 0x1_0000
  }

  /** Shifting the cast left by eight keeps only the low byte of x, moved up. */
  lemma ShiftedLowByte(x: nat)
    ensures Shl8(AsU16(x)) == 0 <==> x % 256 == 0
  {
    var low, q := x % 256, x / 256;
    var mid, top := q % 256, q / 256;
    assert x == 0x1_0000 * top + (256 * mid + low);
    ModUnique(x, 0x1_0000, top, 256 * mid + low);
    assert AsU16(x) * 256 == 0x1_0000 * mid + 256 * low;
    ModUnique(AsU16(x) * 256, 0x1_0000, mid, 256 * low);
  }

  /** The quotient and remainder are the only ones: division as Dafny defines it. */
  lemma ModUnique(n: int, m: int, k: int, r: int)
    requires m > 0 && n == m * k + r && 0 <= r < m
    ensures n % m == r
  {
    var k', r' := n / m, n % m;
    assert n == m * k' + r';
    assert m * (k - k') == m * k - m * k';
    UnitMultiple(m, k - k');
  }

  /** Point2D::is_nonzero: `(x as u16) << 8 | y as u16 != 0`, true exactly when the low byte of
      x or the low sixteen bits of y are not all zero. */
  function IsNonzero(point: Point2D): (r: bool)
    ensures r <==> point.x % 256 != 0 || point.y % 0x1_0000 != 0
  {
    ShiftedLowByte(point.x);
    BitOr(Shl8(AsU16(point.x)), AsU16(point.y)) != 0
  }

  /** Point2D::is_contained: is_nonzero and both coordinates at most 240. It admits a zero
      coordinate as long as the other is not zero. */
  function IsContained(point: Point2D): (r: bool)
    ensures r <==> (point.x != 0 || point.y != 0) && point.x <= WIDTH && point.y <= HEIGHT
  {
    if point.x <= WIDTH && point.y <= HEIGHT then
      SmallRemainder(point.x, 256);
      SmallRemainder(point.y, 0x1_0000);
      IsNonzero(point)
    else
      false
  }

  lemma SmallRemainder(n: nat, m: nat)
    requires n < m
    ensures n % m == n
  {
  }

  // ---------------------------------------------------------------------------
  // Buffer::xy returning an Option
  // ---------------------------------------------------------------------------

  /** What the lookup gives: None, a panic of the index arithmetic, or an element. */
  datatype Lookup = Absent | Underflow | Found(index: nat)

  /** Buffer::xy: None for a point that is not contained; otherwise (y - 1) * 240 + x - 1,
      which underflows usize for y = 0 and for (0, 1). */
  function Xy(point: Point2D): (r: Lookup)
    ensures r.Absent? <==> !IsContained(point)
    ensures r.Underflow? <==> IsContained(point) && (point.y == 0 || (point.x == 0 && point.y == 1))
    ensures r.Found? ==> Addressable(point) && r.index == LineDemo.Xy(point)
  {
    if !IsContained(point) then Absent
    else if point.y == 0 || (point.y - 1) * WIDTH + point.x == 0 then Underflow
    else Found((point.y - 1) * WIDTH + point.x - 1)
  }

  /** On the grid the lookup finds the same element as the demo's xy. */
  lemma XyOnGrid(point: Point2D)
    requires InGrid(point)
    ensures Addressable(point) && Xy(point) == Found(LineDemo.Xy(point))
  {
  }

  /** As written, the containment test lets column 0 and row 0 through: (0, y) reaches the
      last element of row y - 1, and (x, 0) underflows. */
  lemma ContainedEdges()
    ensures IsContained(Point2D(0, 5)) && IsContained(Point2D(5, 0))
    ensures Xy(Point2D(0, 5)) == Xy(Point2D(240, 4)) && Xy(Point2D(0, 5)).Found?
    ensures Xy(Point2D(5, 0)) == Underflow && Xy(Point2D(0, 1)) == Underflow
  {
    assert IsNonzero(Point2D(0, 5)) && IsNonzero(Point2D(5, 0)) && IsNonzero(Point2D(0, 1));
    assert IsNonzero(Point2D(240, 4));
  }

  /** Every point of column 0 below the first row aliases the last cell of the row above. */
  lemma ColumnZeroAliases(y: nat)
    requires 2 <= y <= HEIGHT
    ensures Xy(Point2D(0, y)).Found? && Xy(Point2D(0, y)) == Xy(Point2D(WIDTH, y - 1))
  {
    assert IsContained(Point2D(0, y)) && IsContained(Point2D(WIDTH, y - 1));
  }

  /** The lookup the containment test evidently means: the 1-based grid and nothing else. */
  function XyChecked(point: Point2D): (r: Lookup)
    ensures !r.Underflow?
    ensures r.Found? <==> InGrid(point)
    ensures r.Found? ==> r.index < PIXEL_COUNT
  {
    if InGrid(point) then Found((point.y - 1) * WIDTH + point.x - 1) else Absent
  }

  /** The checked lookup never aliases: distinct points find distinct elements, and it agrees
      with the lookup as written wherever it finds one. */
  lemma XyCheckedInjective(p: Point2D, q: Point2D)
    requires XyChecked(p).Found? && XyChecked(q).Found?
    ensures XyChecked(p) == XyChecked(q) ==> p == q
    ensures Xy(p) == XyChecked(p)
  {
    XyBijective(p, q, 0);
    XyOnGrid(p);
  }

  // ---------------------------------------------------------------------------
  // line with unwrap
  // ---------------------------------------------------------------------------

  /** How a call of line ends: having drawn every cell, or panicking at a cell's lookup. */
  datatype Outcome = Completed | Panicked(at: Point2D)

  /** The number of leading cells whose lookup finds an element. */
  function FoundPrefix(cells: seq<Point2D>): (k: nat)
    ensures k <= |cells|
    ensures forall c :: c in cells[..k] ==> Addressable(c)
    decreases |cells|
  {
    if cells == [] || !Xy(cells[0]).Found? then 0
    else
      var k := 1 + FoundPrefix(cells[1..]);
      assert forall c :: c in cells[..k] ==> c == cells[0] || c in cells[1..][..k - 1];
      k
  }

  /** Within the prefix every lookup finds an element; the cell just after it is the first
      that does not. */
  lemma {:induction false} FoundPrefixAt(cells: seq<Point2D>, i: nat)
    requires i < |cells| && i <= FoundPrefix(cells)
    ensures Xy(cells[i]).Found? <==> i < FoundPrefix(cells)
    decreases i
  {
    if i > 0 {
      assert cells[1..][i - 1] == cells[i];
      FoundPrefixAt(cells[1..], i - 1);
    }
  }

  /** One pass of the loop: look the cell up, and on success write it and update the error
      and the row; on failure the unwrap panics with nothing written. */
  method BenchColumn(ghost plan: Plan, ghost data: seq<u32>, ghost t: nat, ghost r: int,
                     x: nat, y: nat, steep: bool, swappedXDistance: int, swappedYDistance: int,
                     errorDoubleDifference: int, errorDouble: int, buffer: Buffer)
    returns (ok: bool, y': nat, errorDouble': int, ghost r': int)
    requires buffer.Valid() && Shallow(plan) && |data| == PIXEL_COUNT
    requires swappedXDistance == plan.to.x - plan.from.x && swappedYDistance == plan.to.y - plan.from.y
    requires errorDoubleDifference == Abs(swappedYDistance) * 2
    requires x == plan.from.x + t && t < |Scan(plan)| && t <= FoundPrefix(Scan(plan))
    requires Scanning(plan, t, r, errorDouble, y)
    requires buffer.buffer[..] == Painted(data, Scan(plan)[..t])
    modifies buffer.buffer
    ensures ok <==> t < FoundPrefix(Scan(plan))
    ensures !ok ==> t == FoundPrefix(Scan(plan)) && Scan(plan)[t] == Point2D(x, y)
    ensures !ok ==> y' == y && buffer.buffer[..] == old(buffer.buffer[..])
    ensures ok ==> Scanning(plan, t + 1, r', errorDouble', y')
    ensures ok ==> buffer.buffer[..] == Painted(data, Scan(plan)[..t + 1])
  {
    ScanCell(plan, t, r);
    FoundPrefixAt(Scan(plan), t);
    var lookup := if steep then Xy(Point2D(y := y, x := x)) else Xy(Point2D(x := x, y := y));
    if !lookup.Found? {
      return false, y, errorDouble, r;
    }
    assert forall c :: c in Scan(plan)[..t + 1] ==> c in Scan(plan)[..FoundPrefix(Scan(plan))];
    PaintedExtend(data, Scan(plan), t);
    buffer.buffer[lookup.index] := WHITE;
    ok := true;
    y', errorDouble', r' := StepError(plan, t, r, swappedXDistance, swappedYDistance, errorDoubleDifference, errorDouble, y);
  }

  /** The loop of the benchmark's line once the endpoints are in place. */
  method BenchScan(p1: Point2D, p2: Point2D, steep: bool, buffer: Buffer) returns (outcome: Outcome)
    requires buffer.Valid() && Shallow(Plan(steep, p1, p2))
    modifies buffer.buffer
    ensures var cells := Scan(Plan(steep, p1, p2));
      && (outcome == Completed <==> FoundPrefix(cells) == |cells|)
      && (outcome.Panicked? ==> outcome.at == cells[FoundPrefix(cells)])
      && buffer.buffer[..] == Painted(old(buffer.buffer[..]), cells[..FoundPrefix(cells)])
  {
    ghost var plan := Plan(steep, p1, p2);
    ghost var data := buffer.buffer[..];
    var swappedXDistance := XDistanceTo(p2, p1);
    var swappedYDistance := YDistanceTo(p2, p1);
    var errorDoubleDifference := Abs(swappedYDistance) * 2;
    var errorDouble := 0;
    var y := p1.y;
    ghost var r := 0;
    if swappedXDistance >= 0 {
      RiseEnds(Abs(swappedYDistance), swappedXDistance);
      SlackAtEnds(Abs(swappedYDistance), swappedXDistance);
    }
    var x := p1.x;
    ghost var t := 0;
    while x <= p2.x
      invariant x == p1.x + t && t <= FoundPrefix(Scan(plan))
      invariant Scanning(plan, t, r, errorDouble, y)
      invariant buffer.buffer[..] == Painted(data, Scan(plan)[..t])
      decreases |Scan(plan)| - t
    {
      var ok;
      ok, y, errorDouble, r := BenchColumn(plan, data, t, r, x, y, steep, swappedXDistance, swappedYDistance,
                                           errorDoubleDifference, errorDouble, buffer);
      if !ok {
        outcome := Panicked(Point2D(x, y));
        assert outcome.at == Scan(plan)[FoundPrefix(Scan(plan))];
        return;
      }
      x, t := x + 1, t + 1;
    }
    assert t == |Scan(plan)| == FoundPrefix(Scan(plan));
    outcome := Completed;
  }

  /** The benchmark's line: the demo's orientation and scan, each cell looked up and unwrapped.
      It draws the trace up to the first cell the lookup does not find, and panics there. */
  method BenchLine(point1: Point2D, point2: Point2D, buffer: Buffer) returns (outcome: Outcome)
    requires buffer.Valid()
    modifies buffer.buffer
    ensures var cells := Trace(point1, point2);
      && (outcome == Completed <==> FoundPrefix(cells) == |cells|)
      && (outcome.Panicked? ==> outcome.at == cells[FoundPrefix(cells)])
      && buffer.buffer[..] == Painted(old(buffer.buffer[..]), cells[..FoundPrefix(cells)])
  {
    var p1 := point1;
    var p2 := point2;
    var steep := false;
    var xDistance := XDistanceTo(p2, p1);
    var yDistance := YDistanceTo(p2, p1);
    if Abs(xDistance) < Abs(yDistance) {
      p1 := p1.(x := p1.y, y := p1.x);
      p2 := p2.(x := p2.y, y := p2.x);
      steep := true;
    }
    if xDistance < 0 {
      p1, p2 := p1.(x := p2.x), p2.(x := p1.x);
      p1, p2 := p1.(y := p2.y), p2.(y := p1.y);
    }
    assert Plan(steep, p1, p2) == PlanOf(point1, point2);
    outcome := BenchScan(p1, p2, steep, buffer);
  }

  /** Endpoints on the grid never panic: every cell of the trace is found, so the benchmark
      draws exactly what the demo's line draws. */
  lemma GridNeverPanics(point1: Point2D, point2: Point2D)
    requires InGrid(point1) && InGrid(point2)
    ensures FoundPrefix(Trace(point1, point2)) == |Trace(point1, point2)|
    ensures Trace(point1, point2)[..FoundPrefix(Trace(point1, point2))] == Trace(point1, point2)
  {
    var cells := Trace(point1, point2);
    GridSuffices(point1, point2);
    var k := FoundPrefix(cells);
    if k < |cells| {
      assert cells[k] in cells;
      XyOnGrid(cells[k]);
      FoundPrefixAt(cells, k);
    }
  }
}
