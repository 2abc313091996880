/** The frame buffer rasteriser: a borrowed row-major slice of packed pixels with its
    width and height, Cohen-Sutherland clipping of a segment against the rectangle
    [0, width] x [0, height], and integer error-accumulator Bresenham stepping
    through a bounds-guarded pixel write. */
module Frame {
  import opened Space
  import opened RealArith

  type u32 = n: int | 0 <= n < 0x1_0000_0000

  // Region bits of a Cohen-Sutherland outcode. TOP is "y above height", BOTTOM "y below 0".
  const INSIDE: bv8 := 0x0
  const LEFT: bv8 := 0x1
  const RIGHT: bv8 := 0x2
  const BOTTOM: bv8 := 0x4
  const TOP: bv8 := 0x8

  // ---------------------------------------------------------------------------
  // Outcodes
  // ---------------------------------------------------------------------------

  /** The outcode of (x, y) against [0, width] x [0, height]. */
  function ComputeOutcode(width: u32, height: u32, x: real, y: real): (code: bv8)
    ensures (code & LEFT != 0) <==> x < 0.0
    ensures (code & RIGHT != 0) <==> x > width as real
    ensures (code & BOTTOM != 0) <==> y < 0.0
    ensures (code & TOP != 0) <==> y > height as real
    ensures code & (LEFT | RIGHT) != LEFT | RIGHT
    ensures code & (BOTTOM | TOP) != BOTTOM | TOP
    ensures code & 0xF0 == 0
    ensures code == INSIDE <==> 0.0 <= x <= width as real && 0.0 <= y <= height as real
  {
    var horizontal := if x < 0.0 then LEFT else if x > width as real then RIGHT else INSIDE;
    var vertical := if y < 0.0 then BOTTOM else if y > height as real then TOP else INSIDE;
    horizontal | vertical
  }

  function Outcode(width: u32, height: u32, p: ScreenPoint): bv8
  {
    ComputeOutcode(width, height, p.x, p.y)
  }

  /** How many of the four region bits are set. */
  function BitCount(code: bv8): (n: nat)
    ensures n <= 4
    ensures n == 0 <==> code & (LEFT | RIGHT | BOTTOM | TOP) == 0
  {
    (if code & LEFT != 0 then 1 else 0) + (if code & RIGHT != 0 then 1 else 0) +
    (if code & BOTTOM != 0 then 1 else 0) + (if code & TOP != 0 then 1 else 0)
  }

  // ---------------------------------------------------------------------------
  // Clipping
  // ---------------------------------------------------------------------------

  datatype Segment = Segment(p1: ScreenPoint, p2: ScreenPoint)

  datatype ClipResult = ClipResult(accepted: bool, p1: ScreenPoint, p2: ScreenPoint)

  /** The clipping loop goes on: neither trivially accepted nor trivially rejected. */
  predicate Pending(code1: bv8, code2: bv8)
  {
    code1 | code2 != 0 && code1 & code2 == 0
  }

  /** The boundary clip_line resolves for an outside outcode, in the order it tests the bits. */
  function ChosenBit(outcodeOut: bv8): bv8
  {
    if outcodeOut & TOP != 0 then TOP
    else if outcodeOut & BOTTOM != 0 then BOTTOM
    else if outcodeOut & RIGHT != 0 then RIGHT
    else LEFT
  }

  /** The endpoint lies in the closed half-plane of the boundary named by bit. */
  predicate InHalfPlane(width: u32, height: u32, p: ScreenPoint, bit: bv8)
  {
    if bit == TOP then p.y <= height as real
    else if bit == BOTTOM then 0.0 <= p.y
    else if bit == RIGHT then p.x <= width as real
    else 0.0 <= p.x
  }

  /** The endpoint lies on the boundary line named by bit. */
  predicate OnBoundary(width: u32, height: u32, p: ScreenPoint, bit: bv8)
  {
    if bit == TOP then p.y == height as real
    else if bit == BOTTOM then p.y == 0.0
    else if bit == RIGHT then p.x == width as real
    else p.x == 0.0
  }

  /** The x where the line through p1 and p2 meets the horizontal line y == target
      (the formula of clip_line's TOP and BOTTOM branches). */
  function CrossX(p1: ScreenPoint, p2: ScreenPoint, target: real): (x: real)
    requires p2.y != p1.y
    ensures (x - p1.x) * (p2.y - p1.y) == (p2.x - p1.x) * (target - p1.y)
  {
    DivMul((p2.x - p1.x) * (target - p1.y), p2.y - p1.y);
    p1.x + (p2.x - p1.x) * (target - p1.y) / (p2.y - p1.y)
  }

  /** The y where the line through p1 and p2 meets the vertical line x == target
      (the formula of clip_line's RIGHT and LEFT branches). */
  function CrossY(p1: ScreenPoint, p2: ScreenPoint, target: real): (y: real)
    requires p2.x != p1.x
    ensures (y - p1.y) * (p2.x - p1.x) == (p2.y - p1.y) * (target - p1.x)
  {
    DivMul((p2.y - p1.y) * (target - p1.x), p2.x - p1.x);
    p1.y + (p2.y - p1.y) * (target - p1.x) / (p2.x - p1.x)
  }

  /** Where the line through p1 and p2 meets the boundary named by bit, by the source's formulas. */
  function Intersection(width: u32, height: u32, p1: ScreenPoint, p2: ScreenPoint, bit: bv8): (q: ScreenPoint)
    requires bit == TOP || bit == BOTTOM ==> p2.y != p1.y
    requires bit != TOP && bit != BOTTOM ==> p2.x != p1.x
    ensures OnBoundary(width, height, q, bit)
    ensures (q.x - p1.x) * (p2.y - p1.y) == (p2.x - p1.x) * (q.y - p1.y)
  {
    if bit == TOP then ScreenPoint(CrossX(p1, p2, height as real), height as real)
    else if bit == BOTTOM then ScreenPoint(CrossX(p1, p2, 0.0), 0.0)
    else if bit == RIGHT then ScreenPoint(width as real, CrossY(p1, p2, width as real))
    else ScreenPoint(0.0, CrossY(p1, p2, 0.0))
  }

  /** The inner segment is the part of the outer one between parameters t1 <= t2. */
  ghost predicate SubSegment(inner: Segment, outer: Segment)
  {
    exists t1: real, t2: real ::
      0.0 <= t1 <= t2 <= 1.0 &&
      inner.p1 == Lerp(outer.p1, outer.p2, t1) && inner.p2 == Lerp(outer.p1, outer.p2, t2)
  }

  predicate Between(v: real, a: real, b: real)
  {
    (a <= v <= b) || (b <= v <= a)
  }

  lemma ScaleWithinUnit(t: real, d: real)
    requires 0.0 <= t <= 1.0
    ensures d >= 0.0 ==> 0.0 <= t * d <= d
    ensures d <= 0.0 ==> d <= t * d <= 0.0
  {
    if d >= 0.0 {
      MulNonneg(t, d);
      MulNonneg(1.0 - t, d);
      MulDistrib(d, 1.0, t);
    } else {
      MulNonneg(t, -d);
      MulNonneg(1.0 - t, -d);
      MulDistrib(-d, 1.0, t);
    }
  }

  lemma ScalarBetween(a: real, b: real, t: real)
    requires 0.0 <= t <= 1.0
    ensures Between(a + t * (b - a), a, b)
  {
    var d := b - a;
    ScaleWithinUnit(t, d);
    var m := t * d;
    if d >= 0.0 {
      assert 0.0 <= m <= d;
      assert a <= a + m <= b;
    } else {
      assert d <= m <= 0.0;
      assert b <= a + m <= a;
    }
  }

  lemma LerpBetween(a: ScreenPoint, b: ScreenPoint, t: real)
    requires 0.0 <= t <= 1.0
    ensures Between(Lerp(a, b, t).x, a.x, b.x) && Between(Lerp(a, b, t).y, a.y, b.y)
  {
    ScalarBetween(a.x, b.x, t);
    ScalarBetween(a.y, b.y, t);
  }

  /** Solving a + s * (b - a) == target for s, with target between a and b. */
  lemma BoundaryParameter(a: real, b: real, target: real) returns (s: real)
    requires a != b && Between(target, a, b)
    ensures s == (target - a) / (b - a)
    ensures 0.0 <= s <= 1.0
    ensures a + s * (b - a) == target
  {
    s := (target - a) / (b - a);
    DivMul(target - a, b - a);
    DivWithinUnit(target - a, b - a);
  }

  /** Interpolating between the points at parameters u1 and u2 of a coordinate running from
      c to e is interpolating at u1 + t * (u2 - u1). */
  lemma ScalarComposition(c: real, e: real, u1: real, u2: real, t: real)
    ensures (c + u1 * (e - c)) + t * ((c + u2 * (e - c)) - (c + u1 * (e - c))) ==
            c + (u1 + t * (u2 - u1)) * (e - c)
  {
    var w := e - c;
    assert (c + u2 * w) - (c + u1 * w) == (u2 - u1) * w;
    MulAssoc(t, u2 - u1, w);
  }

  lemma PointComposition(a: ScreenPoint, b: ScreenPoint, u1: real, u2: real, t: real)
    ensures Lerp(Lerp(a, b, u1), Lerp(a, b, u2), t) == Lerp(a, b, u1 + t * (u2 - u1))
  {
    ComposeX(a, b, u1, u2, t);
    ComposeY(a, b, u1, u2, t);
  }

  lemma ComposeX(a: ScreenPoint, b: ScreenPoint, u1: real, u2: real, t: real)
    ensures Lerp(Lerp(a, b, u1), Lerp(a, b, u2), t).x == Lerp(a, b, u1 + t * (u2 - u1)).x
  {
    ScalarComposition(a.x, b.x, u1, u2, t);
  }

  lemma ComposeY(a: ScreenPoint, b: ScreenPoint, u1: real, u2: real, t: real)
    ensures Lerp(Lerp(a, b, u1), Lerp(a, b, u2), t).y == Lerp(a, b, u1 + t * (u2 - u1)).y
  {
    ScalarComposition(a.y, b.y, u1, u2, t);
  }

  /** The point at parameter t of the sub-segment between parameters u1 and u2 is the point
      at parameter u1 + t * (u2 - u1) of the whole, which lies between u1 and u2. */
  lemma LerpComposition(a: ScreenPoint, b: ScreenPoint, u1: real, u2: real, t: real) returns (v: real)
    requires 0.0 <= u1 <= u2 <= 1.0 && 0.0 <= t <= 1.0
    ensures u1 <= v <= u2 && v == u1 + t * (u2 - u1)
    ensures Lerp(Lerp(a, b, u1), Lerp(a, b, u2), t) == Lerp(a, b, v)
  {
    v := u1 + t * (u2 - u1);
    ScaleWithinUnit(t, u2 - u1);
    PointComposition(a, b, u1, u2, t);
  }

  /** Parameters t1 <= t2 of a sub-segment between u1 and u2 are parameters v1 <= v2 of the whole. */
  lemma ComposeParameters(a: ScreenPoint, b: ScreenPoint, u1: real, u2: real, t1: real, t2: real)
      returns (v1: real, v2: real)
    requires 0.0 <= u1 <= u2 <= 1.0 && 0.0 <= t1 <= t2 <= 1.0
    ensures 0.0 <= v1 <= v2 <= 1.0
    ensures Lerp(Lerp(a, b, u1), Lerp(a, b, u2), t1) == Lerp(a, b, v1)
    ensures Lerp(Lerp(a, b, u1), Lerp(a, b, u2), t2) == Lerp(a, b, v2)
  {
    v1 := LerpComposition(a, b, u1, u2, t1);
    v2 := LerpComposition(a, b, u1, u2, t2);
    MulMonotone(t1, t2, u2 - u1);
  }

  /** A sub-segment of a sub-segment is a sub-segment. */
  lemma SubSegmentTransitive(a: Segment, b: Segment, c: Segment)
    requires SubSegment(a, b) && SubSegment(b, c)
    ensures SubSegment(a, c)
  {
    var t1, t2 :| 0.0 <= t1 <= t2 <= 1.0 && a.p1 == Lerp(b.p1, b.p2, t1) && a.p2 == Lerp(b.p1, b.p2, t2);
    var u1, u2 :| 0.0 <= u1 <= u2 <= 1.0 && b.p1 == Lerp(c.p1, c.p2, u1) && b.p2 == Lerp(c.p1, c.p2, u2);
    var v1, v2 := ComposeParameters(c.p1, c.p2, u1, u2, t1, t2);
    assert a.p1 == Lerp(c.p1, c.p2, v1) && a.p2 == Lerp(c.p1, c.p2, v2);
  }

  lemma SubSegmentReflexive(s: Segment)
    ensures SubSegment(s, s)
  {
    assert s.p1 == Lerp(s.p1, s.p2, 0.0);
    assert s.p2 == Lerp(s.p1, s.p2, 1.0);
  }

  /** Bit facts of one clipping step, on the two outcodes alone: the chosen bit is one of
      the four region bits, the outside endpoint carries it and the other one does not. */
  lemma ChosenBitFacts(o1: bv8, o2: bv8)
    requires o1 & 0xF0 == 0 && o2 & 0xF0 == 0
    requires Pending(o1, o2)
    ensures var bit := ChosenBit(if o1 != 0 then o1 else o2);
      && (bit == TOP || bit == BOTTOM || bit == RIGHT || bit == LEFT)
      && (if o1 != 0 then o1 else o2) & bit != 0
      && (if o1 != 0 then o2 else o1) & bit == 0
  {
  }

  /** Replacing the outside endpoint leaves fewer region bits set in the union of the outcodes:
      no new bit appears and the chosen one disappears. */
  lemma BitCountShrinks(n: bv8, o: bv8, bit: bv8)
    requires bit == TOP || bit == BOTTOM || bit == RIGHT || bit == LEFT
    requires o & bit != 0 && n & bit == 0
    requires n & LEFT != 0 ==> o & LEFT != 0
    requires n & RIGHT != 0 ==> o & RIGHT != 0
    requires n & BOTTOM != 0 ==> o & BOTTOM != 0
    requires n & TOP != 0 ==> o & TOP != 0
    ensures BitCount(n) < BitCount(o)
  {
  }

  /** The outside endpoint violates the chosen boundary's half-plane and the other one does not. */
  lemma CrossingFacts(width: u32, height: u32, p1: ScreenPoint, p2: ScreenPoint)
    requires Pending(Outcode(width, height, p1), Outcode(width, height, p2))
    ensures var o1, o2 := Outcode(width, height, p1), Outcode(width, height, p2);
      var bit := ChosenBit(if o1 != 0 then o1 else o2);
      && (bit == TOP || bit == BOTTOM || bit == RIGHT || bit == LEFT)
      && (o1 | o2) & bit != 0
      && InHalfPlane(width, height, p1, bit) != InHalfPlane(width, height, p2, bit)
      && (o1 != 0 <==> !InHalfPlane(width, height, p1, bit))
  {
    var o1, o2 := Outcode(width, height, p1), Outcode(width, height, p2);
    ChosenBitFacts(o1, o2);
  }

  /** When exactly one endpoint lies in the boundary's half-plane, the source's divisor is
      nonzero and its formula gives the point of the segment on that boundary line. */
  lemma IntersectionIsLerp(width: u32, height: u32, p1: ScreenPoint, p2: ScreenPoint, bit: bv8)
      returns (s: real)
    requires bit == TOP || bit == BOTTOM || bit == RIGHT || bit == LEFT
    requires InHalfPlane(width, height, p1, bit) != InHalfPlane(width, height, p2, bit)
    ensures bit == TOP || bit == BOTTOM ==> p2.y != p1.y
    ensures bit != TOP && bit != BOTTOM ==> p2.x != p1.x
    ensures 0.0 <= s <= 1.0 && Intersection(width, height, p1, p2, bit) == Lerp(p1, p2, s)
  {
    if bit == TOP {
      s := HorizontalCrossing(p1, p2, height as real);
    } else if bit == BOTTOM {
      s := HorizontalCrossing(p1, p2, 0.0);
    } else if bit == RIGHT {
      s := VerticalCrossing(p1, p2, width as real);
    } else {
      s := VerticalCrossing(p1, p2, 0.0);
    }
  }

  /** Crossing the horizontal line y == target, by the formula of the TOP and BOTTOM branches:
      the point is the one of the segment at parameter s. */
  lemma HorizontalCrossing(p1: ScreenPoint, p2: ScreenPoint, target: real) returns (s: real)
    requires p1.y != p2.y && Between(target, p1.y, p2.y)
    ensures 0.0 <= s <= 1.0
    ensures ScreenPoint(CrossX(p1, p2, target), target) == Lerp(p1, p2, s)
  {
    s := BoundaryParameter(p1.y, p2.y, target);
    ScaledQuotient(p1.x, p2.x - p1.x, target - p1.y, p2.y - p1.y, s);
  }

  /** Crossing the vertical line x == target, by the formula of the RIGHT and LEFT branches. */
  lemma VerticalCrossing(p1: ScreenPoint, p2: ScreenPoint, target: real) returns (s: real)
    requires p1.x != p2.x && Between(target, p1.x, p2.x)
    ensures 0.0 <= s <= 1.0
    ensures ScreenPoint(target, CrossY(p1, p2, target)) == Lerp(p1, p2, s)
  {
    s := BoundaryParameter(p1.x, p2.x, target);
    ScaledQuotient(p1.y, p2.y - p1.y, target - p1.x, p2.x - p1.x, s);
  }

  /** A point between two others sets only region bits that one of them sets. */
  lemma OutcodeOfBetween(width: u32, height: u32, q: ScreenPoint, p1: ScreenPoint, p2: ScreenPoint)
    requires Between(q.x, p1.x, p2.x) && Between(q.y, p1.y, p2.y)
    ensures var n, o := Outcode(width, height, q), Outcode(width, height, p1) | Outcode(width, height, p2);
      && (n & LEFT != 0 ==> o & LEFT != 0)
      && (n & RIGHT != 0 ==> o & RIGHT != 0)
      && (n & BOTTOM != 0 ==> o & BOTTOM != 0)
      && (n & TOP != 0 ==> o & TOP != 0)
  {
  }

  /** One replacement of clip_line's loop: the outside endpoint (p1 if its outcode is
      nonzero, else p2) moves to where the segment crosses the boundary ChosenBit picks. */
  function ClipStep(width: u32, height: u32, p1: ScreenPoint, p2: ScreenPoint): (r: Segment)
    requires Pending(Outcode(width, height, p1), Outcode(width, height, p2))
    ensures BitCount(Outcode(width, height, r.p1) | Outcode(width, height, r.p2)) <
            BitCount(Outcode(width, height, p1) | Outcode(width, height, p2))
    ensures SubSegment(r, Segment(p1, p2))
  {
    var o1, o2 := Outcode(width, height, p1), Outcode(width, height, p2);
    var outcodeOut := if o1 != 0 then o1 else o2;
    var bit := ChosenBit(outcodeOut);
    ReplacementFacts(width, height, p1, p2);
    var q := Intersection(width, height, p1, p2, bit);
    if outcodeOut == o1 then Segment(q, p2) else Segment(p1, q)
  }

  /** What one replacement does: the moved endpoint lands on the violated boundary line at a
      point of the segment, afterwards both endpoints lie in that boundary's half-plane, and
      the union of the outcodes loses at least that bit. */
  lemma ReplacementFacts(width: u32, height: u32, p1: ScreenPoint, p2: ScreenPoint)
    requires Pending(Outcode(width, height, p1), Outcode(width, height, p2))
    ensures var o1, o2 := Outcode(width, height, p1), Outcode(width, height, p2);
      var bit := ChosenBit(if o1 != 0 then o1 else o2);
      (bit == TOP || bit == BOTTOM ==> p2.y != p1.y) &&
      (bit != TOP && bit != BOTTOM ==> p2.x != p1.x) &&
      var q := Intersection(width, height, p1, p2, bit);
      var r := if o1 != 0 then Segment(q, p2) else Segment(p1, q);
      && OnBoundary(width, height, q, bit)
      && (exists s: real :: 0.0 <= s <= 1.0 && q == Lerp(p1, p2, s))
      && InHalfPlane(width, height, r.p1, bit) && InHalfPlane(width, height, r.p2, bit)
      && BitCount(Outcode(width, height, r.p1) | Outcode(width, height, r.p2)) < BitCount(o1 | o2)
      && SubSegment(r, Segment(p1, p2))
  {
    var o1, o2 := Outcode(width, height, p1), Outcode(width, height, p2);
    var bit := ChosenBit(if o1 != 0 then o1 else o2);
    CrossingFacts(width, height, p1, p2);
    var s := IntersectionIsLerp(width, height, p1, p2, bit);
    var q := Intersection(width, height, p1, p2, bit);
    LerpBetween(p1, p2, s);
    OutcodeOfBetween(width, height, q, p1, p2);
    var r := if o1 != 0 then Segment(q, p2) else Segment(p1, q);
    var other := if o1 != 0 then p2 else p1;
    assert Outcode(width, height, q) & bit == 0;
    assert Outcode(width, height, other) & bit == 0;
    var n := Outcode(width, height, r.p1) | Outcode(width, height, r.p2);
    assert n == Outcode(width, height, q) | Outcode(width, height, other);
    BitCountShrinks(n, o1 | o2, bit);
    if o1 != 0 {
      assert r.p2 == Lerp(p1, p2, 1.0);
    } else {
      assert r.p1 == Lerp(p1, p2, 0.0);
    }
  }

  /** The outside outcode clip_line picks, and the divisor of the formula it then uses is nonzero. */
  lemma ClipDivisors(width: u32, height: u32, p1: ScreenPoint, p2: ScreenPoint)
    requires Pending(Outcode(width, height, p1), Outcode(width, height, p2))
    ensures var o1, o2 := Outcode(width, height, p1), Outcode(width, height, p2);
      var out := if o1 != 0 then o1 else o2;
      && (out & TOP != 0 || out & BOTTOM != 0 ==> p2.y != p1.y)
      && (out & TOP == 0 && out & BOTTOM == 0 ==> p2.x != p1.x)
  {
    var o1, o2 := Outcode(width, height, p1), Outcode(width, height, p2);
    CrossingFacts(width, height, p1, p2);
    var bit := ChosenBit(if o1 != 0 then o1 else o2);
    var _ := IntersectionIsLerp(width, height, p1, p2, bit);
  }

  /** clip_line's result as a function of the segment: replace outside endpoints until
      both outcodes are zero (accepted) or they share a bit (rejected). */
  function Clipped(width: u32, height: u32, p1: ScreenPoint, p2: ScreenPoint): (r: ClipResult)
    ensures r.accepted ==> Outcode(width, height, r.p1) == INSIDE && Outcode(width, height, r.p2) == INSIDE
    ensures !r.accepted ==> Outcode(width, height, r.p1) & Outcode(width, height, r.p2) != 0
    ensures SubSegment(Segment(r.p1, r.p2), Segment(p1, p2))
    decreases BitCount(Outcode(width, height, p1) | Outcode(width, height, p2))
  {
    var o1, o2 := Outcode(width, height, p1), Outcode(width, height, p2);
    if o1 | o2 == 0 then
      SubSegmentReflexive(Segment(p1, p2));
      ClipResult(true, p1, p2)
    else if o1 & o2 != 0 then
      SubSegmentReflexive(Segment(p1, p2));
      ClipResult(false, p1, p2)
    else
      var next := ClipStep(width, height, p1, p2);
      var r := Clipped(width, height, next.p1, next.p2);
      SubSegmentTransitive(Segment(r.p1, r.p2), next, Segment(p1, p2));
      r
  }

  /** How many endpoint replacements clip_line makes before it accepts or rejects: none when
      the first test already decides, otherwise one more than for the replaced segment. Each
      replacement clears a bit of o1 | o2 for good, so there are at most four. */
  function ClipSteps(width: u32, height: u32, p1: ScreenPoint, p2: ScreenPoint): (n: nat)
    ensures n == 0 <==> !Pending(Outcode(width, height, p1), Outcode(width, height, p2))
    ensures n <= BitCount(Outcode(width, height, p1) | Outcode(width, height, p2)) <= 4
    decreases BitCount(Outcode(width, height, p1) | Outcode(width, height, p2))
  {
    if !Pending(Outcode(width, height, p1), Outcode(width, height, p2)) then 0
    else
      var next := ClipStep(width, height, p1, p2);
      1 + ClipSteps(width, height, next.p1, next.p2)
  }

  /** A segment the first test decides is returned as it is, accepted exactly when both
      outcodes are INSIDE. */
  lemma ClipDecided(width: u32, height: u32, p1: ScreenPoint, p2: ScreenPoint)
    requires !Pending(Outcode(width, height, p1), Outcode(width, height, p2))
    ensures Clipped(width, height, p1, p2) ==
      ClipResult(Outcode(width, height, p1) | Outcode(width, height, p2) == 0, p1, p2)
  {
  }

  /** A pending segment and the one its replacement yields end in the same verdict, and the
      replacement is one of the steps ClipSteps counts. */
  lemma ClipUnfold(width: u32, height: u32, p1: ScreenPoint, p2: ScreenPoint)
    requires Pending(Outcode(width, height, p1), Outcode(width, height, p2))
    ensures var next := ClipStep(width, height, p1, p2);
      && Clipped(width, height, next.p1, next.p2) == Clipped(width, height, p1, p2)
      && ClipSteps(width, height, next.p1, next.p2) + 1 == ClipSteps(width, height, p1, p2)
  {
  }

  // ---------------------------------------------------------------------------
  // Bresenham stepping (draw_line_inside)
  // ---------------------------------------------------------------------------

  /** A pixel position as the stepping loop holds it: signed 32-bit in the source. */
  datatype Pixel = Pixel(x: int, y: int)

  /** The loop's constants: the target pixel, |dx|, -|dy| and the two step directions. */
  datatype Stepper = Stepper(x1: int, y1: int, dx: int, dy: int, sx: int, sy: int)

  /** The loop's variables: the current pixel and the error accumulator. */
  datatype Cursor = Cursor(x: int, y: int, error: int)

  function Max(a: int, b: int): int
  {
    if a >= b then a else b
  }

  function Min(a: int, b: int): int
  {
    if a <= b then a else b
  }

  /** The constants draw_line_inside derives from the rounded endpoints. */
  function LineStepper(x0: int, y0: int, x1: int, y1: int): (st: Stepper)
    ensures st.dx == Abs(x1 - x0) && st.dy == -(Abs(y1 - y0) as int)
    ensures (x0 < x1 ==> st.sx == 1) && (x0 >= x1 ==> st.sx == -1)
    ensures (y0 < y1 ==> st.sy == 1) && (y0 >= y1 ==> st.sy == -1)
  {
    Stepper(x1, y1, Abs(x1 - x0), -(Abs(y1 - y0) as int), if x0 < x1 then 1 else -1, if y0 < y1 then 1 else -1)
  }

  /** Columns still to go towards the target, counted in the step direction. */
  function RemX(st: Stepper, x: int): int
  {
    if st.sx == 1 then st.x1 - x else x - st.x1
  }

  /** Rows still to go towards the target, counted in the step direction. */
  function RemY(st: Stepper, y: int): int
  {
    if st.sy == 1 then st.y1 - y else y - st.y1
  }

  /** Twice the cross product of the remaining offset with the whole extent: how far the
      pixel lies from the ideal line, scaled by the length of the major axis. */
  function Deviation(st: Stepper, x: int, y: int): int
  {
    Mul(RemX(st, x), -st.dy) - Mul(RemY(st, y), st.dx)
  }

  lemma DeviationProduct(st: Stepper, x: int, y: int)
    ensures Deviation(st, x, y) == RemX(st, x) * -st.dy - RemY(st, y) * st.dx
  {
    MulIsProduct(RemX(st, x), -st.dy);
    MulIsProduct(RemY(st, y), st.dx);
  }

  /** Integer multiplication behind a function of its own: the loop invariants that mention the
      deviation then carry no product, and only the lemmas that need one relate it to `*`. */
  function Mul(a: int, b: int): int
    decreases Abs(b)
  {
    if b == 0 then 0 else if b > 0 then Mul(a, b - 1) + a else Mul(a, b + 1) - a
  }

  lemma {:induction false} MulIsProduct(a: int, b: int)
    ensures Mul(a, b) == a * b
    decreases Abs(b)
  {
    if b > 0 {
      MulIsProduct(a, b - 1);
    } else if b < 0 {
      MulIsProduct(a, b + 1);
    }
  }

  /** The extent along the major axis. */
  function MajorExtent(st: Stepper): int
  {
    Max(st.dx, -st.dy)
  }

  /** The pixel lies within half a pixel of the ideal line, measured along the minor axis. */
  predicate Near(st: Stepper, x: int, y: int)
  {
    -MajorExtent(st) <= 2 * Deviation(st, x, y) <= MajorExtent(st)
  }

  /** The loop invariant of draw_line_inside: the cursor has not passed the target in either
      direction, lies near the ideal line, and the error accumulator is determined by it. */
  predicate OnCourse(st: Stepper, c: Cursor)
  {
    && st.dx >= 0 && st.dy <= 0
    && (st.sx == 1 || st.sx == -1) && (st.sy == 1 || st.sy == -1)
    && 0 <= RemX(st, c.x) <= st.dx && 0 <= RemY(st, c.y) <= -st.dy
    && Near(st, c.x, c.y)
    && c.error == st.dx + st.dy + Deviation(st, c.x, c.y)
  }

  /** Steps still to go along the major axis. */
  function Major(st: Stepper, c: Cursor): int
  {
    if st.dx >= -st.dy then RemX(st, c.x) else RemY(st, c.y)
  }

  predicate AtTarget(st: Stepper, c: Cursor)
  {
    c.x == st.x1 && c.y == st.y1
  }

  /** One iteration of draw_line_inside's loop after the pixel is written and the target not yet
      reached: step x when 2 * error >= dy, step y when 2 * error <= dx. */
  function Advance(st: Stepper, c: Cursor): (n: Cursor)
    requires OnCourse(st, c) && !AtTarget(st, c)
    ensures OnCourse(st, n)
    ensures Major(st, n) == Major(st, c) - 1
    ensures n.x - c.x == 0 || n.x - c.x == st.sx
    ensures n.y - c.y == 0 || n.y - c.y == st.sy
    ensures n.x != c.x || n.y != c.y
  {
    AdvanceFacts(st, c);
    var e2 := 2 * c.error;
    var stepX, stepY := e2 >= st.dy, e2 <= st.dx;
    DeviationStep(st, c.x, c.y, if stepX then st.sx else 0, if stepY then st.sy else 0);
    Cursor(if stepX then c.x + st.sx else c.x,
           if stepY then c.y + st.sy else c.y,
           c.error + (if stepX then st.dy else 0) + (if stepY then st.dx else 0))
  }

  /** How one step towards the target changes the deviation. */
  lemma DeviationStep(st: Stepper, x: int, y: int, ddx: int, ddy: int)
    requires (st.sx == 1 || st.sx == -1) && (st.sy == 1 || st.sy == -1)
    requires (ddx == 0 || ddx == st.sx) && (ddy == 0 || ddy == st.sy)
    ensures RemX(st, x + ddx) == RemX(st, x) - (if ddx == 0 then 0 else 1)
    ensures RemY(st, y + ddy) == RemY(st, y) - (if ddy == 0 then 0 else 1)
    ensures Deviation(st, x + ddx, y + ddy) ==
      Deviation(st, x, y) + (if ddx == 0 then 0 else st.dy) + (if ddy == 0 then 0 else st.dx)
  {
    var rx, ry := RemX(st, x), RemY(st, y);
    var rx', ry' := RemX(st, x + ddx), RemY(st, y + ddy);
    DeviationProduct(st, x, y);
    DeviationProduct(st, x + ddx, y + ddy);
    if ddx != 0 {
      assert rx' == rx - 1;
      assert rx' * -st.dy == rx * -st.dy + st.dy;
    }
    if ddy != 0 {
      assert ry' == ry - 1;
      assert ry' * st.dx == ry * st.dx - st.dx;
    }
  }

  /** Advance spelled out as the loop body's two conditional updates. */
  lemma AdvanceUpdates(st: Stepper, c: Cursor, x: int, y: int, error: int)
    requires OnCourse(st, c) && !AtTarget(st, c)
    requires x == if 2 * c.error >= st.dy then c.x + st.sx else c.x
    requires y == if 2 * c.error <= st.dx then c.y + st.sy else c.y
    requires error == c.error + (if 2 * c.error >= st.dy then st.dy else 0) + (if 2 * c.error <= st.dx then st.dx else 0)
    ensures Advance(st, c) == Cursor(x, y, error)
  {
  }

  /** What one iteration does to the remaining counts and the deviation. */
  lemma AdvanceFacts(st: Stepper, c: Cursor)
    requires OnCourse(st, c) && !AtTarget(st, c)
    ensures var e2 := 2 * c.error;
      var rx, ry := RemX(st, c.x), RemY(st, c.y);
      && (e2 >= st.dy ==> rx >= 1)
      && (e2 <= st.dx ==> ry >= 1)
      && (e2 >= st.dy || e2 <= st.dx)
      && (st.dx >= -st.dy ==> e2 >= st.dy)
      && (st.dx < -st.dy ==> e2 <= st.dx)
      && var f := Deviation(st, c.x, c.y);
      var f' := f + (if e2 >= st.dy then st.dy else 0) + (if e2 <= st.dx then st.dx else 0);
      -MajorExtent(st) <= 2 * f' <= MajorExtent(st)
  {
    var d, dx := -st.dy, st.dx;
    var rx, ry := RemX(st, c.x), RemY(st, c.y);
    var a, b := rx * d, ry * dx;
    var f := a - b;
    DeviationProduct(st, c.x, c.y);
    var m := MajorExtent(st);
    var e2 := 2 * c.error;
    assert e2 == 2 * dx - 2 * d + 2 * f;
    if rx == 0 {
      assert a == 0;
      assert ry >= 1;
      IntMulMonotone(1, ry, dx);
      assert b >= dx;
      assert e2 < -d;
    }
    if ry == 0 {
      assert b == 0;
      assert rx >= 1;
      IntMulMonotone(1, rx, d);
      assert a >= d;
      assert e2 > dx;
    }
  }

  lemma IntMulMonotone(i: int, j: int, k: int)
    requires i <= j && k >= 0
    ensures i * k <= j * k
  {
    assert j * k - i * k == (j - i) * k;
  }

  /** The pixels draw_line_inside writes from the cursor on, the cursor's own first: one per
      step along the major axis, ending on the target. */
  function BresenhamFrom(st: Stepper, c: Cursor): (pixels: seq<Pixel>)
    requires OnCourse(st, c)
    ensures |pixels| == Major(st, c) + 1
    ensures pixels[0] == Pixel(c.x, c.y)
    ensures pixels[|pixels| - 1] == Pixel(st.x1, st.y1)
    decreases Major(st, c)
  {
    if AtTarget(st, c) then
      [Pixel(c.x, c.y)]
    else
      [Pixel(c.x, c.y)] + BresenhamFrom(st, Advance(st, c))
  }

  /** The pixel lies between the cursor and the target and within half a pixel of the ideal line. */
  predicate Covered(st: Stepper, c: Cursor, p: Pixel)
  {
    && 0 <= RemX(st, p.x) <= RemX(st, c.x)
    && 0 <= RemY(st, p.y) <= RemY(st, c.y)
    && Near(st, p.x, p.y)
  }

  /** From p to q is one step of the loop: to an 8-neighbour, towards the target. */
  predicate Step(st: Stepper, p: Pixel, q: Pixel)
  {
    && (q.x - p.x == 0 || q.x - p.x == st.sx)
    && (q.y - p.y == 0 || q.y - p.y == st.sy)
    && q != p
  }

  /** Every pixel written lies between the cursor and the target and within half a pixel of
      the ideal line. */
  lemma {:induction false} BresenhamFromNear(st: Stepper, c: Cursor)
    requires OnCourse(st, c)
    ensures forall i :: 0 <= i < |BresenhamFrom(st, c)| ==> Covered(st, c, BresenhamFrom(st, c)[i])
    decreases Major(st, c)
  {
    var pixels := BresenhamFrom(st, c);
    if AtTarget(st, c) {
      assert pixels == [Pixel(c.x, c.y)];
    } else {
      var n := Advance(st, c);
      BresenhamFromNear(st, n);
      var rest := BresenhamFrom(st, n);
      assert pixels == [Pixel(c.x, c.y)] + rest;
      forall i | 0 <= i < |pixels|
        ensures Covered(st, c, pixels[i])
      {
        if i > 0 {
          assert pixels[i] == rest[i - 1];
          assert Covered(st, n, rest[i - 1]);
        }
      }
    }
  }

  /** Consecutive pixels are 8-neighbours, each step going towards the target. */
  lemma {:induction false} BresenhamFromSteps(st: Stepper, c: Cursor)
    requires OnCourse(st, c)
    ensures forall i :: 0 <= i < |BresenhamFrom(st, c)| - 1 ==>
      Step(st, BresenhamFrom(st, c)[i], BresenhamFrom(st, c)[i + 1])
    decreases Major(st, c)
  {
    if !AtTarget(st, c) {
      var n := Advance(st, c);
      BresenhamFromSteps(st, n);
      var pixels, rest := BresenhamFrom(st, c), BresenhamFrom(st, n);
      assert pixels == [Pixel(c.x, c.y)] + rest;
      forall i | 0 <= i < |pixels| - 1
        ensures Step(st, pixels[i], pixels[i + 1])
      {
        if i > 0 {
          assert pixels[i] == rest[i - 1] && pixels[i + 1] == rest[i];
          assert Step(st, rest[i - 1], rest[i]);
        } else {
          assert pixels[0] == Pixel(c.x, c.y) && pixels[1] == Pixel(n.x, n.y);
          assert Step(st, Pixel(c.x, c.y), Pixel(n.x, n.y));
        }
      }
    }
  }

  /** Twice the signed area spanned by the pixel's offset from the start and the whole extent:
      zero exactly on the ideal line through the two endpoints. */
  function LineCross(x0: int, y0: int, x1: int, y1: int, p: Pixel): int
  {
    (p.x - x0) * (y1 - y0) - (p.y - y0) * (x1 - x0)
  }

  /** The cursor draw_line_inside starts from: the first endpoint, error dx + dy. */
  function LineStart(x0: int, y0: int, x1: int, y1: int): (c: Cursor)
    ensures OnCourse(LineStepper(x0, y0, x1, y1), c)
    ensures Major(LineStepper(x0, y0, x1, y1), c) == Max(Abs(x1 - x0), Abs(y1 - y0))
  {
    var st := LineStepper(x0, y0, x1, y1);
    assert RemX(st, x0) == st.dx && RemY(st, y0) == -st.dy;
    DeviationProduct(st, x0, y0);
    assert Deviation(st, x0, y0) == st.dx * -st.dy - -st.dy * st.dx;
    Cursor(x0, y0, st.dx + st.dy)
  }

  /** The pixels draw_line_inside writes between two rounded endpoints, in order:
      max(|x1 - x0|, |y1 - y0|) + 1 of them, from the first endpoint to the second. */
  function BresenhamLine(x0: int, y0: int, x1: int, y1: int): (pixels: seq<Pixel>)
    ensures |pixels| == Max(Abs(x1 - x0), Abs(y1 - y0)) + 1
    ensures pixels[0] == Pixel(x0, y0) && pixels[|pixels| - 1] == Pixel(x1, y1)
  {
    BresenhamFrom(LineStepper(x0, y0, x1, y1), LineStart(x0, y0, x1, y1))
  }

  /** The deviation the loop keeps is, up to sign, the cross product of the pixel's offset from
      the start with the whole extent. */
  lemma DeviationIsCross(x0: int, y0: int, x1: int, y1: int, p: Pixel)
    ensures var d := Deviation(LineStepper(x0, y0, x1, y1), p.x, p.y);
      d == LineCross(x0, y0, x1, y1, p) || d == -LineCross(x0, y0, x1, y1, p)
  {
    var st := LineStepper(x0, y0, x1, y1);
    var ex, ey := x1 - x0, y1 - y0;
    var ox, oy := p.x - x0, p.y - y0;
    // The remaining offsets are the extent minus the offset, each taken in its step direction.
    assert RemX(st, p.x) == st.sx * (ex - ox) && st.dx == st.sx * ex;
    assert RemY(st, p.y) == st.sy * (ey - oy) && -st.dy == st.sy * ey;
    DeviationProduct(st, p.x, p.y);
    SignedCross(ex, ey, ox, oy, st.sx, st.sy);
  }

  /** The cross product of the remaining offsets with the extent, each scaled by a step sign,
      is the cross product of the offsets with the extent, up to sign. */
  lemma SignedCross(ex: int, ey: int, ox: int, oy: int, s: int, t: int)
    requires (s == 1 || s == -1) && (t == 1 || t == -1)
    ensures var d := (s * (ex - ox)) * (t * ey) - (t * (ey - oy)) * (s * ex);
      d == ox * ey - oy * ex || d == -(ox * ey - oy * ex)
  {
    var a, b := ox * ey, oy * ex;
    assert (ex - ox) * ey - (ey - oy) * ex == b - a;
    if s == 1 && t == 1 {
    } else if s == 1 {
      assert (s * (ex - ox)) * (t * ey) == -((ex - ox) * ey);
      assert (t * (ey - oy)) * (s * ex) == -((ey - oy) * ex);
    } else if t == 1 {
      assert (s * (ex - ox)) * (t * ey) == -((ex - ox) * ey);
      assert (t * (ey - oy)) * (s * ex) == -((ey - oy) * ex);
    } else {
      assert (s * (ex - ox)) * (t * ey) == (ex - ox) * ey;
      assert (t * (ey - oy)) * (s * ex) == (ey - oy) * ex;
    }
  }

  /** Every pixel of the line lies in the bounding box of its endpoints and within half a pixel
      of the ideal line: its cross product with the extent is at most half the major extent. */
  lemma BresenhamLineNear(x0: int, y0: int, x1: int, y1: int)
    ensures forall i :: 0 <= i < |BresenhamLine(x0, y0, x1, y1)| ==>
      && Min(x0, x1) <= BresenhamLine(x0, y0, x1, y1)[i].x <= Max(x0, x1)
      && Min(y0, y1) <= BresenhamLine(x0, y0, x1, y1)[i].y <= Max(y0, y1)
      && -Max(Abs(x1 - x0), Abs(y1 - y0)) <= 2 * LineCross(x0, y0, x1, y1, BresenhamLine(x0, y0, x1, y1)[i])
      && 2 * LineCross(x0, y0, x1, y1, BresenhamLine(x0, y0, x1, y1)[i]) <= Max(Abs(x1 - x0), Abs(y1 - y0))
  {
    var st, c := LineStepper(x0, y0, x1, y1), LineStart(x0, y0, x1, y1);
    var pixels := BresenhamLine(x0, y0, x1, y1);
    BresenhamFromNear(st, c);
    forall i | 0 <= i < |pixels|
      ensures Min(x0, x1) <= pixels[i].x <= Max(x0, x1)
      ensures Min(y0, y1) <= pixels[i].y <= Max(y0, y1)
      ensures -Max(Abs(x1 - x0), Abs(y1 - y0)) <= 2 * LineCross(x0, y0, x1, y1, pixels[i])
      ensures 2 * LineCross(x0, y0, x1, y1, pixels[i]) <= Max(Abs(x1 - x0), Abs(y1 - y0))
    {
      assert Covered(st, c, pixels[i]);
      DeviationIsCross(x0, y0, x1, y1, pixels[i]);
    }
  }

  /** Consecutive pixels of the line are distinct 8-neighbours. */
  lemma BresenhamLineSteps(x0: int, y0: int, x1: int, y1: int)
    ensures forall i :: 0 <= i < |BresenhamLine(x0, y0, x1, y1)| - 1 ==>
      && Abs(BresenhamLine(x0, y0, x1, y1)[i + 1].x - BresenhamLine(x0, y0, x1, y1)[i].x) <= 1
      && Abs(BresenhamLine(x0, y0, x1, y1)[i + 1].y - BresenhamLine(x0, y0, x1, y1)[i].y) <= 1
      && BresenhamLine(x0, y0, x1, y1)[i + 1] != BresenhamLine(x0, y0, x1, y1)[i]
  {
    var st, c := LineStepper(x0, y0, x1, y1), LineStart(x0, y0, x1, y1);
    var pixels := BresenhamLine(x0, y0, x1, y1);
    BresenhamFromSteps(st, c);
    forall i | 0 <= i < |pixels| - 1
      ensures Abs(pixels[i + 1].x - pixels[i].x) <= 1 && Abs(pixels[i + 1].y - pixels[i].y) <= 1
      ensures pixels[i + 1] != pixels[i]
    {
      assert Step(st, pixels[i], pixels[i + 1]);
    }
  }

  // ---------------------------------------------------------------------------
  // Rounding, casts and pixel writes
  // ---------------------------------------------------------------------------

  /** f32::round: to the nearest integer, halves away from zero. */
  function Round(r: real): (n: int)
    ensures r >= 0.0 ==> r - 0.5 < n as real <= r + 0.5
    ensures r < 0.0 ==> r - 0.5 <= n as real < r + 0.5
  {
    if r >= 0.0 then (r + 0.5).Floor else -((-r + 0.5).Floor)
  }

  /** Rounding keeps a value within integer bounds it already lies within. */
  lemma RoundWithin(r: real, lo: int, hi: int)
    requires lo as real <= r <= hi as real
    ensures lo <= Round(r) <= hi
  {
  }

  /** The `as u32` reinterpretation of a signed 32-bit value. */
  function AsU32(v: int): (r: u32)
    ensures 0 <= v < 0x1_0000_0000 ==> r == v
    ensures -0x8000_0000 <= v < 0 ==> r == v + 0x1_0000_0000 && r >= 0x8000_0000
  {
    v % 0x1_0000_0000
  }

  type byte = n: int | 0 <= n < 256

  /** An sRGB colour of three 8-bit channels. */
  datatype Colour = Colour(red: byte, green: byte, blue: byte)

  /** The colour packed as RGBA into a u32, alpha fully opaque (red in the top byte). */
  function PackRgba(c: Colour): u32
  {
    c.red * 0x100_0000 + c.green * 0x1_0000 + c.blue * 0x100 + 0xFF
  }

  /** What set_pixel stores: the packed RGBA value shifted right by one byte, which drops the alpha. */
  function Stored(c: Colour): (v: u32)
    ensures v == c.red * 0x1_0000 + c.green * 0x100 + c.blue
  {
    ByteShift(c.red * 0x1_0000 + c.green * 0x100 + c.blue, 0xFF);
    PackRgba(c) / 0x100
  }

  /** Shifting right by one byte drops the low byte. */
  lemma ByteShift(high: int, low: int)
    requires 0 <= low < 0x100
    ensures (high * 0x100 + low) / 0x100 == high && (high * 0x100 + low) % 0x100 == low
  {
  }

  /** The stored value keeps each colour channel in its own byte: 0x00RRGGBB. */
  lemma StoredChannels(c: Colour)
    ensures Stored(c) < 0x100_0000
    ensures Stored(c) / 0x1_0000 == c.red
    ensures Stored(c) / 0x100 % 0x100 == c.green
    ensures Stored(c) % 0x100 == c.blue
  {
    var v := Stored(c);
    ByteShift(c.red * 0x100 + c.green, c.blue);
    assert v == (c.red * 0x100 + c.green) * 0x100 + c.blue;
    ByteShift(c.red, c.green);
  }

  /** Row-major index of an in-bounds pixel lies inside the buffer. */
  lemma IndexInBounds(width: u32, height: u32, x: u32, y: u32)
    requires x < width && y < height
    ensures 0 <= y * width + x < width * height
  {
    IntMulMonotone(y, height - 1, width);
  }

  /** set_pixel's effect on the buffer contents: the value lands at row-major index
      y * width + x when the pixel is inside the buffer, and nothing changes otherwise. */
  function SetPixelEffect(data: seq<u32>, width: u32, height: u32, x: u32, y: u32, value: u32): (r: seq<u32>)
    requires |data| == width * height
    ensures |r| == |data|
    ensures forall i :: 0 <= i < |r| ==>
      r[i] == if x < width && y < height && i == y * width + x then value else data[i]
  {
    if x < width && y < height then
      IndexInBounds(width, height, x, y);
      data[y * width + x := value]
    else
      data
  }

  /** The buffer index a written pixel of the loop hits, if any. */
  predicate Hits(width: u32, height: u32, p: Pixel, i: int)
  {
    AsU32(p.x) < width && AsU32(p.y) < height && i == AsU32(p.y) * width + AsU32(p.x)
  }

  /** The buffer after set_pixel on each pixel in turn, every coordinate cast to u32. */
  function PaintPixels(data: seq<u32>, width: u32, height: u32, pixels: seq<Pixel>, value: u32): (r: seq<u32>)
    requires |data| == width * height
    ensures |r| == |data|
    decreases |pixels|
  {
    if pixels == [] then data
    else PaintPixels(SetPixelEffect(data, width, height, AsU32(pixels[0].x), AsU32(pixels[0].y), value),
                     width, height, pixels[1..], value)
  }

  /** A cell ends up holding the value exactly when some pixel of the sequence hits it;
      every other cell keeps its old contents. */
  lemma {:induction false} PaintPixelsAt(data: seq<u32>, width: u32, height: u32, pixels: seq<Pixel>, value: u32, i: int)
    requires |data| == width * height && 0 <= i < |data|
    ensures PaintPixels(data, width, height, pixels, value)[i] ==
      if exists k :: 0 <= k < |pixels| && Hits(width, height, pixels[k], i) then value else data[i]
    decreases |pixels|
  {
    if pixels != [] {
      var next := SetPixelEffect(data, width, height, AsU32(pixels[0].x), AsU32(pixels[0].y), value);
      PaintPixelsAt(next, width, height, pixels[1..], value, i);
      if exists k :: 0 <= k < |pixels| && Hits(width, height, pixels[k], i) {
        var k :| 0 <= k < |pixels| && Hits(width, height, pixels[k], i);
        if k > 0 {
          assert Hits(width, height, pixels[1..][k - 1], i);
        }
      } else {
        forall k | 0 <= k < |pixels| - 1
          ensures !Hits(width, height, pixels[1..][k], i)
        {
          assert pixels[1..][k] == pixels[k + 1];
        }
      }
    }
  }

  /** Painting a sequence is painting its first pixel and then the rest. */
  lemma PaintPixelsCons(data: seq<u32>, width: u32, height: u32, p: Pixel, rest: seq<Pixel>, value: u32)
    requires |data| == width * height
    ensures PaintPixels(data, width, height, [p] + rest, value) ==
      PaintPixels(SetPixelEffect(data, width, height, AsU32(p.x), AsU32(p.y), value), width, height, rest, value)
  {
    assert ([p] + rest)[1..] == rest;
  }

  /** Writing the cursor's pixel and advancing leaves the same painting still to do. */
  lemma PaintAdvance(data: seq<u32>, width: u32, height: u32, st: Stepper, c: Cursor, value: u32)
    requires |data| == width * height && OnCourse(st, c)
    ensures var painted := SetPixelEffect(data, width, height, AsU32(c.x), AsU32(c.y), value);
      && (AtTarget(st, c) ==> PaintPixels(data, width, height, BresenhamFrom(st, c), value) == painted)
      && (!AtTarget(st, c) ==>
            PaintPixels(painted, width, height, BresenhamFrom(st, Advance(st, c)), value) ==
            PaintPixels(data, width, height, BresenhamFrom(st, c), value))
  {
    if AtTarget(st, c) {
      PaintPixelsCons(data, width, height, Pixel(c.x, c.y), [], value);
    } else {
      PaintPixelsCons(data, width, height, Pixel(c.x, c.y), BresenhamFrom(st, Advance(st, c)), value);
    }
  }

  // ---------------------------------------------------------------------------
  // draw_line as a function of the segment
  // ---------------------------------------------------------------------------

  /** The pixels draw_line traces: the clipped segment's rounded endpoints joined by the
      stepping loop, whether or not clipping accepted the segment. */
  function LinePixels(width: u32, height: u32, p1: ScreenPoint, p2: ScreenPoint): (pixels: seq<Pixel>)
    ensures |pixels| > 0
    ensures var r := Clipped(width, height, p1, p2);
      pixels[0] == Pixel(Round(r.p1.x), Round(r.p1.y)) &&
      pixels[|pixels| - 1] == Pixel(Round(r.p2.x), Round(r.p2.y))
    ensures Outcode(width, height, p1) | Outcode(width, height, p2) == INSIDE ==>
      pixels == BresenhamLine(Round(p1.x), Round(p1.y), Round(p2.x), Round(p2.y))
  {
    var r := Clipped(width, height, p1, p2);
    assert Outcode(width, height, p1) | Outcode(width, height, p2) == INSIDE ==> r == ClipResult(true, p1, p2);
    BresenhamLine(Round(r.p1.x), Round(r.p1.y), Round(r.p2.x), Round(r.p2.y))
  }

  /** An accepted segment is traced entirely inside [0, width] x [0, height], so the u32 casts
      change nothing, and only the column x == width and the row y == height miss the buffer. */
  lemma AcceptedLineInside(width: u32, height: u32, p1: ScreenPoint, p2: ScreenPoint)
    requires Clipped(width, height, p1, p2).accepted
    ensures var pixels := LinePixels(width, height, p1, p2);
      forall i :: 0 <= i < |pixels| ==>
        0 <= pixels[i].x <= width && 0 <= pixels[i].y <= height &&
        AsU32(pixels[i].x) == pixels[i].x && AsU32(pixels[i].y) == pixels[i].y
  {
    var r := Clipped(width, height, p1, p2);
    var x0, y0, x1, y1 := Round(r.p1.x), Round(r.p1.y), Round(r.p2.x), Round(r.p2.y);
    RoundWithin(r.p1.x, 0, width);
    RoundWithin(r.p1.y, 0, height);
    RoundWithin(r.p2.x, 0, width);
    RoundWithin(r.p2.y, 0, height);
    BresenhamLineNear(x0, y0, x1, y1);
  }

  /** Finding, as written: draw_line ignores clip_line's verdict, so a rejected segment is still
      traced. A segment left of the buffer whose x rounds to -0 lands in column 0: on a 10 x 10
      buffer, (-0.25, 5) to (-0.25, 6) is rejected yet writes the cells of (0, 5) and (0, 6). */
  lemma RejectedSegmentStillDrawn(p1: ScreenPoint, p2: ScreenPoint)
    requires p1 == ScreenPoint(-0.25, 5.0) && p2 == ScreenPoint(-0.25, 6.0)
    ensures !Clipped(10, 10, p1, p2).accepted
    ensures LinePixels(10, 10, p1, p2) == [Pixel(0, 5), Pixel(0, 6)]
  {
    assert Outcode(10, 10, p1) == LEFT && Outcode(10, 10, p2) == LEFT;
    assert Clipped(10, 10, p1, p2) == ClipResult(false, p1, p2);
    assert Round(p1.x) == 0 && Round(p1.y) == 5 && Round(p2.y) == 6;
    TwoPixelColumn(0, 5);
  }

  /** ... and painting those two pixels on a 10 x 10 buffer writes cells 50 and 60. */
  lemma ColumnZeroPainted(data: seq<u32>, value: u32)
    requires |data| == 100
    ensures PaintPixels(data, 10, 10, [Pixel(0, 5), Pixel(0, 6)], value)[50] == value
    ensures PaintPixels(data, 10, 10, [Pixel(0, 5), Pixel(0, 6)], value)[60] == value
  {
    var pixels := [Pixel(0, 5), Pixel(0, 6)];
    assert Hits(10, 10, pixels[0], 50) && Hits(10, 10, pixels[1], 60);
    PaintPixelsAt(data, 10, 10, pixels, value, 50);
    PaintPixelsAt(data, 10, 10, pixels, value, 60);
  }

  /** A vertical line one row long is its two endpoints. */
  lemma TwoPixelColumn(x: int, y: int)
    ensures BresenhamLine(x, y, x, y + 1) == [Pixel(x, y), Pixel(x, y + 1)]
  {
    var st, c := LineStepper(x, y, x, y + 1), LineStart(x, y, x, y + 1);
    assert c == Cursor(x, y, -1);
    var n := Advance(st, c);
    assert n == Cursor(x, y + 1, -1);
    assert BresenhamFrom(st, n) == [Pixel(x, y + 1)];
  }

  // ---------------------------------------------------------------------------
  // The frame buffer
  // ---------------------------------------------------------------------------

  /** A borrowed row-major buffer of packed pixels and its dimensions. */
  class FrameBuffer {
    const data: array<u32>
    const width: u32
    const height: u32

    /** The buffer holds exactly width * height pixels. */
    ghost predicate Valid()
    {
      data.Length == width * height
    }

    constructor(buffer: array<u32>, width: u32, height: u32)
      requires buffer.Length == width * height
      ensures Valid()
      ensures this.data == buffer && this.width == width && this.height == height
    {
      this.data := buffer;
      this.width := width;
      this.height := height;
    }

    /** clip_line: the loop that replaces outside endpoints until the segment is trivially
        accepted or rejected. */
    method ClipLine(p1: ScreenPoint, p2: ScreenPoint, outcode1: bv8, outcode2: bv8)
        returns (accepted: bool, q1: ScreenPoint, q2: ScreenPoint)
      requires outcode1 == Outcode(width, height, p1) && outcode2 == Outcode(width, height, p2)
      ensures ClipResult(accepted, q1, q2) == Clipped(width, height, p1, p2)
    {
      ghost var verdict, steps := Clipped(width, height, p1, p2), ClipSteps(width, height, p1, p2);
      q1, q2 := p1, p2;
      var o1, o2 := outcode1, outcode2;
      ghost var replacements := 0;
      while true
        invariant o1 == Outcode(width, height, q1) && o2 == Outcode(width, height, q2)
        invariant Clipped(width, height, q1, q2) == verdict
        invariant replacements + ClipSteps(width, height, q1, q2) == steps <= 4
        decreases steps - replacements
      {
        if o1 | o2 == 0 {
          ClipDecided(width, height, q1, q2);
          return true, q1, q2;
        } else if o1 & o2 != 0 {
          ClipDecided(width, height, q1, q2);
          return false, q1, q2;
        }
        q1, q2, o1, o2 := ReplaceOutside(q1, q2, o1, o2);
        replacements := replacements + 1;
      }
    }

    /** The body of clip_line's loop when the segment is neither accepted nor rejected: the
        endpoint with a nonzero outcode (p1 first) moves to where the segment crosses the
        boundary of its highest region bit, and its outcode is recomputed. */
    method ReplaceOutside(p1: ScreenPoint, p2: ScreenPoint, outcode1: bv8, outcode2: bv8)
        returns (q1: ScreenPoint, q2: ScreenPoint, o1: bv8, o2: bv8)
      requires outcode1 == Outcode(width, height, p1) && outcode2 == Outcode(width, height, p2)
      requires Pending(outcode1, outcode2)
      ensures Segment(q1, q2) == ClipStep(width, height, p1, p2)
      ensures o1 == Outcode(width, height, q1) && o2 == Outcode(width, height, q2)
      ensures Clipped(width, height, q1, q2) == Clipped(width, height, p1, p2)
      ensures ClipSteps(width, height, q1, q2) + 1 == ClipSteps(width, height, p1, p2)
    {
      var outcodeOut := if outcode1 != 0 then outcode1 else outcode2;
      ClipDivisors(width, height, p1, p2);
      var x, y;
      if outcodeOut & TOP != 0 {
        x := CrossX(p1, p2, height as real);
        y := height as real;
      } else if outcodeOut & BOTTOM != 0 {
        x := CrossX(p1, p2, 0.0);
        y := 0.0;
      } else if outcodeOut & RIGHT != 0 {
        y := CrossY(p1, p2, width as real);
        x := width as real;
      } else {
        y := CrossY(p1, p2, 0.0);
        x := 0.0;
      }
      q1, q2, o1, o2 := p1, p2, outcode1, outcode2;
      if outcodeOut == outcode1 {
        q1 := ScreenPoint(x, y);
        o1 := ComputeOutcode(width, height, x, y);
      } else {
        q2 := ScreenPoint(x, y);
        o2 := ComputeOutcode(width, height, x, y);
      }
      ClipUnfold(width, height, p1, p2);
    }

    /** set_pixel: stores the colour, alpha dropped, at y * width + x when (x, y) is inside. */
    method SetPixel(x: u32, y: u32, color: Colour)
      requires Valid()
      modifies data
      ensures data[..] == SetPixelEffect(old(data[..]), width, height, x, y, Stored(color))
    {
      var rgbColor := PackRgba(color) / 0x100;
      if x < width && y < height {
        IndexInBounds(width, height, x, y);
        data[y * width + x] := rgbColor;
      }
    }

    /** draw_line_inside: rounds both endpoints and writes each pixel of the stepping loop. */
    method DrawLineInside(p1: ScreenPoint, p2: ScreenPoint, color: Colour)
      requires Valid()
      modifies data
      ensures data[..] == PaintPixels(old(data[..]), width, height,
        BresenhamLine(Round(p1.x), Round(p1.y), Round(p2.x), Round(p2.y)), Stored(color))
    {
      var x0 := Round(p1.x);
      var y0 := Round(p1.y);
      var x1 := Round(p2.x);
      var y1 := Round(p2.y);
      var dx := Abs(x1 - x0);
      var dy := -(Abs(y1 - y0) as int);
      var sx := if x0 < x1 then 1 else -1;
      var sy := if y0 < y1 then 1 else -1;
      var error := dx + dy;
      ghost var st := LineStepper(x0, y0, x1, y1);
      ghost var line := BresenhamLine(x0, y0, x1, y1);
      ghost var value := Stored(color);
      assert Cursor(x0, y0, error) == LineStart(x0, y0, x1, y1);
      while true
        invariant st == Stepper(x1, y1, dx, dy, sx, sy)
        invariant OnCourse(st, Cursor(x0, y0, error))
        invariant PaintPixels(data[..], width, height, BresenhamFrom(st, Cursor(x0, y0, error)), value) ==
          PaintPixels(old(data[..]), width, height, line, value)
        decreases Major(st, Cursor(x0, y0, error))
      {
        ghost var c := Cursor(x0, y0, error);
        PaintAdvance(data[..], width, height, st, c, value);
        SetPixel(AsU32(x0), AsU32(y0), color);
        if x0 == x1 && y0 == y1 {
          break;
        }
        x0, y0, error := StepCursor(st, dx, dy, sx, sy, x0, y0, error);
      }
    }

    /** The body of draw_line_inside's loop after the pixel is set: the error term decides
        whether x, y or both move one pixel towards the target. */
    static method StepCursor(ghost st: Stepper, dx: int, dy: int, sx: int, sy: int, x0: int, y0: int, error: int)
        returns (x: int, y: int, e: int)
      requires st.dx == dx && st.dy == dy && st.sx == sx && st.sy == sy
      requires OnCourse(st, Cursor(x0, y0, error)) && !AtTarget(st, Cursor(x0, y0, error))
      ensures Cursor(x, y, e) == Advance(st, Cursor(x0, y0, error))
    {
      x, y, e := x0, y0, error;
      var e2 := 2 * error;
      if e2 >= dy {
        e := e + dy;
        x := x + sx;
      }
      if e2 <= dx {
        e := e + dx;
        y := y + sy;
      }
      AdvanceUpdates(st, Cursor(x0, y0, error), x, y, e);
    }

    /** draw_line, as written: clips when an endpoint is outside, then draws whatever the
        clipping left, accepted or not. */
    method DrawLine(p1: ScreenPoint, p2: ScreenPoint, color: Colour)
      requires Valid()
      modifies data
      ensures data[..] == PaintPixels(old(data[..]), width, height, LinePixels(width, height, p1, p2), Stored(color))
      ensures Outcode(width, height, p1) | Outcode(width, height, p2) == INSIDE ==>
        data[..] == PaintPixels(old(data[..]), width, height,
                                BresenhamLine(Round(p1.x), Round(p1.y), Round(p2.x), Round(p2.y)), Stored(color))
    {
      var outcode1 := ComputeOutcode(width, height, p1.x, p1.y);
      var outcode2 := ComputeOutcode(width, height, p2.x, p2.y);
      if outcode1 | outcode2 == INSIDE {
        DrawLineInside(p1, p2, color);
      } else {
        var _, q1, q2 := ClipLine(p1, p2, outcode1, outcode2);
        DrawLineInside(q1, q2, color);
      }
    }

    /** draw_line, corrected: a segment clipping rejects leaves the buffer untouched. */
    method DrawLineClipped(p1: ScreenPoint, p2: ScreenPoint, color: Colour)
      requires Valid()
      modifies data
      ensures !Clipped(width, height, p1, p2).accepted ==> data[..] == old(data[..])
      ensures Clipped(width, height, p1, p2).accepted ==>
        data[..] == PaintPixels(old(data[..]), width, height, LinePixels(width, height, p1, p2), Stored(color))
    {
      var outcode1 := ComputeOutcode(width, height, p1.x, p1.y);
      var outcode2 := ComputeOutcode(width, height, p2.x, p2.y);
      var accepted, q1, q2 := ClipLine(p1, p2, outcode1, outcode2);
      if accepted {
        DrawLineInside(q1, q2, color);
      }
    }

    /** clear: every pixel becomes zero. */
    method Clear()
      modifies data
      ensures data[..] == seq(data.Length, _ => 0)
    {
      forall i | 0 <= i < data.Length {
        data[i] := 0;
      }
    }
  }
}
