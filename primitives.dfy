/** The barycentric helper of a screen-space triangle: Cramer's rule on the normal
    equations of the two edges from the first vertex, with the dot products and the
    reciprocal of the denominator precomputed when the triangle is built. */
module Primitives {
  import opened Space
  import opened RealArith

  datatype Option<T> = None | Some(value: T)

  /** The three vertices, A, B and C in this order. */
  type Points3 = s: seq<ScreenPoint> | |s| == 3
    witness [ScreenPoint(0.0, 0.0), ScreenPoint(0.0, 0.0), ScreenPoint(0.0, 0.0)]

  const POINT_A_IDX: nat := 0
  const POINT_B_IDX: nat := 1
  const POINT_C_IDX: nat := 2

  /** A reciprocal as barycentric inspects it: infinite or a finite value. */
  datatype Recip = Finite(value: real) | Infinite

  /** f32::recip over exact reals: the reciprocal of zero is infinite, every other one is finite. */
  function Reciprocal(x: real): (r: Recip)
    ensures r.Infinite? <==> x == 0.0
    ensures r.Finite? ==> r.value * x == 1.0
  {
    if x == 0.0 then Infinite else Finite(1.0 / x)
  }

  datatype BarycentricPrecomputes = BarycentricPrecomputes(
    abEdge: ScreenVector,
    acEdge: ScreenVector,
    dotAb: real,
    dotAc: real,
    dotAbAc: real,
    cramerDenominatorInv: Recip)

  datatype PolygonPoints2 = PolygonPoints2(points: Points3, barycentricPrecomputes: BarycentricPrecomputes)

  /** Barycentric weights (u, v, w) of A, B and C. */
  datatype Weights = Weights(u: real, v: real, w: real)

  /** The axis-aligned rectangle of glamour: a corner and a non-negative extent. */
  datatype Rect = Rect(origin: ScreenPoint, size: ScreenVector)

  /** The three vertices lie on one line (or coincide): the edges from A are parallel. */
  predicate Collinear(points: Points3)
  {
    Cross(Minus(points[POINT_B_IDX], points[POINT_A_IDX]), Minus(points[POINT_C_IDX], points[POINT_A_IDX])) == 0.0
  }

  function Sum(uvw: Weights): real
  {
    uvw.u + uvw.v + uvw.w
  }

  predicate NonNegative(uvw: Weights)
  {
    uvw.u >= 0.0 && uvw.v >= 0.0 && uvw.w >= 0.0
  }

  /** The point with the given weights of the three vertices. */
  function Combine(points: Points3, uvw: Weights): ScreenPoint
  {
    var a, b, c := points[POINT_A_IDX], points[POINT_B_IDX], points[POINT_C_IDX];
    ScreenPoint(uvw.u * a.x + uvw.v * b.x + uvw.w * c.x, uvw.u * a.y + uvw.v * b.y + uvw.w * c.y)
  }

  // ---------------------------------------------------------------------------
  // PolygonPoints2::new, barycentric, bounding_box
  // ---------------------------------------------------------------------------

  /** PolygonPoints2::new: the Cramer denominator dot_ab * dot_ac - dot_ab_ac^2 is the square of
      the edges' cross product, so its reciprocal is infinite exactly for a degenerate triangle. */
  function New(points: Points3): (t: PolygonPoints2)
    ensures t.points == points
    ensures t.barycentricPrecomputes.cramerDenominatorInv.Infinite? <==> Collinear(points)
    ensures var pre := t.barycentricPrecomputes;
      pre.cramerDenominatorInv.Finite? ==>
        pre.cramerDenominatorInv.value * (pre.dotAb * pre.dotAc - pre.dotAbAc * pre.dotAbAc) == 1.0
  {
    var abEdge := Minus(points[POINT_B_IDX], points[POINT_A_IDX]);
    var acEdge := Minus(points[POINT_C_IDX], points[POINT_A_IDX]);
    var dotAb := Dot(abEdge, abEdge);
    var dotAc := Dot(acEdge, acEdge);
    var dotAbAc := Dot(abEdge, acEdge);
    DenominatorVanishes(abEdge, acEdge);
    var cramerDenominatorInv := Reciprocal(dotAb * dotAc - dotAbAc * dotAbAc);
    PolygonPoints2(points, BarycentricPrecomputes(abEdge, acEdge, dotAb, dotAc, dotAbAc, cramerDenominatorInv))
  }

  /** The weights barycentric computes before its sign test. */
  function RawWeights(t: PolygonPoints2, probePoint: ScreenPoint): (r: Weights)
    requires t.barycentricPrecomputes.cramerDenominatorInv.Finite?
    ensures r.u + r.v + r.w == 1.0
  {
    var pre := t.barycentricPrecomputes;
    var apVec := Minus(probePoint, t.points[POINT_A_IDX]);
    var dotApAb := Dot(apVec, pre.abEdge);
    var dotApAc := Dot(apVec, pre.acEdge);
    var v := (pre.dotAc * dotApAb - pre.dotAbAc * dotApAc) * pre.cramerDenominatorInv.value;
    var w := (pre.dotAb * dotApAc - pre.dotAbAc * dotApAb) * pre.cramerDenominatorInv.value;
    Weights(1.0 - v - w, v, w)
  }

  /** PolygonPoints2::barycentric: None for a degenerate triangle whatever the probe; otherwise
      the weights when all three are non-negative, and None when one is negative. */
  function Barycentric(t: PolygonPoints2, probePoint: ScreenPoint): (r: Option<Weights>)
    ensures t.barycentricPrecomputes.cramerDenominatorInv.Infinite? ==> r == None
    ensures r.Some? ==> Sum(r.value) == 1.0 && NonNegative(r.value)
  {
    if t.barycentricPrecomputes.cramerDenominatorInv.Infinite? then
      None
    else
      var uvw := RawWeights(t, probePoint);
      if uvw.u >= 0.0 && uvw.v >= 0.0 && uvw.w >= 0.0 then Some(uvw) else None
  }

  function Min3(a: real, b: real, c: real): real
  {
    if a <= b && a <= c then a else if b <= c then b else c
  }

  function Max3(a: real, b: real, c: real): real
  {
    if a >= b && a >= c then a else if b >= c then b else c
  }

  /** PolygonPoints2::bounding_box: the smallest rectangle holding the three vertices. */
  function BoundingBox(t: PolygonPoints2): (r: Rect)
    ensures r.size.x >= 0.0 && r.size.y >= 0.0
    ensures forall i :: 0 <= i < 3 ==>
      r.origin.x <= t.points[i].x <= r.origin.x + r.size.x &&
      r.origin.y <= t.points[i].y <= r.origin.y + r.size.y
    ensures exists i :: 0 <= i < 3 && t.points[i].x == r.origin.x
    ensures exists i :: 0 <= i < 3 && t.points[i].y == r.origin.y
    ensures exists i :: 0 <= i < 3 && t.points[i].x == r.origin.x + r.size.x
    ensures exists i :: 0 <= i < 3 && t.points[i].y == r.origin.y + r.size.y
  {
    var a, b, c := t.points[POINT_A_IDX], t.points[POINT_B_IDX], t.points[POINT_C_IDX];
    var lo := ScreenPoint(Min3(a.x, b.x, c.x), Min3(a.y, b.y, c.y));
    var hi := ScreenPoint(Max3(a.x, b.x, c.x), Max3(a.y, b.y, c.y));
    Rect(lo, Minus(hi, lo))
  }

  // ---------------------------------------------------------------------------
  // What the weights mean
  // ---------------------------------------------------------------------------

  /** For a proper triangle the computed weights sum to one and reproduce the probe point. */
  lemma BarycentricReconstructs(points: Points3, probePoint: ScreenPoint)
    requires !Collinear(points)
    ensures Sum(RawWeights(New(points), probePoint)) == 1.0
    ensures Combine(points, RawWeights(New(points), probePoint)) == probePoint
  {
    var a, b, c, p := points[POINT_A_IDX], points[POINT_B_IDX], points[POINT_C_IDX], probePoint;
    var v, w := RawWeightsSolve(points, p);
    var uvw := Weights(1.0 - v - w, v, w);
    AffineCombination(a.x, b.x, c.x, p.x, uvw);
    AffineCombination(a.y, b.y, c.y, p.y, uvw);
  }

  /** The weights of B and C solve ap == v ab + w ac, and the weight of A makes the sum one. */
  lemma RawWeightsSolve(points: Points3, probePoint: ScreenPoint) returns (v: real, w: real)
    requires !Collinear(points)
    ensures RawWeights(New(points), probePoint) == Weights(1.0 - v - w, v, w)
    ensures v * (points[POINT_B_IDX].x - points[POINT_A_IDX].x) + w * (points[POINT_C_IDX].x - points[POINT_A_IDX].x)
         == probePoint.x - points[POINT_A_IDX].x
    ensures v * (points[POINT_B_IDX].y - points[POINT_A_IDX].y) + w * (points[POINT_C_IDX].y - points[POINT_A_IDX].y)
         == probePoint.y - points[POINT_A_IDX].y
  {
    var pre := New(points).barycentricPrecomputes;
    v, w := CramerVectors(pre.abEdge, pre.acEdge, Minus(probePoint, points[POINT_A_IDX]), pre.cramerDenominatorInv.value);
  }

  /** For a proper triangle, weights summing to one that reproduce the probe point are the
      computed ones. */
  lemma WeightsUnique(points: Points3, probePoint: ScreenPoint, uvw: Weights)
    requires !Collinear(points)
    requires Sum(uvw) == 1.0 && Combine(points, uvw) == probePoint
    ensures RawWeights(New(points), probePoint) == uvw
  {
    var a, b, c := points[POINT_A_IDX], points[POINT_B_IDX], points[POINT_C_IDX];
    var raw := RawWeights(New(points), probePoint);
    BarycentricReconstructs(points, probePoint);
    AffineDifference(a.x, b.x, c.x, probePoint.x, raw, uvw);
    AffineDifference(a.y, b.y, c.y, probePoint.y, raw, uvw);
    Independent(b.x - a.x, b.y - a.y, c.x - a.x, c.y - a.y, raw.v - uvw.v, raw.w - uvw.w);
  }

  /** barycentric returns Some(uvw) exactly when the triangle is proper and uvw are non-negative
      weights summing to one that reproduce the probe: the probe lies in the closed triangle. */
  lemma BarycentricCharacterised(points: Points3, probePoint: ScreenPoint, uvw: Weights)
    ensures Barycentric(New(points), probePoint) == Some(uvw) <==>
      !Collinear(points) && Sum(uvw) == 1.0 && NonNegative(uvw) && Combine(points, uvw) == probePoint
  {
    if !Collinear(points) {
      BarycentricReconstructs(points, probePoint);
      if Sum(uvw) == 1.0 && Combine(points, uvw) == probePoint {
        WeightsUnique(points, probePoint, uvw);
      }
    }
  }

  /** The vertices of a proper triangle get the unit weights. */
  lemma VertexWeights(points: Points3)
    requires !Collinear(points)
    ensures Barycentric(New(points), points[POINT_A_IDX]) == Some(Weights(1.0, 0.0, 0.0))
    ensures Barycentric(New(points), points[POINT_B_IDX]) == Some(Weights(0.0, 1.0, 0.0))
    ensures Barycentric(New(points), points[POINT_C_IDX]) == Some(Weights(0.0, 0.0, 1.0))
  {
    var a, b, c := points[POINT_A_IDX], points[POINT_B_IDX], points[POINT_C_IDX];
    assert Barycentric(New(points), a) == Some(Weights(1.0, 0.0, 0.0)) by {
      UnitWeights(a.x, b.x, c.x);
      UnitWeights(a.y, b.y, c.y);
      assert Combine(points, Weights(1.0, 0.0, 0.0)) == a;
      BarycentricCharacterised(points, a, Weights(1.0, 0.0, 0.0));
    }
    assert Barycentric(New(points), b) == Some(Weights(0.0, 1.0, 0.0)) by {
      UnitWeights(a.x, b.x, c.x);
      UnitWeights(a.y, b.y, c.y);
      assert Combine(points, Weights(0.0, 1.0, 0.0)) == b;
      BarycentricCharacterised(points, b, Weights(0.0, 1.0, 0.0));
    }
    assert Barycentric(New(points), c) == Some(Weights(0.0, 0.0, 1.0)) by {
      UnitWeights(a.x, b.x, c.x);
      UnitWeights(a.y, b.y, c.y);
      assert Combine(points, Weights(0.0, 0.0, 1.0)) == c;
      BarycentricCharacterised(points, c, Weights(0.0, 0.0, 1.0));
    }
  }

  lemma UnitWeights(a: real, b: real, c: real)
    ensures 1.0 * a + 0.0 * b + 0.0 * c == a
    ensures 0.0 * a + 1.0 * b + 0.0 * c == b
    ensures 0.0 * a + 0.0 * b + 1.0 * c == c
  {
  }

  // ---------------------------------------------------------------------------
  // Algebra over plain coordinates
  // ---------------------------------------------------------------------------

  /** Lagrange's identity in the plane: |u|^2 |v|^2 - (u . v)^2 == (u x v)^2. */
  lemma LagrangeIdentity(ux: real, uy: real, vx: real, vy: real)
    ensures (ux * ux + uy * uy) * (vx * vx + vy * vy) - (ux * vx + uy * vy) * (ux * vx + uy * vy)
         == (ux * vy - uy * vx) * (ux * vy - uy * vx)
  {
  }

  /** The Cramer denominator of two edges vanishes exactly when they are parallel. */
  lemma DenominatorVanishes(ab: ScreenVector, ac: ScreenVector)
    ensures Dot(ab, ab) * Dot(ac, ac) - Dot(ab, ac) * Dot(ab, ac) == 0.0 <==> Cross(ab, ac) == 0.0
  {
    DegenerateDenominator(ab.x, ab.y, ac.x, ac.y);
  }

  /** Cramer's rule on the normal equations, stated over the edge vectors. */
  lemma CramerVectors(ab: ScreenVector, ac: ScreenVector, ap: ScreenVector, inv: real) returns (v: real, w: real)
    requires inv * (Dot(ab, ab) * Dot(ac, ac) - Dot(ab, ac) * Dot(ab, ac)) == 1.0
    ensures v == (Dot(ac, ac) * Dot(ap, ab) - Dot(ab, ac) * Dot(ap, ac)) * inv
    ensures w == (Dot(ab, ab) * Dot(ap, ac) - Dot(ab, ac) * Dot(ap, ab)) * inv
    ensures v * ab.x + w * ac.x == ap.x && v * ab.y + w * ac.y == ap.y
  {
    v, w := CramerSolution(ab.x, ab.y, ac.x, ac.y, ap.x, ap.y,
                           Dot(ab, ab), Dot(ac, ac), Dot(ab, ac), Dot(ap, ab), Dot(ap, ac), inv);
  }

  /** The Cramer denominator vanishes exactly when the edges are parallel. */
  lemma DegenerateDenominator(ux: real, uy: real, vx: real, vy: real)
    ensures (ux * ux + uy * uy) * (vx * vx + vy * vy) - (ux * vx + uy * vy) * (ux * vx + uy * vy) == 0.0
        <==> ux * vy - uy * vx == 0.0
  {
    LagrangeIdentity(ux, uy, vx, vy);
    if ux * vy - uy * vx != 0.0 {
      ProductNonzero((ux * ux + uy * uy) * (vx * vx + vy * vy) - (ux * vx + uy * vy) * (ux * vx + uy * vy),
        ux * vy - uy * vx, ux * vy - uy * vx);
    }
  }

  /** Cramer's rule on the normal equations of the edges ab and ac solves ap = v ab + w ac:
      the dot products are taken as given, with their definitions as preconditions. */
  lemma CramerSolution(abx: real, aby: real, acx: real, acy: real, apx: real, apy: real,
                       dAb: real, dAc: real, dAbAc: real, pAb: real, pAc: real, inv: real)
      returns (v: real, w: real)
    requires dAb == abx * abx + aby * aby && dAc == acx * acx + acy * acy && dAbAc == abx * acx + aby * acy
    requires pAb == apx * abx + apy * aby && pAc == apx * acx + apy * acy
    requires inv * (dAb * dAc - dAbAc * dAbAc) == 1.0
    ensures v == (dAc * pAb - dAbAc * pAc) * inv
    ensures w == (dAb * pAc - dAbAc * pAb) * inv
    ensures v * abx + w * acx == apx && v * aby + w * acy == apy
  {
    var x := abx * acy - aby * acx;
    var cv, cw := apx * acy - apy * acx, abx * apy - aby * apx;
    CramerNumerators(abx, aby, acx, acy, apx, apy, dAb, dAc, dAbAc, pAb, pAc, x, cv, cw);
    v := (dAc * pAb - dAbAc * pAc) * inv;
    w := (dAb * pAc - dAbAc * pAb) * inv;
    CrossSolve(abx, aby, acx, acy, apx, apy, x, inv, v, w);
  }

  /** The Cramer denominator is the squared cross product of the edges, and each numerator is
      the cross product of the probe offset with an edge times that cross product. */
  lemma CramerNumerators(abx: real, aby: real, acx: real, acy: real, apx: real, apy: real,
                         dAb: real, dAc: real, dAbAc: real, pAb: real, pAc: real, x: real, cv: real, cw: real)
    requires dAb == abx * abx + aby * aby && dAc == acx * acx + acy * acy && dAbAc == abx * acx + aby * acy
    requires pAb == apx * abx + apy * aby && pAc == apx * acx + apy * acy
    requires x == abx * acy - aby * acx && cv == apx * acy - apy * acx && cw == abx * apy - aby * apx
    ensures dAb * dAc - dAbAc * dAbAc == x * x
    ensures dAc * pAb - dAbAc * pAc == cv * x
    ensures dAb * pAc - dAbAc * pAb == cw * x
  {
    DenominatorSquare(abx, aby, acx, acy, dAb, dAc, dAbAc, x);
    NumeratorV(abx, aby, acx, acy, apx, apy, dAbAc, dAc, pAb, pAc, x, cv);
    NumeratorW(abx, aby, acx, acy, apx, apy, dAb, dAbAc, pAb, pAc, x, cw);
  }

  lemma DenominatorSquare(abx: real, aby: real, acx: real, acy: real, dAb: real, dAc: real, dAbAc: real, x: real)
    requires dAb == abx * abx + aby * aby && dAc == acx * acx + acy * acy && dAbAc == abx * acx + aby * acy
    requires x == abx * acy - aby * acx
    ensures dAb * dAc - dAbAc * dAbAc == x * x
  {
  }

  lemma NumeratorV(abx: real, aby: real, acx: real, acy: real, apx: real, apy: real,
                   dAbAc: real, dAc: real, pAb: real, pAc: real, x: real, cv: real)
    requires dAc == acx * acx + acy * acy && dAbAc == abx * acx + aby * acy
    requires pAb == apx * abx + apy * aby && pAc == apx * acx + apy * acy
    requires x == abx * acy - aby * acx && cv == apx * acy - apy * acx
    ensures dAc * pAb - dAbAc * pAc == cv * x
  {
  }

  lemma NumeratorW(abx: real, aby: real, acx: real, acy: real, apx: real, apy: real,
                   dAb: real, dAbAc: real, pAb: real, pAc: real, x: real, cw: real)
    requires dAb == abx * abx + aby * aby && dAbAc == abx * acx + aby * acy
    requires pAb == apx * abx + apy * aby && pAc == apx * acx + apy * acy
    requires x == abx * acy - aby * acx && cw == abx * apy - aby * apx
    ensures dAb * pAc - dAbAc * pAb == cw * x
  {
  }

  lemma CrossSolve(abx: real, aby: real, acx: real, acy: real, apx: real, apy: real,
                   x: real, inv: real, v: real, w: real)
    requires x == abx * acy - aby * acx && inv * (x * x) == 1.0
    requires v == ((apx * acy - apy * acx) * x) * inv
    requires w == ((abx * apy - aby * apx) * x) * inv
    ensures v * abx + w * acx == apx && v * aby + w * acy == apy
  {
    var k := x * inv;
    assert k * x == 1.0;
    assert v == (apx * acy - apy * acx) * k;
    assert w == (abx * apy - aby * apx) * k;
    assert (apx * acy - apy * acx) * abx + (abx * apy - aby * apx) * acx == apx * x;
    assert (apx * acy - apy * acx) * aby + (abx * apy - aby * apx) * acy == apy * x;
  }

  /** Weights summing to one: the combination is the first vertex plus the weighted edges. */
  lemma AffineCombination(a: real, b: real, c: real, p: real, uvw: Weights)
    requires Sum(uvw) == 1.0 && uvw.v * (b - a) + uvw.w * (c - a) == p - a
    ensures uvw.u * a + uvw.v * b + uvw.w * c == p
  {
  }

  /** Two weight triples summing to one that give the same coordinate differ by weighted edges
      that cancel. */
  lemma AffineDifference(a: real, b: real, c: real, p: real, r: Weights, s: Weights)
    requires Sum(r) == 1.0 && Sum(s) == 1.0
    requires r.u * a + r.v * b + r.w * c == p && s.u * a + s.v * b + s.w * c == p
    ensures (r.v - s.v) * (b - a) + (r.w - s.w) * (c - a) == 0.0
  {
  }

  /** Edges with a nonzero cross product are linearly independent. */
  lemma Independent(abx: real, aby: real, acx: real, acy: real, s: real, t: real)
    requires abx * acy - aby * acx != 0.0
    requires s * abx + t * acx == 0.0 && s * aby + t * acy == 0.0
    ensures s == 0.0 && t == 0.0
  {
    assert s * (abx * acy - aby * acx) == (s * abx) * acy - (s * aby) * acx;
    assert t * (abx * acy - aby * acx) == abx * (t * acy) - aby * (t * acx);
  }
}
