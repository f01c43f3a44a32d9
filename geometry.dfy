/** Point-to-segment distance (pointToLineDistance) and the slice hit test,
    over exact reals. Distances are compared squared: for non-negative a, b,
    `a < b` holds exactly when `a * a < b * b`, so no square root is needed. */
module Geometry {

  datatype Point = Point(x: real, y: real)

  /** Extra reach added to a fruit's radius in the hit test. */
  const SliceMargin := 15

  function DistSq(a: Point, b: Point): real {
    (a.x - b.x) * (a.x - b.x) + (a.y - b.y) * (a.y - b.y)
  }

  /** `Math.max(0, Math.min(1, t))`. */
  function Clamp01(t: real): real {
    if 1.0 < t then 1.0 else if t < 0.0 then 0.0 else t
  }

  /** The point of the line through v and w at parameter t. */
  function Along(v: Point, w: Point, t: real): Point {
    Point(v.x + t * (w.x - v.x), v.y + t * (w.y - v.y))
  }

  /** `(p - v) . (w - v)`. */
  function Dot(p: Point, v: Point, w: Point): real {
    (p.x - v.x) * (w.x - v.x) + (p.y - v.y) * (w.y - v.y)
  }

  /** Squared distance from p to the segment [v, w]: project p on the line,
      clamp the parameter to [0, 1]; a zero-length segment is the point v. */
  function SegmentDistSq(p: Point, v: Point, w: Point): (d: real)
    ensures d >= 0.0
    ensures DistSq(v, w) == 0.0 ==> d == DistSq(p, v)
  {
    var l2 := DistSq(v, w);
    if l2 == 0.0 then DistSqNonneg(p, v); DistSq(p, v)
    else
      var q := Along(v, w, Clamp01(Dot(p, v, w) / l2));
      DistSqNonneg(p, q);
      DistSq(p, q)
  }

  /** `dist < radius + 15`, stated on squares. */
  predicate Hit(centre: Point, radius: nat, v: Point, w: Point) {
    SegmentDistSq(centre, v, w) < Reach(radius) * Reach(radius)
  }

  /** `radius + 15`. */
  function Reach(radius: nat): real {
    (radius + SliceMargin) as real
  }

  lemma SquareExpand(u: real, d: real, t: real)
    ensures (u - t * d) * (u - t * d) == u * u - 2.0 * t * (u * d) + t * t * (d * d)
  {
  }

  lemma SquareSwap(a: real, b: real)
    ensures (a - b) * (a - b) == (b - a) * (b - a)
  {
  }

  lemma Distribute(a: real, b: real, c: real)
    ensures a * (b + c) == a * b + a * c
  {
  }

  /** The expansion behind AlongDistSq, on coordinates. */
  lemma ExpandPlane(ux: real, uy: real, dx: real, dy: real, t: real)
    ensures (ux - t * dx) * (ux - t * dx) + (uy - t * dy) * (uy - t * dy)
         == (ux * ux + uy * uy) - 2.0 * t * (ux * dx + uy * dy) + t * t * (dx * dx + dy * dy)
  {
    SquareExpand(ux, dx, t);
    SquareExpand(uy, dy, t);
    Distribute(2.0 * t, ux * dx, uy * dy);
    Distribute(t * t, dx * dx, dy * dy);
  }

  /** The squared distance to the point at parameter t, on coordinates. */
  lemma AlongDistSqCoords(p: Point, v: Point, w: Point, t: real)
    ensures DistSq(p, Along(v, w, t))
         == ((p.x - v.x) - t * (w.x - v.x)) * ((p.x - v.x) - t * (w.x - v.x))
          + ((p.y - v.y) - t * (w.y - v.y)) * ((p.y - v.y) - t * (w.y - v.y))
  {
    var q := Along(v, w, t);
    assert p.x - q.x == (p.x - v.x) - t * (w.x - v.x);
    assert p.y - q.y == (p.y - v.y) - t * (w.y - v.y);
  }

  /** The right-hand side of AlongDistSq, on coordinates. */
  lemma QuadraticCoords(p: Point, v: Point, w: Point, t: real)
    ensures DistSq(p, v) - 2.0 * t * Dot(p, v, w) + t * t * DistSq(v, w)
         == ((p.x - v.x) * (p.x - v.x) + (p.y - v.y) * (p.y - v.y))
          - 2.0 * t * ((p.x - v.x) * (w.x - v.x) + (p.y - v.y) * (w.y - v.y))
          + t * t * ((w.x - v.x) * (w.x - v.x) + (w.y - v.y) * (w.y - v.y))
  {
    SquareSwap(v.x, w.x);
    SquareSwap(v.y, w.y);
  }

  /** Expansion of the squared distance to the point at parameter t. */
  lemma AlongDistSq(p: Point, v: Point, w: Point, t: real)
    ensures DistSq(p, Along(v, w, t)) == DistSq(p, v) - 2.0 * t * Dot(p, v, w) + t * t * DistSq(v, w)
  {
    AlongDistSqCoords(p, v, w, t);
    QuadraticCoords(p, v, w, t);
    ExpandPlane(p.x - v.x, p.y - v.y, w.x - v.x, w.y - v.y, t);
  }

  /** The squared distance from v to the point at parameter t. */
  lemma AlongFromStart(v: Point, w: Point, t: real)
    ensures DistSq(Along(v, w, t), v) == t * t * DistSq(v, w)
  {
    var dx, dy := w.x - v.x, w.y - v.y;
    assert v.x + t * dx - v.x == t * dx;
    assert v.y + t * dy - v.y == t * dy;
    assert (t * dx) * (t * dx) == t * t * (dx * dx);
    assert (t * dy) * (t * dy) == t * t * (dy * dy);
    assert (v.x - w.x) * (v.x - w.x) == dx * dx;
    assert (v.y - w.y) * (v.y - w.y) == dy * dy;
  }

  /** A point lying on the segment is at distance zero from it. */
  lemma OnSegmentIsAtZero(p: Point, v: Point, w: Point, s: real)
    requires 0.0 <= s <= 1.0
    requires p == Along(v, w, s)
    ensures SegmentDistSq(p, v, w) == 0.0
  {
    var l2 := DistSq(v, w);
    AlongFromStart(v, w, s);
    if l2 != 0.0 {
      var dx, dy := w.x - v.x, w.y - v.y;
      assert Dot(p, v, w) == (s * dx) * dx + (s * dy) * dy;
      assert Dot(p, v, w) == s * l2;
      assert Dot(p, v, w) / l2 == s;
    }
  }

  lemma MulNonneg(x: real, y: real)
    requires x >= 0.0 && y >= 0.0
    ensures x * y >= 0.0
  {
  }

  lemma MulPos(x: real, y: real)
    requires x > 0.0 && y > 0.0
    ensures x * y > 0.0
  {
  }

  lemma DistSqNonneg(a: Point, b: Point)
    ensures DistSq(a, b) >= 0.0
  {
    var dx, dy := a.x - b.x, a.y - b.y;
    if dx < 0.0 { MulNonneg(-dx, -dx); assert (-dx) * (-dx) == dx * dx; } else { MulNonneg(dx, dx); }
    if dy < 0.0 { MulNonneg(-dy, -dy); assert (-dy) * (-dy) == dy * dy; } else { MulNonneg(dy, dy); }
  }

  /** On a segment of positive length, f(t) = f0 - 2 t dot + t^2 l2 at the
      clamped minimiser is at most f(0) and at most f(1). */
  lemma ClampedQuadratic(f0: real, dot: real, l2: real)
    requires l2 > 0.0
    ensures var t := Clamp01(dot / l2);
      f0 - 2.0 * t * dot + t * t * l2 <= f0 &&
      f0 - 2.0 * t * dot + t * t * l2 <= f0 - 2.0 * dot + l2
  {
    var q := dot / l2;
    assert dot == q * l2;
    var t := Clamp01(q);
    if 1.0 < q {
      MulPos(q - 1.0, l2);
      assert (q - 1.0) * l2 == q * l2 - l2;
    } else if q < 0.0 {
      MulPos(-q, l2);
      assert (-q) * l2 == -(q * l2);
    } else {
      assert t == q;
      assert 2.0 * t * dot == 2.0 * (q * q * l2);
      MulNonneg(q * q, l2);
      MulNonneg((1.0 - q) * (1.0 - q), l2);
      assert (1.0 - q) * (1.0 - q) * l2 == l2 - 2.0 * (q * l2) + q * q * l2;
    }
  }

  /** The squared distance to the far end w, expanded from the near end v. */
  lemma FarEndDistSq(p: Point, v: Point, w: Point)
    ensures DistSq(p, w) == DistSq(p, v) - 2.0 * Dot(p, v, w) + DistSq(v, w)
  {
    AlongDistSq(p, v, w, 1.0);
    assert Along(v, w, 1.0) == w;
  }

  /** Past the speed gate (a segment of length at least 3), the clamped
      projection is never farther than either endpoint. */
  lemma SegmentNoFartherThanEnds(p: Point, v: Point, w: Point)
    requires DistSq(v, w) >= 9.0
    ensures 0.0 <= SegmentDistSq(p, v, w)
    ensures SegmentDistSq(p, v, w) <= DistSq(p, v)
    ensures SegmentDistSq(p, v, w) <= DistSq(p, w)
  {
    var l2 := DistSq(v, w);
    var dot := Dot(p, v, w);
    var t := Clamp01(dot / l2);
    var q := Along(v, w, t);
    assert SegmentDistSq(p, v, w) == DistSq(p, q);
    AlongDistSq(p, v, w, t);
    FarEndDistSq(p, v, w);
    DistSqNonneg(p, q);
    ClampedQuadratic(DistSq(p, v), dot, l2);
  }


  /** A sweep segment passing through the centre always hits. */
  lemma ThroughCentreHits(centre: Point, radius: nat, v: Point, w: Point, s: real)
    requires 0.0 <= s <= 1.0
    requires centre == Along(v, w, s)
    ensures Hit(centre, radius, v, w)
  {
    OnSegmentIsAtZero(centre, v, w, s);
  }

  /** A sample landing within reach of the centre is a hit, whatever the
      other end of the segment. */
  lemma EndpointWithinReachHits(centre: Point, radius: nat, v: Point, w: Point)
    requires DistSq(v, w) >= 9.0
    requires DistSq(centre, w) < Reach(radius) * Reach(radius)
    ensures Hit(centre, radius, v, w)
  {
    SegmentNoFartherThanEnds(centre, v, w);
  }
}
