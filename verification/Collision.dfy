/** Collision tests over exact real coordinates. A collider is a closed shape placed at a position. */
module Collision {
  import opened Prelude

  datatype Vec = Vec(x: real, y: real)
  datatype Rect = Rect(offset: Vec, halfW: real, halfH: real)
  datatype Circle = Circle(offset: Vec, radius: real)
  datatype Collider = NoCollider | RectCollider(rect: Rect) | CircleCollider(circle: Circle)

  function Abs(x: real): real { if x < 0.0 then -x else x }

  function Plus(a: Vec, b: Vec): Vec { Vec(a.x + b.x, a.y + b.y) }

  function DistSq(a: Vec, b: Vec): real {
    (a.x - b.x) * (a.x - b.x) + (a.y - b.y) * (a.y - b.y)
  }

  function Clamp(v: real, low: real, high: real): real {
    if v < low then low else if high < v then high else v
  }

  predicate IntersectsRect2D(posA: Vec, a: Rect, posB: Vec, b: Rect) {
    var ca, cb := Plus(posA, a.offset), Plus(posB, b.offset);
    Abs(ca.x - cb.x) <= a.halfW + b.halfW && Abs(ca.y - cb.y) <= a.halfH + b.halfH
  }

  predicate IntersectsCircle2D(posA: Vec, a: Circle, posB: Vec, b: Circle) {
    DistSq(Plus(posA, a.offset), Plus(posB, b.offset)) <= (a.radius + b.radius) * (a.radius + b.radius)
  }

  function Closest(center: Vec, rect: Rect, p: Vec): Vec {
    Vec(Clamp(p.x, center.x - rect.halfW, center.x + rect.halfW),
        Clamp(p.y, center.y - rect.halfH, center.y + rect.halfH))
  }

  predicate IntersectsRect2DCircle2D(posRect: Vec, rect: Rect, posCircle: Vec, circle: Circle) {
    var c := Plus(posCircle, circle.offset);
    DistSq(c, Closest(Plus(posRect, rect.offset), rect, c)) <= circle.radius * circle.radius
  }

  predicate Intersects(posA: Vec, a: Collider, posB: Vec, b: Collider) {
    match (a, b)
    case (NoCollider, _) => false
    case (_, NoCollider) => false
    case (RectCollider(ra), RectCollider(rb)) => IntersectsRect2D(posA, ra, posB, rb)
    case (CircleCollider(ca), CircleCollider(cb)) => IntersectsCircle2D(posA, ca, posB, cb)
    case (RectCollider(ra), CircleCollider(cb)) => IntersectsRect2DCircle2D(posA, ra, posB, cb)
    case (CircleCollider(ca), RectCollider(rb)) => IntersectsRect2DCircle2D(posB, rb, posA, ca)
  }

  // ------------------------------------------------------------------ the shapes themselves

  predicate InRect(center: Vec, r: Rect, p: Vec) {
    Abs(p.x - center.x) <= r.halfW && Abs(p.y - center.y) <= r.halfH
  }

  predicate InCircle(center: Vec, c: Circle, p: Vec) {
    DistSq(p, center) <= c.radius * c.radius
  }

  /** p lies in the closed shape of the collider placed at pos. */
  predicate Covers(pos: Vec, c: Collider, p: Vec) {
    match c
    case NoCollider => false
    case RectCollider(r) => InRect(Plus(pos, r.offset), r, p)
    case CircleCollider(k) => InCircle(Plus(pos, k.offset), k, p)
  }

  predicate Proper(c: Collider) {
    match c
    case NoCollider => true
    case RectCollider(r) => r.halfW >= 0.0 && r.halfH >= 0.0
    case CircleCollider(k) => k.radius >= 0.0
  }

  predicate Shared(posA: Vec, a: Collider, posB: Vec, b: Collider, p: Vec) {
    Covers(posA, a, p) && Covers(posB, b, p)
  }

  // ------------------------------------------------------------------ arithmetic

  lemma SquareMonotone(x: real, y: real)
    requires Abs(x) <= Abs(y)
    ensures x * x <= y * y
  {
    var a, b := Abs(x), Abs(y);
    assert a * a <= a * b && a * b <= b * b;
  }

  lemma SquareReflects(x: real, y: real)
    requires y >= 0.0 && x * x <= y * y
    ensures x <= y
  {
    if y < x { StrictSquare(y, x); }
  }

  lemma StrictSquare(x: real, y: real)
    requires 0.0 <= x < y
    ensures x * x < y * y
  {
    var d, s := y - x, y + x;
    Positive(d, s);
    assert y * y == x * x + d * s;
  }

  lemma Positive(a: real, b: real)
    requires a > 0.0 && b > 0.0
    ensures a * b > 0.0
  {
  }

  lemma Product(a: real, b: real, c: real, d: real)
    requires 0.0 <= a <= c && 0.0 <= b <= d
    ensures a * b <= c * d
  {
    assert a * b <= c * b;
    assert c * b <= c * d;
  }

  /** The inner product of two vectors is at most the product of bounds on their lengths. */
  lemma InnerProduct(ux: real, uy: real, vx: real, vy: real, r: real, s: real)
    requires r >= 0.0 && s >= 0.0
    requires ux * ux + uy * uy <= r * r && vx * vx + vy * vy <= s * s
    ensures ux * vx + uy * vy <= r * s
  {
    var dot, det := ux * vx + uy * vy, ux * vy - uy * vx;
    var uu, vv := ux * ux + uy * uy, vx * vx + vy * vy;
    Lagrange(ux, uy, vx, vy);
    assert uu >= 0.0 && vv >= 0.0 && det * det >= 0.0;
    Product(uu, vv, r * r, s * s);
    assert (r * r) * (s * s) == (r * s) * (r * s);
    SquareReflects(dot, r * s);
  }

  lemma Lagrange(ux: real, uy: real, vx: real, vy: real)
    ensures (ux * vx + uy * vy) * (ux * vx + uy * vy) + (ux * vy - uy * vx) * (ux * vy - uy * vx)
         == (ux * ux + uy * uy) * (vx * vx + vy * vy)
  {
  }

  /** The triangle inequality for squared lengths. */
  lemma Triangle(ux: real, uy: real, vx: real, vy: real, r: real, s: real)
    requires r >= 0.0 && s >= 0.0
    requires ux * ux + uy * uy <= r * r && vx * vx + vy * vy <= s * s
    ensures (ux + vx) * (ux + vx) + (uy + vy) * (uy + vy) <= (r + s) * (r + s)
  {
    InnerProduct(ux, uy, vx, vy, r, s);
    assert (ux + vx) * (ux + vx) + (uy + vy) * (uy + vy)
        == (ux * ux + uy * uy) + (vx * vx + vy * vy) + 2.0 * (ux * vx + uy * vy);
    assert (r + s) * (r + s) == r * r + s * s + 2.0 * (r * s);
  }

  // ------------------------------------------------------------------ each test decides overlap

  /** Two closed intervals of the line that overlap share this point. */
  lemma SharedOnAxis(a: real, ha: real, b: real, hb: real) returns (p: real)
    requires ha >= 0.0 && hb >= 0.0 && Abs(a - b) <= ha + hb
    ensures Abs(p - a) <= ha && Abs(p - b) <= hb
  {
    p := if a - ha < b - hb then b - hb else a - ha;
  }

  lemma RectsShare(posA: Vec, a: Rect, posB: Vec, b: Rect)
    requires Proper(RectCollider(a)) && Proper(RectCollider(b))
    ensures IntersectsRect2D(posA, a, posB, b)
       <==> exists p :: Shared(posA, RectCollider(a), posB, RectCollider(b), p)
  {
    var ca, cb := Plus(posA, a.offset), Plus(posB, b.offset);
    if IntersectsRect2D(posA, a, posB, b) {
      var x := SharedOnAxis(ca.x, a.halfW, cb.x, b.halfW);
      var y := SharedOnAxis(ca.y, a.halfH, cb.y, b.halfH);
      assert Shared(posA, RectCollider(a), posB, RectCollider(b), Vec(x, y));
    }
  }

  lemma CirclesShare(posA: Vec, a: Circle, posB: Vec, b: Circle)
    requires a.radius >= 0.0 && b.radius >= 0.0
    ensures IntersectsCircle2D(posA, a, posB, b)
       <==> exists p :: Shared(posA, CircleCollider(a), posB, CircleCollider(b), p)
  {
    hide Shared, IntersectsCircle2D;
    if IntersectsCircle2D(posA, a, posB, b) {
      var p := SharedOfCircles(posA, a, posB, b);
    }
    forall p | Shared(posA, CircleCollider(a), posB, CircleCollider(b), p)
      ensures IntersectsCircle2D(posA, a, posB, b)
    {
      CirclesOfShared(posA, a, posB, b, p);
    }
  }

  lemma CirclesOfShared(posA: Vec, a: Circle, posB: Vec, b: Circle, p: Vec)
    requires a.radius >= 0.0 && b.radius >= 0.0 && Shared(posA, CircleCollider(a), posB, CircleCollider(b), p)
    ensures IntersectsCircle2D(posA, a, posB, b)
  {
    var ca, cb := Plus(posA, a.offset), Plus(posB, b.offset);
    assert InCircle(ca, a, p) && InCircle(cb, b, p);
    hide DistSq;
    CentersOfSharedPoint(ca, a.radius, cb, b.radius, p);
  }

  lemma SharedOfCircles(posA: Vec, a: Circle, posB: Vec, b: Circle) returns (p: Vec)
    requires a.radius >= 0.0 && b.radius >= 0.0 && IntersectsCircle2D(posA, a, posB, b)
    ensures Shared(posA, CircleCollider(a), posB, CircleCollider(b), p)
  {
    var ca, cb := Plus(posA, a.offset), Plus(posB, b.offset);
    hide DistSq;
    p := BetweenCenters(ca, a.radius, cb, b.radius);
    assert InCircle(ca, a, p) && InCircle(cb, b, p);
  }

  lemma CentersOfSharedPoint(a: Vec, ra: real, b: Vec, rb: real, p: Vec)
    requires ra >= 0.0 && rb >= 0.0 && DistSq(p, a) <= ra * ra && DistSq(p, b) <= rb * rb
    ensures DistSq(a, b) <= (ra + rb) * (ra + rb)
  {
    var ux, uy, vx, vy := a.x - p.x, a.y - p.y, p.x - b.x, p.y - b.y;
    assert ux * ux + uy * uy == DistSq(p, a);
    Triangle(ux, uy, vx, vy, ra, rb);
    assert ux + vx == a.x - b.x && uy + vy == a.y - b.y;
  }

  /** The point a fraction t of the way from a to b. */
  function PointAt(a: Vec, b: Vec, t: real): Vec {
    Vec(a.x + t * (b.x - a.x), a.y + t * (b.y - a.y))
  }

  lemma PointAtFromOtherEnd(a: Vec, b: Vec, t: real)
    ensures PointAt(a, b, t) == PointAt(b, a, 1.0 - t)
  {
  }

  lemma PointAtDistance(a: Vec, b: Vec, t: real, r: real, near: real)
    requires DistSq(a, b) <= r * r && t * r == near
    ensures DistSq(PointAt(a, b, t), a) <= near * near
  {
    Scaled(t, b.x - a.x, b.y - a.y, r);
  }

  lemma DistSymmetric(a: Vec, b: Vec)
    ensures DistSq(a, b) == DistSq(b, a)
  {
  }

  lemma Fraction(ra: real, rb: real, t: real)
    requires ra + rb != 0.0 && t == ra / (ra + rb)
    ensures t * (ra + rb) == ra && (1.0 - t) * (ra + rb) == rb
  {
  }

  /** The point that divides the line between the centers in the ratio of the radii. */
  lemma BetweenCenters(a: Vec, ra: real, b: Vec, rb: real) returns (p: Vec)
    requires ra >= 0.0 && rb >= 0.0 && DistSq(a, b) <= (ra + rb) * (ra + rb)
    ensures DistSq(p, a) <= ra * ra && DistSq(p, b) <= rb * rb
  {
    if ra + rb == 0.0 {
      p := a;
    } else {
      var t := ra / (ra + rb);
      p := PointAt(a, b, t);
      Fraction(ra, rb, t);
      DistSymmetric(a, b);
      PointAtFromOtherEnd(a, b, t);
      PointAtDistance(a, b, t, ra + rb, ra);
      PointAtDistance(b, a, 1.0 - t, ra + rb, rb);
    }
  }

  lemma Scaled(t: real, dx: real, dy: real, r: real)
    requires dx * dx + dy * dy <= r * r
    ensures (t * dx) * (t * dx) + (t * dy) * (t * dy) <= (t * r) * (t * r)
  {
    var tt, gap := t * t, r * r - (dx * dx + dy * dy);
    NonNegative(tt, gap);
    assert (t * r) * (t * r) == (t * dx) * (t * dx) + (t * dy) * (t * dy) + tt * gap;
  }

  lemma NonNegative(a: real, b: real)
    requires a >= 0.0 && b >= 0.0
    ensures a * b >= 0.0
  {
  }

  lemma RectCircleShare(posRect: Vec, rect: Rect, posCircle: Vec, circle: Circle)
    requires Proper(RectCollider(rect)) && circle.radius >= 0.0
    ensures IntersectsRect2DCircle2D(posRect, rect, posCircle, circle)
       <==> exists p :: Shared(posRect, RectCollider(rect), posCircle, CircleCollider(circle), p)
  {
    var center, c := Plus(posRect, rect.offset), Plus(posCircle, circle.offset);
    var q := Closest(center, rect, c);
    if IntersectsRect2DCircle2D(posRect, rect, posCircle, circle) {
      assert DistSq(q, c) == DistSq(c, q);
      assert Shared(posRect, RectCollider(rect), posCircle, CircleCollider(circle), q);
    }
    forall p | Shared(posRect, RectCollider(rect), posCircle, CircleCollider(circle), p)
      ensures IntersectsRect2DCircle2D(posRect, rect, posCircle, circle)
    {
      NothingCloser(center, rect, c, p);
    }
  }

  lemma NothingCloser(center: Vec, rect: Rect, c: Vec, p: Vec)
    requires InRect(center, rect, p)
    ensures DistSq(c, Closest(center, rect, c)) <= DistSq(p, c)
  {
    var q := Closest(center, rect, c);
    ClampIsNearest(center.x, rect.halfW, c.x, p.x);
    ClampIsNearest(center.y, rect.halfH, c.y, p.y);
    hide Closest, Clamp, InRect;
    DistMonotone(c, q, p, c);
  }

  lemma ClampIsNearest(center: real, half: real, c: real, p: real)
    requires Abs(p - center) <= half
    ensures Abs(c - Clamp(c, center - half, center + half)) <= Abs(p - c)
  {
  }

  lemma DistMonotone(a: Vec, b: Vec, c: Vec, d: Vec)
    requires Abs(a.x - b.x) <= Abs(c.x - d.x) && Abs(a.y - b.y) <= Abs(c.y - d.y)
    ensures DistSq(a, b) <= DistSq(c, d)
  {
    SumMonotone(a.x - b.x, c.x - d.x, a.y - b.y, c.y - d.y);
  }

  lemma SumMonotone(x: real, x1: real, y: real, y1: real)
    requires Abs(x) <= Abs(x1) && Abs(y) <= Abs(y1)
    ensures x * x + y * y <= x1 * x1 + y1 * y1
  {
    SquareMonotone(x, x1);
    SquareMonotone(y, y1);
  }

  /** Every collision test is true exactly when the two closed shapes have a common point. */
  lemma IntersectsDecidesOverlap(posA: Vec, a: Collider, posB: Vec, b: Collider)
    requires Proper(a) && Proper(b)
    ensures Intersects(posA, a, posB, b) <==> exists p :: Shared(posA, a, posB, b, p)
  {
    match (a, b)
    case (NoCollider, _) =>
    case (_, NoCollider) =>
    case (RectCollider(ra), RectCollider(rb)) => RectsShare(posA, ra, posB, rb);
    case (CircleCollider(ca), CircleCollider(cb)) => CirclesShare(posA, ca, posB, cb);
    case (RectCollider(ra), CircleCollider(cb)) => RectCircleShare(posA, ra, posB, cb);
    case (CircleCollider(ca), RectCollider(rb)) =>
      RectCircleShare(posB, rb, posA, ca);
      forall p ensures Shared(posA, a, posB, b, p) <==> Shared(posB, b, posA, a, p) {
      }
  }

  lemma IntersectsSymmetric(posA: Vec, a: Collider, posB: Vec, b: Collider)
    ensures Intersects(posA, a, posB, b) <==> Intersects(posB, b, posA, a)
  {
    if a.CircleCollider? && b.CircleCollider? {
      var ca, cb := Plus(posA, a.circle.offset), Plus(posB, b.circle.offset);
      assert DistSq(ca, cb) == DistSq(cb, ca);
    }
  }

  /** The box of a directed attack. */
  function MakeBoxAttackCollider(range: real, halfHeight: real, dir: int): Collider {
    RectCollider(Rect(Vec((dir as real) * (range * 0.5), 0.0), range * 0.5, halfHeight))
  }

  /** It covers exactly what lies in front of the attacker, within range and height. */
  lemma BoxCoversFront(pos: Vec, range: real, halfHeight: real, dir: int, p: Vec)
    requires dir == 1 || dir == -1
    ensures Covers(pos, MakeBoxAttackCollider(range, halfHeight, dir), p)
       <==> 0.0 <= (p.x - pos.x) * (dir as real) <= range && Abs(p.y - pos.y) <= halfHeight
  {
  }

  // ------------------------------------------------------------------ distance cuts

  /** r is the circumscribed radius of a rectangle. */
  predicate IsSafeRadius(r: real, rect: Rect) {
    r >= 0.0 && r * r == rect.halfW * rect.halfW + rect.halfH * rect.halfH
  }

  /** Overlapping rectangles always have overlapping circumscribed circles around their centers. */
  lemma SafeRadiusDropsNothing(posA: Vec, a: Rect, ra: real, posB: Vec, b: Rect, rb: real)
    requires Proper(RectCollider(a)) && Proper(RectCollider(b))
    requires IsSafeRadius(ra, a) && IsSafeRadius(rb, b)
    requires IntersectsRect2D(posA, a, posB, b)
    ensures IntersectsCircle2D(posA, Circle(a.offset, ra), posB, Circle(b.offset, rb))
  {
    hide DistSq, IsSafeRadius, Proper;
    CentersWithinRadii(a, ra, b, rb, Plus(posA, a.offset), Plus(posB, b.offset));
  }

  lemma CentersWithinRadii(a: Rect, ra: real, b: Rect, rb: real, ca: Vec, cb: Vec)
    requires Proper(RectCollider(a)) && Proper(RectCollider(b))
    requires IsSafeRadius(ra, a) && IsSafeRadius(rb, b)
    requires Abs(ca.x - cb.x) <= a.halfW + b.halfW && Abs(ca.y - cb.y) <= a.halfH + b.halfH
    ensures DistSq(ca, cb) <= (ra + rb) * (ra + rb)
  {
    Triangle(a.halfW, a.halfH, b.halfW, b.halfH, ra, rb);
    WithinRadius(ca.x - cb.x, ca.y - cb.y, a.halfW + b.halfW, a.halfH + b.halfH, ra + rb);
  }

  lemma WithinRadius(dx: real, dy: real, w: real, h: real, r: real)
    requires Abs(dx) <= Abs(w) && Abs(dy) <= Abs(h) && w * w + h * h <= r * r
    ensures dx * dx + dy * dy <= r * r
  {
    SumMonotone(dx, w, dy, h);
  }
}
