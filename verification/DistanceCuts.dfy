/** Distance cuts: skipping the collision test of pairs that are too far apart. */
module DistanceCuts {
  import opened Collision

  /** Skipping pairs whose positions are farther apart than the limit loses no real hit. */
  ghost predicate CutIsSafe(a: Collider, b: Collider, limitSq: real) {
    forall posA, posB :: Intersects(posA, a, posB, b) ==> DistSq(posA, posB) <= limitSq
  }

  /** A coordinate at distance d on the side where the offsets help. */
  function Away(d: real, offsetA: real, offsetB: real): real {
    if offsetA <= offsetB then d else -d
  }

  function Square(x: real): real { x * x }

  lemma SameSquare(x: real, y: real)
    requires x == y || x == -y
    ensures x * x == y * y
  {
  }

  // ------------------------------------------------------------------ two rectangles

  /** How far apart two overlapping rectangles can be placed, squared. */
  function ReachSq(a: Rect, b: Rect): real {
    var w := a.halfW + b.halfW + Abs(a.offset.x - b.offset.x);
    var h := a.halfH + b.halfH + Abs(a.offset.y - b.offset.y);
    w * w + h * h
  }

  /** A distance cut on rectangles is safe exactly when its limit is at least that reach. */
  lemma RectCutIff(a: Rect, b: Rect, limitSq: real)
    requires Proper(RectCollider(a)) && Proper(RectCollider(b))
    ensures CutIsSafe(RectCollider(a), RectCollider(b), limitSq) <==> ReachSq(a, b) <= limitSq
  {
    if ReachSq(a, b) <= limitSq {
      forall posA, posB | Intersects(posA, RectCollider(a), posB, RectCollider(b)) ensures DistSq(posA, posB) <= limitSq {
        WithinReach(posA, a, posB, b);
      }
    }
    if CutIsSafe(RectCollider(a), RectCollider(b), limitSq) {
      var posA, posB := FarthestHit(a, b);
      assert Intersects(posA, RectCollider(a), posB, RectCollider(b));
    }
  }

  lemma WithinReach(posA: Vec, a: Rect, posB: Vec, b: Rect)
    requires IntersectsRect2D(posA, a, posB, b)
    ensures DistSq(posA, posB) <= ReachSq(a, b)
  {
    var w := a.halfW + b.halfW + Abs(a.offset.x - b.offset.x);
    var h := a.halfH + b.halfH + Abs(a.offset.y - b.offset.y);
    assert Abs(posA.x - posB.x) <= w && Abs(posA.y - posB.y) <= h;
    hide Abs, IntersectsRect2D;
    WithinBox(posA.x - posB.x, posA.y - posB.y, w, h);
  }

  lemma WithinBox(dx: real, dy: real, w: real, h: real)
    requires Abs(dx) <= w && Abs(dy) <= h
    ensures dx * dx + dy * dy <= w * w + h * h
  {
    SumMonotone(dx, w, dy, h);
  }

  lemma FarthestHit(a: Rect, b: Rect) returns (posA: Vec, posB: Vec)
    requires Proper(RectCollider(a)) && Proper(RectCollider(b))
    ensures IntersectsRect2D(posA, a, posB, b) && DistSq(posA, posB) == ReachSq(a, b)
  {
    var w := a.halfW + b.halfW + Abs(a.offset.x - b.offset.x);
    var h := a.halfH + b.halfH + Abs(a.offset.y - b.offset.y);
    posA := Vec(Away(w, a.offset.x, b.offset.x), Away(h, a.offset.y, b.offset.y));
    posB := Vec(0.0, 0.0);
    SameSquare(posA.x, w);
    SameSquare(posA.y, h);
  }

  // ------------------------------------------------------------------ a rectangle and a circle

  /** How far the rectangle's corners reach from the circle's position, seen from its center. */
  function Span(a: Rect, b: Circle): Vec {
    Vec(a.halfW + Abs(b.offset.x - a.offset.x), a.halfH + Abs(b.offset.y - a.offset.y))
  }

  /** s is the length of that span. */
  predicate IsSpan(s: real, a: Rect, b: Circle) {
    s >= 0.0 && Square(s) == Square(Span(a, b).x) + Square(Span(a, b).y)
  }

  /** A distance cut between a rectangle and a circle is safe exactly when its limit is at least
      the square of the span plus the radius. */
  lemma CircleCutIff(a: Rect, b: Circle, s: real, limitSq: real)
    requires Proper(RectCollider(a)) && Proper(CircleCollider(b)) && IsSpan(s, a, b)
    ensures CutIsSafe(RectCollider(a), CircleCollider(b), limitSq) <==> Square(s + b.radius) <= limitSq
  {
    if Square(s + b.radius) <= limitSq {
      forall posA, posB | Intersects(posA, RectCollider(a), posB, CircleCollider(b)) ensures DistSq(posA, posB) <= limitSq {
        WithinSpan(posA, a, posB, b, s);
      }
    }
    if CutIsSafe(RectCollider(a), CircleCollider(b), limitSq) {
      var posA, posB := FarthestCircleHit(a, b, s);
      assert Intersects(posA, RectCollider(a), posB, CircleCollider(b));
    }
  }

  /** From the circle to the closest point is at most the radius, from there on at most the span. */
  lemma WithinSpan(posA: Vec, a: Rect, posB: Vec, b: Circle, s: real)
    requires Proper(RectCollider(a)) && Proper(CircleCollider(b)) && IsSpan(s, a, b)
    requires IntersectsRect2DCircle2D(posA, a, posB, b)
    ensures DistSq(posA, posB) <= Square(s + b.radius)
  {
    var center, c := Plus(posA, a.offset), Plus(posB, b.offset);
    var q := Closest(center, a, c);
    var ux, uy := center.x - q.x + b.offset.x - a.offset.x, center.y - q.y + b.offset.y - a.offset.y;
    ClampIsInside(center.x, a.halfW, c.x);
    ClampIsInside(center.y, a.halfH, c.y);
    AbsSum(center.x - q.x, b.offset.x - a.offset.x);
    AbsSum(center.y - q.y, b.offset.y - a.offset.y);
    DistSymmetric(q, c);
    assert ux + (q.x - c.x) == posA.x - posB.x && uy + (q.y - c.y) == posA.y - posB.y;
    var span := Span(a, b);
    hide Abs, Closest, Clamp;
    SpanThenRadius(ux, uy, q, c, span, s, b.radius, posA, posB);
  }

  lemma ClampIsInside(center: real, half: real, c: real)
    requires half >= 0.0
    ensures Abs(center - Clamp(c, center - half, center + half)) <= half
  {
  }

  lemma AbsSum(x: real, y: real)
    ensures Abs(x + y) <= Abs(x) + Abs(y)
  {
  }

  lemma SpanThenRadius(ux: real, uy: real, q: Vec, c: Vec, span: Vec, s: real, r: real, posA: Vec, posB: Vec)
    requires Abs(ux) <= span.x && Abs(uy) <= span.y && DistSq(q, c) <= r * r
    requires s >= 0.0 && r >= 0.0 && Square(s) == Square(span.x) + Square(span.y)
    requires ux + (q.x - c.x) == posA.x - posB.x && uy + (q.y - c.y) == posA.y - posB.y
    ensures DistSq(posA, posB) <= Square(s + r)
  {
    WithinBox(ux, uy, span.x, span.y);
    Triangle(ux, uy, q.x - c.x, q.y - c.y, s, r);
  }

  /** A vector of length r in the direction of (w, h), whose length is s. */
  lemma Extended(w: real, h: real, s: real, r: real) returns (vx: real, vy: real)
    requires w >= 0.0 && h >= 0.0 && s >= 0.0 && r >= 0.0 && s * s == w * w + h * h
    ensures vx >= 0.0 && vy >= 0.0 && vx * vx + vy * vy == r * r
    ensures (w + vx) * (w + vx) + (h + vy) * (h + vy) == (s + r) * (s + r)
  {
    if s == 0.0 {
      NoSpan(w, h, s * s);
      vx, vy := r, 0.0;
    } else {
      var t := r / s;
      vx, vy := t * w, t * h;
      Product(0.0, 0.0, t, w);
      Product(0.0, 0.0, t, h);
      assert t * s == r;
      Stretched(w, h, s, t, vx, vy, r);
    }
  }

  lemma NoSpan(w: real, h: real, q: real)
    requires w >= 0.0 && h >= 0.0 && w * w + h * h == q && q == 0.0
    ensures w == 0.0 && h == 0.0
  {
    var ww, hh := w * w, h * h;
    Sign(w, w, ww);
    Sign(h, h, hh);
  }

  lemma Sign(a: real, b: real, p: real)
    requires a >= 0.0 && b >= 0.0 && p == a * b
    ensures p >= 0.0
    ensures a > 0.0 && b > 0.0 ==> p > 0.0
  {
  }

  lemma Stretched(w: real, h: real, s: real, t: real, vx: real, vy: real, r: real)
    requires s * s == w * w + h * h && vx == t * w && vy == t * h && r == t * s
    ensures vx * vx + vy * vy == r * r
    ensures (w + vx) * (w + vx) + (h + vy) * (h + vy) == (s + r) * (s + r)
  {
    assert r * r == t * t * (s * s) && vx * vx + vy * vy == t * t * (w * w + h * h);
    assert w * vx + h * vy == t * (w * w + h * h) && s * r == t * (s * s);
    assert (w + vx) * (w + vx) + (h + vy) * (h + vy) == w * w + h * h + 2.0 * (w * vx + h * vy) + (vx * vx + vy * vy);
    assert (s + r) * (s + r) == s * s + 2.0 * (s * r) + r * r;
  }

  /** The circle touches the corner of the rectangle from behind. */
  lemma FarthestCircleHit(a: Rect, b: Circle, s: real) returns (posA: Vec, posB: Vec)
    requires Proper(RectCollider(a)) && Proper(CircleCollider(b)) && IsSpan(s, a, b)
    ensures IntersectsRect2DCircle2D(posA, a, posB, b) && DistSq(posA, posB) == Square(s + b.radius)
  {
    var span := Span(a, b);
    var vx, vy := Extended(span.x, span.y, s, b.radius);
    var center := Vec(Away(a.halfW + vx, a.offset.x, b.offset.x), Away(a.halfH + vy, a.offset.y, b.offset.y));
    posA := Vec(center.x - a.offset.x, center.y - a.offset.y);
    posB := Vec(-b.offset.x, -b.offset.y);
    var c := Plus(posB, b.offset);
    assert Plus(posA, a.offset) == center && c == Vec(0.0, 0.0);
    var q := Closest(center, a, c);
    assert Abs(q.x) == vx && Abs(q.y) == vy;
    assert Abs(posA.x - posB.x) == span.x + vx && Abs(posA.y - posB.y) == span.y + vy;
    SameSquare(c.x - q.x, vx);
    SameSquare(c.y - q.y, vy);
    SameSquare(posA.x - posB.x, span.x + vx);
    SameSquare(posA.y - posB.y, span.y + vy);
  }

  // ------------------------------------------------------------------ the contact check

  function RectToRadiusFast(halfW: real, halfH: real): real {
    if halfW < halfH then halfH else halfW
  }

  function MakeContactRadiusSq(a: Rect, b: Rect, extra: real): real {
    var r := RectToRadiusFast(a.halfW, a.halfH) + RectToRadiusFast(b.halfW, b.halfH) + extra;
    r * r
  }

  /** The cut with the fast radius, the larger half side of each rectangle plus the extra, is safe
      exactly if the corners of the two rectangles do not reach farther. */
  lemma FastCutSafeIff(a: Rect, b: Rect, extra: real)
    requires Proper(RectCollider(a)) && Proper(RectCollider(b))
    ensures
      var largerA := if a.halfW > a.halfH then a.halfW else a.halfH;
      var largerB := if b.halfW > b.halfH then b.halfW else b.halfH;
      CutIsSafe(RectCollider(a), RectCollider(b), MakeContactRadiusSq(a, b, extra)) <==>
      ReachSq(a, b) <= (largerA + largerB + extra) * (largerA + largerB + extra)
  {
    RectCutIff(a, b, MakeContactRadiusSq(a, b, extra));
    hide CutIsSafe, ReachSq;
  }

  /** The fast radius alone does lose hits: two unit squares that touch at a corner. */
  lemma FastRadiusLosesHit() returns (r: Rect)
    ensures Proper(RectCollider(r)) && !CutIsSafe(RectCollider(r), RectCollider(r), MakeContactRadiusSq(r, r, 0.0))
  {
    r := Rect(Vec(0.0, 0.0), 1.0, 1.0);
    RectCutIff(r, r, MakeContactRadiusSq(r, r, 0.0));
  }

  /** The player's collider and the limit of the contact check. */
  const PLAYER: Rect := Rect(Vec(0.0, 2.0), 12.0, 14.0)
  const CONTACT_LIMIT_SQ: real := 1000.0

  /** A span and a radius, both squared, add up to at most the limit; stated without roots. */
  predicate SumFits(spanSq: real, radiusSq: real) {
    var rest := CONTACT_LIMIT_SQ - spanSq - radiusSq;
    rest >= 0.0 && 4.0 * spanSq * radiusSq <= rest * rest
  }

  /** The monster is small enough for the limit. */
  predicate SmallEnough(monster: Collider) {
    match monster
    case NoCollider => true
    case RectCollider(m) =>
      var w := 12.0 + m.halfW + Abs(m.offset.x);
      var h := 14.0 + m.halfH + Abs(m.offset.y - 2.0);
      w * w + h * h <= CONTACT_LIMIT_SQ
    case CircleCollider(m) =>
      var w := 12.0 + Abs(m.offset.x);
      var h := 14.0 + Abs(m.offset.y - 2.0);
      SumFits(Square(w) + Square(h), Square(m.radius))
  }

  lemma WithoutRoots(s: real, r: real, spanSq: real)
    requires s >= 0.0 && r >= 0.0 && Square(s) == spanSq
    ensures Square(s + r) <= CONTACT_LIMIT_SQ <==> SumFits(spanSq, Square(r))
  {
    var rest, double := CONTACT_LIMIT_SQ - spanSq - r * r, 2.0 * (s * r);
    NonNegative(s, r);
    assert (s + r) * (s + r) == s * s + r * r + double;
    FourProducts(s, r, spanSq);
    CompareSquares(double, rest);
  }

  lemma FourProducts(s: real, r: real, spanSq: real)
    requires s * s == spanSq
    ensures (2.0 * (s * r)) * (2.0 * (s * r)) == 4.0 * spanSq * (r * r)
  {
    assert (2.0 * (s * r)) * (2.0 * (s * r)) == 4.0 * ((s * s) * (r * r));
  }

  lemma CompareSquares(x: real, y: real)
    requires x >= 0.0
    ensures x <= y <==> y >= 0.0 && x * x <= y * y
  {
    if x <= y { SquareMonotone(x, y); }
    if y >= 0.0 && x * x <= y * y { SquareReflects(x, y); }
  }

  /** The contact check of a map skips no monster that touches the player if and only if the
      monster is small enough, whatever its shape. */
  lemma ContactCutSafeIff(monster: Collider, s: real)
    requires Proper(monster)
    requires monster.CircleCollider? ==> IsSpan(s, PLAYER, monster.circle)
    ensures CutIsSafe(RectCollider(PLAYER), monster, CONTACT_LIMIT_SQ) <==> SmallEnough(monster)
  {
    hide Square, SumFits, Abs, Span;
    match monster
    case NoCollider =>
    case RectCollider(m) => ContactCutOfRect(m);
    case CircleCollider(m) => ContactCutOfCircle(m, s);
  }

  lemma ContactCutOfRect(m: Rect)
    requires Proper(RectCollider(m))
    ensures CutIsSafe(RectCollider(PLAYER), RectCollider(m), CONTACT_LIMIT_SQ) <==> SmallEnough(RectCollider(m))
  {
    hide CutIsSafe;
    RectCutIff(PLAYER, m, CONTACT_LIMIT_SQ);
  }

  lemma ContactCutOfCircle(m: Circle, s: real)
    requires m.radius >= 0.0 && IsSpan(s, PLAYER, m)
    ensures CutIsSafe(RectCollider(PLAYER), CircleCollider(m), CONTACT_LIMIT_SQ) <==> SmallEnough(CircleCollider(m))
  {
    CircleCutIff(PLAYER, m, s, CONTACT_LIMIT_SQ);
    var w, h := 12.0 + Abs(m.offset.x), 14.0 + Abs(m.offset.y - 2.0);
    assert Span(PLAYER, m) == Vec(w, h);
    hide CutIsSafe, Abs, SumFits, Square;
    WithoutRoots(s, m.radius, Square(w) + Square(h));
  }

  /** None of the three monsters that come with the server is small enough. */
  lemma ShippedMonstersAreSkipped(monster: Rect)
    requires || monster == Rect(Vec(0.0, 12.0), 18.0, 12.0)
             || monster == Rect(Vec(2.0, 16.0), 20.0, 18.0)
             || monster == Rect(Vec(0.0, 28.0), 30.0, 30.0)
    ensures !CutIsSafe(RectCollider(PLAYER), RectCollider(monster), CONTACT_LIMIT_SQ)
  {
    ContactCutSafeIff(RectCollider(monster), 0.0);
  }

  /** Nor is a circle of radius 20 around its position. */
  lemma RoundMonsterIsSkipped()
    ensures !CutIsSafe(RectCollider(PLAYER), CircleCollider(Circle(Vec(0.0, 0.0), 20.0)), CONTACT_LIMIT_SQ)
  {
    ContactCutSafeIff(CircleCollider(Circle(Vec(0.0, 0.0), 20.0)), 20.0);
  }
}
