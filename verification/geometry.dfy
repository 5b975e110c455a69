/** Rays, balls and the ray–ball tests of the ray caster: `closestPoint`,
    `intersects` and `intersection`, plus a corrected variant of the last one.
 */
module Geometry {
  import opened Vectors

  datatype Ray = Ray(origin: Vec3, direction: Vec3)

  /** Channel values are plain integers, as in the source's `Color`. */
  datatype Color = Color(r: int, g: int, b: int)

  datatype Ball = Ball(center: Vec3, radius: real, color: Color)

  /** The source returns a `(success, distance, point)` triple and uses
      `{}` (all zero) for a miss; only the success case carries data. */
  datatype Hit = Miss | HitAt(distance: real, point: Vec3)

  /** The point `origin + direction * t` of the ray's line. */
  function PointAt(ray: Ray, t: real): Vec3 {
    Add(ray.origin, Scale(ray.direction, t))
  }

  /** `closestPoint`: projects `p` onto the ray's line. For a unit direction
      the vector from the returned point to `p` is orthogonal to the ray. */
  function ClosestPoint(ray: Ray, p: Vec3): (r: (real, Vec3))
    ensures r.1 == PointAt(ray, r.0)
    ensures Dot(ray.direction, ray.direction) == 1.0 ==>
              Dot(Sub(p, r.1), ray.direction) == 0.0
  {
    var t := Dot(ray.direction, Sub(p, ray.origin));
    ProjectionOrthogonal(ray, p, t);
    (t, PointAt(ray, t))
  }

  lemma ProjectionOrthogonal(ray: Ray, p: Vec3, t: real)
    requires t == Dot(ray.direction, Sub(p, ray.origin))
    ensures Dot(ray.direction, ray.direction) == 1.0 ==>
              Dot(Sub(p, PointAt(ray, t)), ray.direction) == 0.0
  {
    var d := ray.direction;
    var e := Scale(d, t);
    assert Sub(p, PointAt(ray, t)) == Sub(Sub(p, ray.origin), e);
    DotSubLeft(Sub(p, ray.origin), e, d);
    DotScaleLeft(d, t, d);
    DotSymmetric(Sub(p, ray.origin), d);
  }

  /** The projection parameter of `p` on the ray. */
  function Projection(ray: Ray, p: Vec3): real {
    ClosestPoint(ray, p).0
  }

  /** Squared distance from the ball's centre to the ray's line, measured at
      the projected point (`closest_distance_squared` and
      `radial_distance_squared` in the source). */
  function RadialSquared(ray: Ray, ball: Ball): real {
    LengthSquared(Sub(ClosestPoint(ray, ball.center).1, ball.center))
  }

  /** `p` lies strictly inside the ball. */
  predicate Inside(ball: Ball, p: Vec3) {
    LengthSquared(Sub(p, ball.center)) < ball.radius * ball.radius
  }

  /** For a unit direction, the squared distance from `p` to the point at
      parameter `s` is the squared distance at the projection plus the
      square of how far `s` lies from it. */
  lemma {:induction false} DistanceAlongRay(ray: Ray, p: Vec3, s: real)
    requires Dot(ray.direction, ray.direction) == 1.0
    ensures LengthSquared(Sub(p, PointAt(ray, s)))
         == LengthSquared(Sub(p, ClosestPoint(ray, p).1)) + (s - Projection(ray, p)) * (s - Projection(ray, p))
  {
    var (t, c) := ClosestPoint(ray, p);
    var d := ray.direction;
    var u := Sub(p, c);
    SubPointShift(p, ray.origin, d, s, t);
    PythagorasSub(u, d, s - t);
  }

  /** Moving along the line from parameter `t` to `s`. */
  lemma SubPointShift(p: Vec3, o: Vec3, d: Vec3, s: real, t: real)
    ensures Sub(p, Add(o, Scale(d, s))) == Sub(Sub(p, Add(o, Scale(d, t))), Scale(d, s - t))
  {
    assert d.x * (s - t) == d.x * s - d.x * t;
    assert d.y * (s - t) == d.y * s - d.y * t;
    assert d.z * (s - t) == d.z * s - d.z * t;
  }

  /** For a unit direction no point of the ray's line is nearer to `p` than
      the projected point. */
  lemma {:induction false} ClosestPointIsNearest(ray: Ray, p: Vec3, s: real)
    requires Dot(ray.direction, ray.direction) == 1.0
    ensures LengthSquared(Sub(p, PointAt(ray, s))) >= LengthSquared(Sub(p, ClosestPoint(ray, p).1))
  {
    DistanceAlongRay(ray, p, s);
    SquareGap(LengthSquared(Sub(p, PointAt(ray, s))), LengthSquared(Sub(p, ClosestPoint(ray, p).1)),
              s - Projection(ray, p));
  }

  lemma SquareGap(l: real, q: real, k: real)
    requires l == q + k * k
    ensures l >= q
  {
  }

  /** `intersects`: the ball's centre projects strictly in front of the
      origin and the projected point lies strictly inside the ball. */
  predicate Intersects(ball: Ball, ray: Ray) {
    var (t, closest) := ClosestPoint(ray, ball.center);
    t > 0.0 && LengthSquared(Sub(closest, ball.center)) < ball.radius * ball.radius
  }

  /** For a unit direction, `intersects` holds exactly when the centre
      projects in front of the origin and some point of the ray's line lies
      strictly inside the ball. */
  lemma IntersectsIffLineEntersBall(ball: Ball, ray: Ray)
    requires Dot(ray.direction, ray.direction) == 1.0
    ensures Intersects(ball, ray) <==>
              Projection(ray, ball.center) > 0.0 && exists s :: Inside(ball, PointAt(ray, s))
  {
    var (t, c) := ClosestPoint(ray, ball.center);
    if Intersects(ball, ray) {
      LengthSquaredSubSymmetric(c, ball.center);
      assert Inside(ball, PointAt(ray, t));
    }
    if t > 0.0 && exists s :: Inside(ball, PointAt(ray, s)) {
      var s :| Inside(ball, PointAt(ray, s));
      ClosestPointIsNearest(ray, ball.center, s);
      LengthSquaredSubSymmetric(PointAt(ray, s), ball.center);
      LengthSquaredSubSymmetric(c, ball.center);
    }
  }

  lemma LengthSquaredSubSymmetric(a: Vec3, b: Vec3)
    ensures LengthSquared(Sub(a, b)) == LengthSquared(Sub(b, a))
  {
  }

  /** `radius² − q·q` where `q` is the squared radial distance: the source
      squares the already squared distance. */
  function OffsetSquared(ray: Ray, ball: Ball): real {
    var q := RadialSquared(ray, ball);
    ball.radius * ball.radius - q * q
  }

  /** `intersection`, as written: rejects only a negative projection, then
      rejects a negative `OffsetSquared`, and otherwise steps back from the
      projection by `sqrt(OffsetSquared)`. */
  function Intersection(ray: Ray, ball: Ball, sqrt: real -> real): (h: Hit)
    ensures h.Miss? <==> Projection(ray, ball.center) < 0.0 || OffsetSquared(ray, ball) < 0.0
    ensures h.HitAt? ==> h.point == PointAt(ray, h.distance)
    ensures h.HitAt? && IsSquareRoot(sqrt) ==>
              && h.distance <= Projection(ray, ball.center)
              && (Projection(ray, ball.center) - h.distance) * (Projection(ray, ball.center) - h.distance)
                 == OffsetSquared(ray, ball)
  {
    var t := Projection(ray, ball.center);
    if t < 0.0 then Miss
    else
      var offsetSquared := OffsetSquared(ray, ball);
      if offsetSquared < 0.0 then Miss
      else
        var s := sqrt(offsetSquared);
        assert t - (t - s) == s;
        HitAt(t - s, PointAt(ray, t - s))
  }

  /** A projection of exactly zero is not rejected by `intersection`, but the
      distance it reports is then never positive. */
  lemma ZeroProjectionHitIsNotForward(ray: Ray, ball: Ball, sqrt: real -> real)
    requires IsSquareRoot(sqrt)
    requires Projection(ray, ball.center) == 0.0
    requires OffsetSquared(ray, ball) >= 0.0
    ensures Intersection(ray, ball, sqrt).HitAt?
    ensures Intersection(ray, ball, sqrt).distance <= 0.0
  {
  }

  /** The ray of the counterexample below: from the origin along +y. */
  const CrossingRay: Ray := Ray(Zero, Vec3(0.0, 1.0, 0.0))

  /** Centre of the counterexample's ball: 1.5 to the side at depth 10. */
  const CrossingCenter: Vec3 := Vec3(1.5, 10.0, 0.0)

  /** The double squaring makes `intersection` miss a ray that passes
      straight through a ball: `CrossingRay` and a ball of radius 2 at
      `CrossingCenter`. The point (0, 10, 0) of the ray is inside the ball,
      yet the squared radial distance 2.25, squared again, exceeds 4. */
  lemma AsWrittenMissesCrossingRay(sqrt: real -> real, color: Color)
    ensures Intersection(CrossingRay, Ball(CrossingCenter, 2.0, color), sqrt).Miss?
    ensures Inside(Ball(CrossingCenter, 2.0, color), PointAt(CrossingRay, 10.0))
  {
    CrossingOffset(color);
    CrossingInside(color);
  }

  // The facts about the crossing ray below are proved one per lemma: the
  // solver's arithmetic on these literals does not finish when they share
  // one proof.

  lemma CrossingOffset(color: Color)
    ensures OffsetSquared(CrossingRay, Ball(CrossingCenter, 2.0, color)) < 0.0
  {
    CrossingRadial(color);
  }

  lemma CrossingInside(color: Color)
    ensures Inside(Ball(CrossingCenter, 2.0, color), PointAt(CrossingRay, 10.0))
  {
    CrossingClosest();
    CrossingGap();
  }

  lemma CrossingProjection()
    ensures Projection(CrossingRay, CrossingCenter) == 10.0
  {
    assert Sub(CrossingCenter, Zero) == Vec3(1.5, 10.0, 0.0);
    assert Dot(Vec3(0.0, 1.0, 0.0), Vec3(1.5, 10.0, 0.0)) == 10.0;
  }

  lemma CrossingClosest()
    ensures PointAt(CrossingRay, 10.0) == Vec3(0.0, 10.0, 0.0)
    ensures ClosestPoint(CrossingRay, CrossingCenter).1 == Vec3(0.0, 10.0, 0.0)
  {
    CrossingProjection();
    assert PointAt(CrossingRay, 10.0) == Vec3(0.0, 10.0, 0.0);
  }

  lemma CrossingGap()
    ensures LengthSquared(Sub(Vec3(0.0, 10.0, 0.0), CrossingCenter)) == 2.25
  {
    CrossingGapVector();
    CrossingGapLength();
  }

  lemma CrossingGapVector()
    ensures Sub(Vec3(0.0, 10.0, 0.0), Vec3(1.5, 10.0, 0.0)) == Vec3(-1.5, 0.0, 0.0)
  {
  }

  lemma CrossingGapLength()
    ensures LengthSquared(Vec3(-1.5, 0.0, 0.0)) == 2.25
  {
  }

  lemma CrossingRadial(color: Color)
    ensures RadialSquared(CrossingRay, Ball(CrossingCenter, 2.0, color)) == 2.25
  {
    CrossingClosest();
    CrossingGap();
  }

  /** The crossing ray has a unit direction, the ball's centre projects in
      front of its origin, it passes through the ball at parameter 10, and
      its origin lies outside the ball. */
  lemma CrossingGeometry(color: Color)
    ensures EntersFromOutside(CrossingRay, Ball(CrossingCenter, 2.0, color), 10.0)
  {
    CrossingUnit();
    CrossingProjection();
    CrossingInside(color);
    CrossingOrigin();
  }

  lemma CrossingUnit()
    ensures Dot(CrossingRay.direction, CrossingRay.direction) == 1.0
  {
    assert CrossingRay.direction == Vec3(0.0, 1.0, 0.0);
  }

  lemma CrossingOrigin()
    ensures LengthSquared(Sub(CrossingRay.origin, CrossingCenter)) == 102.25
  {
    assert Sub(CrossingRay.origin, CrossingCenter) == Vec3(-1.5, -10.0, 0.0);
  }

  /** `intersection` with the radial distance squared once, as the geometry
      of a ray–sphere intersection requires. */
  function IntersectionCorrected(ray: Ray, ball: Ball, sqrt: real -> real): (h: Hit)
    ensures h.Miss? <==>
              Projection(ray, ball.center) < 0.0 || RadialSquared(ray, ball) > ball.radius * ball.radius
    ensures h.HitAt? ==> h.point == PointAt(ray, h.distance)
  {
    var t := Projection(ray, ball.center);
    if t < 0.0 then Miss
    else
      var offsetSquared := ball.radius * ball.radius - RadialSquared(ray, ball);
      if offsetSquared < 0.0 then Miss
      else
        var s := sqrt(offsetSquared);
        HitAt(t - s, PointAt(ray, t - s))
  }

  /** A corrected hit steps back from the projection by the square root of
      `r² − q`, `q` being the squared radial distance. */
  lemma CorrectedHitDistance(ray: Ray, ball: Ball, sqrt: real -> real)
    requires IsSquareRoot(sqrt)
    requires IntersectionCorrected(ray, ball, sqrt).HitAt?
    ensures var h := IntersectionCorrected(ray, ball, sqrt);
            && h.distance <= Projection(ray, ball.center)
            && (Projection(ray, ball.center) - h.distance) * (Projection(ray, ball.center) - h.distance)
               == ball.radius * ball.radius - RadialSquared(ray, ball)
  {
    var t := Projection(ray, ball.center);
    var s := sqrt(ball.radius * ball.radius - RadialSquared(ray, ball));
    assert t - (t - s) == s;
  }

  /** For a unit direction the corrected hit point lies on the sphere. */
  lemma {:induction false} CorrectedHitIsOnSphere(ray: Ray, ball: Ball, sqrt: real -> real)
    requires IsSquareRoot(sqrt)
    requires Dot(ray.direction, ray.direction) == 1.0
    requires IntersectionCorrected(ray, ball, sqrt).HitAt?
    ensures var h := IntersectionCorrected(ray, ball, sqrt);
            LengthSquared(Sub(h.point, ball.center)) == ball.radius * ball.radius
  {
    CorrectedHitDistance(ray, ball, sqrt);
    PointOnSphere(ray, ball, IntersectionCorrected(ray, ball, sqrt).distance);
  }

  /** For a unit direction, the point of the line whose parameter lies a
      squared step of `r² − q` from the projection is at distance `r` from
      the centre (`q` being the squared radial distance). */
  lemma {:induction false} PointOnSphere(ray: Ray, ball: Ball, d: real)
    requires Dot(ray.direction, ray.direction) == 1.0
    requires (Projection(ray, ball.center) - d) * (Projection(ray, ball.center) - d)
             == ball.radius * ball.radius - RadialSquared(ray, ball)
    ensures LengthSquared(Sub(PointAt(ray, d), ball.center)) == ball.radius * ball.radius
  {
    var t := Projection(ray, ball.center);
    var c := ClosestPoint(ray, ball.center).1;
    DistanceAlongRay(ray, ball.center, d);
    LengthSquaredSubSymmetric(PointAt(ray, d), ball.center);
    LengthSquaredSubSymmetric(c, ball.center);
    StepBackOnSphere(LengthSquared(Sub(PointAt(ray, d), ball.center)), LengthSquared(Sub(c, ball.center)),
                     d, t, ball.radius * ball.radius);
  }

  /** Arithmetic core of the on-sphere fact. */
  lemma StepBackOnSphere(l: real, q: real, d: real, t: real, rr: real)
    requires l == q + (d - t) * (d - t)
    requires (t - d) * (t - d) == rr - q
    ensures l == rr
  {
    assert (t - d) * (t - d) == (d - t) * (d - t);
  }

  /** For a unit direction, the corrected test reports a hit whenever the
      centre does not project behind the origin and some point of the ray's
      line lies inside the ball — the case the as-written test can miss. */
  lemma {:induction false} CorrectedFindsCrossingRay(ray: Ray, ball: Ball, sqrt: real -> real, s: real)
    requires Dot(ray.direction, ray.direction) == 1.0
    requires Projection(ray, ball.center) >= 0.0
    requires Inside(ball, PointAt(ray, s))
    ensures IntersectionCorrected(ray, ball, sqrt).HitAt?
  {
    ClosestPointIsNearest(ray, ball.center, s);
    LengthSquaredSubSymmetric(PointAt(ray, s), ball.center);
    LengthSquaredSubSymmetric(ClosestPoint(ray, ball.center).1, ball.center);
  }

  /** For a unit direction and an origin outside the ball, a corrected hit
      lies strictly in front of the origin. */
  lemma {:induction false} CorrectedHitFromOutsideIsForward(ray: Ray, ball: Ball, sqrt: real -> real)
    requires IsSquareRoot(sqrt)
    requires Dot(ray.direction, ray.direction) == 1.0
    requires LengthSquared(Sub(ray.origin, ball.center)) > ball.radius * ball.radius
    requires IntersectionCorrected(ray, ball, sqrt).HitAt?
    ensures IntersectionCorrected(ray, ball, sqrt).distance > 0.0
  {
    var t := Projection(ray, ball.center);
    var d := IntersectionCorrected(ray, ball, sqrt).distance;
    CorrectedHitDistance(ray, ball, sqrt);
    DistanceAlongRay(ray, ball.center, 0.0);
    assert PointAt(ray, 0.0) == ray.origin;
    LengthSquaredSubSymmetric(ray.origin, ball.center);
    LengthSquaredSubSymmetric(ClosestPoint(ray, ball.center).1, ball.center);
    ForwardFromOutside(LengthSquared(Sub(ray.origin, ball.center)), RadialSquared(ray, ball),
                       ball.radius * ball.radius, t, d);
  }

  /** Arithmetic core: with the origin at squared distance `l = q + t²`
      beyond `r²`, a step back of `t − d` with `(t − d)² = r² − q` from a
      non-negative `t` stops short of the origin. */
  lemma ForwardFromOutside(l: real, q: real, rr: real, t: real, d: real)
    requires l == q + (0.0 - t) * (0.0 - t) && l > rr
    requires (t - d) * (t - d) == rr - q
    requires 0.0 <= t && d <= t
    ensures d > 0.0
  {
    if d <= 0.0 {
      SquareGrows(t, t - d);
    }
  }

  /** Squares grow with non-negative bases. */
  lemma SquareGrows(t: real, e: real)
    requires 0.0 <= t <= e
    ensures e * e >= (0.0 - t) * (0.0 - t)
  {
    assert e * e >= t * e >= t * t;
  }

  /** A ray with a unit direction that starts outside `ball`, sees its
      centre ahead, and passes inside it at parameter `s`. */
  ghost predicate EntersFromOutside(ray: Ray, ball: Ball, s: real) {
    && Dot(ray.direction, ray.direction) == 1.0
    && Projection(ray, ball.center) >= 0.0
    && Inside(ball, PointAt(ray, s))
    && LengthSquared(Sub(ray.origin, ball.center)) > ball.radius * ball.radius
  }

  /** The corrected test hits, in front of the origin, every ball a ray
      enters from outside. */
  lemma CorrectedHitsBallAhead(ray: Ray, ball: Ball, sqrt: real -> real, s: real)
    requires IsSquareRoot(sqrt)
    requires EntersFromOutside(ray, ball, s)
    ensures IntersectionCorrected(ray, ball, sqrt).HitAt?
    ensures IntersectionCorrected(ray, ball, sqrt).distance > 0.0
  {
    CorrectedFindsCrossingRay(ray, ball, sqrt, s);
    CorrectedHitFromOutsideIsForward(ray, ball, sqrt);
  }

  /** Which ray–ball test the pixel loop applies: the program's own
      `intersection`, or the corrected one. */
  datatype BallTest = AsWritten | Corrected

  /** The hit that the chosen test reports for one ball. */
  function TestBall(test: BallTest, ray: Ray, ball: Ball, sqrt: real -> real): Hit {
    match test
    case AsWritten => Intersection(ray, ball, sqrt)
    case Corrected => IntersectionCorrected(ray, ball, sqrt)
  }
}
