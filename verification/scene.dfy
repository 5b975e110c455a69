/** The nearest-hit scan of the ray caster's pixel loop: every ball is
    intersected with the pixel's ray, a hit counts only when `intersection`
    succeeds with a strictly positive distance, and a strictly smaller
    distance replaces the current best, so the earliest ball wins ties.
 */
module Scene {
  import opened Vectors
  import opened Geometry
  import opened Optional

  /** A hit the scan accepts: `success && distance > 0`. */
  predicate Usable(h: Hit) {
    h.HitAt? && h.distance > 0.0
  }

  /** No hit among the first `n` is usable. */
  predicate NoneUsable(hits: seq<Hit>, n: nat)
    requires n <= |hits|
  {
    forall j :: 0 <= j < n ==> !Usable(hits[j])
  }

  /** Among the first `n` hits, `k` is usable, no usable hit is nearer, and
      every usable hit before `k` is strictly farther. */
  predicate FirstNearest(hits: seq<Hit>, n: nat, k: nat)
    requires n <= |hits|
  {
    && k < n
    && Usable(hits[k])
    && (forall j :: 0 <= j < n && Usable(hits[j]) ==> hits[k].distance <= hits[j].distance)
    && (forall j :: 0 <= j < k && Usable(hits[j]) ==> hits[k].distance < hits[j].distance)
  }

  /** One step of the scan: position `i` replaces the winner when its hit is
      usable and strictly nearer. The step keeps the scan's invariant and
      leaves the scan's final answer unchanged. */
  function Advance(hits: seq<Hit>, i: nat, best: Option<nat>): Option<nat>
    requires i < |hits|
    requires best.Some? ==> best.value < |hits| && Usable(hits[best.value])
  {
    if Usable(hits[i]) && (best.None? || hits[i].distance < hits[best.value].distance) then Some(i) else best
  }

  /** The scan from position `i` on, with `best` the winner so far. */
  function ScanFrom(hits: seq<Hit>, i: nat, best: Option<nat>): (r: Option<nat>)
    requires i <= |hits|
    requires best.None? ==> NoneUsable(hits, i)
    requires best.Some? ==> FirstNearest(hits, i, best.value)
    ensures r.None? ==> NoneUsable(hits, |hits|)
    ensures r.Some? ==> FirstNearest(hits, |hits|, r.value)
    decreases |hits| - i
  {
    if i == |hits| then best else ScanFrom(hits, i + 1, Advance(hits, i, best))
  }

  lemma ScanStep(hits: seq<Hit>, i: nat, best: Option<nat>)
    requires i < |hits|
    requires best.None? ==> NoneUsable(hits, i)
    requires best.Some? ==> FirstNearest(hits, i, best.value)
    ensures Advance(hits, i, best).None? ==> NoneUsable(hits, i + 1)
    ensures Advance(hits, i, best).Some? ==> FirstNearest(hits, i + 1, Advance(hits, i, best).value)
    ensures ScanFrom(hits, i + 1, Advance(hits, i, best)) == ScanFrom(hits, i, best)
  {
  }

  /** The index of the ball the scan picks, if any. */
  function Nearest(hits: seq<Hit>): (r: Option<nat>)
    ensures r.None? <==> NoneUsable(hits, |hits|)
    ensures r.Some? ==> FirstNearest(hits, |hits|, r.value)
  {
    ScanFrom(hits, 0, None)
  }

  /** At most one index satisfies `FirstNearest`. */
  lemma FirstNearestUnique(hits: seq<Hit>, n: nat, k1: nat, k2: nat)
    requires n <= |hits|
    requires FirstNearest(hits, n, k1) && FirstNearest(hits, n, k2)
    ensures k1 == k2
  {
  }

  /** The scan's choice is exactly the first nearest usable hit. */
  lemma NearestIsFirstNearest(hits: seq<Hit>, k: nat)
    ensures Nearest(hits) == Some(k) <==> FirstNearest(hits, |hits|, k)
  {
    if FirstNearest(hits, |hits|, k) {
      FirstNearestUnique(hits, |hits|, Nearest(hits).value, k);
    }
  }

  /** A usable hit strictly nearer than every other usable hit is chosen,
      wherever it sits in the list. */
  lemma {:induction false} StrictlyNearestWins(hits: seq<Hit>, k: nat)
    requires k < |hits| && Usable(hits[k])
    requires forall j :: 0 <= j < |hits| && j != k && Usable(hits[j]) ==> hits[k].distance < hits[j].distance
    ensures Nearest(hits) == Some(k)
  {
    assert FirstNearest(hits, |hits|, k);
    NearestIsFirstNearest(hits, k);
  }

  /** Ties go to the earlier ball: when the usable hits `i < j` share the
      smallest usable distance, the scan stops at or before `i`, never at `j`. */
  lemma EarliestWinsTies(hits: seq<Hit>, i: nat, j: nat)
    requires i < j < |hits|
    requires Usable(hits[i]) && Usable(hits[j]) && hits[i].distance == hits[j].distance
    requires forall l :: 0 <= l < |hits| && Usable(hits[l]) ==> hits[i].distance <= hits[l].distance
    ensures Nearest(hits).Some? && Nearest(hits).value <= i
  {
  }

  /** The chosen ray–ball test of every ball, in list order. */
  function Hits(test: BallTest, ray: Ray, balls: seq<Ball>, sqrt: real -> real): (r: seq<Hit>)
    ensures |r| == |balls|
    decreases |balls|
  {
    if balls == [] then []
    else Hits(test, ray, balls[..|balls| - 1], sqrt) + [TestBall(test, ray, balls[|balls| - 1], sqrt)]
  }

  /** Hit `i` is the test of ball `i`. */
  lemma {:induction false} HitsAt(test: BallTest, ray: Ray, balls: seq<Ball>, sqrt: real -> real, i: nat)
    requires i < |balls|
    ensures Hits(test, ray, balls, sqrt)[i] == TestBall(test, ray, balls[i], sqrt)
    decreases |balls|
  {
    if i < |balls| - 1 {
      HitsAt(test, ray, balls[..|balls| - 1], sqrt, i);
    }
  }

  lemma HitsAll(test: BallTest, ray: Ray, balls: seq<Ball>, sqrt: real -> real)
    ensures forall i :: 0 <= i < |balls| ==> Hits(test, ray, balls, sqrt)[i] == TestBall(test, ray, balls[i], sqrt)
  {
    forall i | 0 <= i < |balls| {
      HitsAt(test, ray, balls, sqrt, i);
    }
  }

  /** The colour of the pixel whose ray is `ray`, with `test` applied to
      every ball: the background when no
      ball yields a usable hit, otherwise the colour of the first ball whose
      usable distance is the smallest. */
  function ShadeRay(test: BallTest, ray: Ray, balls: seq<Ball>, background: Color, sqrt: real -> real): (c: Color)
    ensures (forall i :: 0 <= i < |balls| ==> !Usable(TestBall(test, ray, balls[i], sqrt))) ==> c == background
    ensures (exists i :: 0 <= i < |balls| && Usable(TestBall(test, ray, balls[i], sqrt))) ==>
              exists k: nat :: FirstNearest(Hits(test, ray, balls, sqrt), |balls|, k) && c == balls[k].color
  {
    var hits := Hits(test, ray, balls, sqrt);
    HitsAll(test, ray, balls, sqrt);
    match Nearest(hits)
    case None => background
    case Some(k) => balls[k].color
  }

  /** The inner loop of the pixel loop: keeps the colour and the distance
      of the best hit so far, starting from the background and no distance. */
  method ResolvePixel(test: BallTest, ray: Ray, balls: seq<Ball>, background: Color, sqrt: real -> real)
    returns (pixel: Color)
    ensures pixel == ShadeRay(test, ray, balls, background, sqrt)
  {
    ghost var hits := Hits(test, ray, balls, sqrt);
    ghost var best: Option<nat> := None;
    pixel := background;
    var minimal: Option<real> := None;
    for i := 0 to |balls|
      invariant best.None? ==> NoneUsable(hits, i)
      invariant best.Some? ==> FirstNearest(hits, i, best.value)
      invariant ScanFrom(hits, i, best) == Nearest(hits)
      invariant best.None? ==> minimal.None? && pixel == background
      invariant best.Some? ==> best.value < |balls| && minimal == Some(hits[best.value].distance)
                               && pixel == balls[best.value].color
    {
      ScanStep(hits, i, best);
      var h := TestBall(test, ray, balls[i], sqrt);
      HitsAt(test, ray, balls, sqrt, i);
      if h.HitAt? && h.distance > 0.0 && (minimal.None? || h.distance < minimal.value) {
        pixel := balls[i].color;
        minimal := Some(h.distance);
      }
      best := Advance(hits, i, best);
    }
  }

  /** A scene of one ball shows that ball's colour exactly when its hit is
      usable, and the background otherwise. */
  lemma SingleBallShade(test: BallTest, ray: Ray, ball: Ball, background: Color, sqrt: real -> real)
    ensures Usable(TestBall(test, ray, ball, sqrt)) ==> ShadeRay(test, ray, [ball], background, sqrt) == ball.color
    ensures !Usable(TestBall(test, ray, ball, sqrt)) ==> ShadeRay(test, ray, [ball], background, sqrt) == background
  {
    assert [ball][0] == ball;
  }

  /** The program's frame leaves the pixel of the crossing ray at the
      background colour although the ray passes through the ball. */
  lemma ProgramMissesCrossingBall(color: Color, background: Color, sqrt: real -> real)
    ensures ShadeRay(AsWritten, CrossingRay, [Ball(CrossingCenter, 2.0, color)], background, sqrt) == background
  {
    AsWrittenMissesCrossingRay(sqrt, color);
    SingleBallShade(AsWritten, CrossingRay, Ball(CrossingCenter, 2.0, color), background, sqrt);
  }

  /** With the corrected test and a true `sqrt`, the same pixel takes the
      ball's colour. */
  lemma CorrectedShadesCrossingBall(color: Color, background: Color, sqrt: real -> real)
    requires IsSquareRoot(sqrt)
    ensures ShadeRay(Corrected, CrossingRay, [Ball(CrossingCenter, 2.0, color)], background, sqrt) == color
  {
    CrossingGeometry(color);
    SingleBallAhead(CrossingRay, Ball(CrossingCenter, 2.0, color), background, sqrt, 10.0);
  }

  /** With the corrected test and a true `sqrt`, a scene of one ball that
      the ray enters from outside shows the ball's colour. */
  lemma SingleBallAhead(ray: Ray, ball: Ball, background: Color, sqrt: real -> real, s: real)
    requires IsSquareRoot(sqrt)
    requires EntersFromOutside(ray, ball, s)
    ensures ShadeRay(Corrected, ray, [ball], background, sqrt) == ball.color
  {
    CorrectedHitsBallAhead(ray, ball, sqrt, s);
    SingleBallShade(Corrected, ray, ball, background, sqrt);
  }
}
