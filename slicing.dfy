/** The fruit slicer's slice test: the distance from a fruit to a trail
    segment, and the check run over the live fruits whenever the fruits,
    the hand or the trail change. */
module Slicing {
  import opened Common
  import opened FruitUtils
  import opened GameStore
  import opened Trail

  const MinSpeed: real := 3.0

  /** The dot product of `p - p1` with the segment's direction `p2 - p1`. */
  function Dot(px: real, py: real, x1: real, y1: real, x2: real, y2: real): real
  {
    (px - x1) * (x2 - x1) + (py - y1) * (y2 - y1)
  }

  /** The segment's squared length. */
  function LenSq(x1: real, y1: real, x2: real, y2: real): real
  {
    (x2 - x1) * (x2 - x1) + (y2 - y1) * (y2 - y1)
  }

  /** The projection parameter of `(px, py)` along the segment, or -1 for
      a segment of zero length. */
  function Param(px: real, py: real, x1: real, y1: real, x2: real, y2: real): real
  {
    if LenSq(x1, y1, x2, y2) != 0.0 then Dot(px, py, x1, y1, x2, y2) / LenSq(x1, y1, x2, y2) else -1.0
  }

  /** Where the clamped projection of `(px, py)` onto the segment lands. */
  function Nearest(px: real, py: real, x1: real, y1: real, x2: real, y2: real): (real, real)
  {
    var param := Param(px, py, x1, y1, x2, y2);
    if param < 0.0 then (x1, y1)
    else if param > 1.0 then (x2, y2)
    else (x1 + param * (x2 - x1), y1 + param * (y2 - y1))
  }

  /** `pointToLineDistance`, squared. */
  function SegmentDistSq(px: real, py: real, x1: real, y1: real, x2: real, y2: real): (r: real)
    ensures r >= 0.0
  {
    var (xx, yy) := Nearest(px, py, x1, y1, x2, y2);
    (px - xx) * (px - xx) + (py - yy) * (py - yy)
  }

  /** A segment of zero length measures to its single point. */
  lemma ZeroLengthSegment(px: real, py: real, x1: real, y1: real)
    ensures SegmentDistSq(px, py, x1, y1, x1, y1) == (px - x1) * (px - x1) + (py - y1) * (py - y1)
  {
  }

  /** Behind the first end the distance is to the first end; past the
      second end it is to the second end. */
  lemma ClampedEnds(px: real, py: real, x1: real, y1: real, x2: real, y2: real)
    requires LenSq(x1, y1, x2, y2) > 0.0
    ensures Dot(px, py, x1, y1, x2, y2) < 0.0 ==>
              SegmentDistSq(px, py, x1, y1, x2, y2) == (px - x1) * (px - x1) + (py - y1) * (py - y1)
    ensures Dot(px, py, x1, y1, x2, y2) > LenSq(x1, y1, x2, y2) ==>
              SegmentDistSq(px, py, x1, y1, x2, y2) == (px - x2) * (px - x2) + (py - y2) * (py - y2)
  {
    QuotientSign(Dot(px, py, x1, y1, x2, y2), LenSq(x1, y1, x2, y2));
  }

  lemma QuotientSign(dot: real, lenSq: real)
    requires lenSq > 0.0
    ensures dot < 0.0 ==> dot / lenSq < 0.0
    ensures dot > lenSq ==> dot / lenSq > 1.0
  {
    var q := dot / lenSq;
    assert dot == q * lenSq;
    if dot < 0.0 && q >= 0.0 {
      MulMonotone(0.0, q, lenSq);
    }
    if dot > lenSq && q <= 1.0 {
      MulMonotone(q, 1.0, lenSq);
    }
  }

  lemma MulMonotone(a: real, b: real, c: real)
    requires a <= b && c > 0.0
    ensures a * c <= b * c
  {
  }

  /** A point on the segment is at distance zero from it. */
  lemma OnSegmentIsZero(x1: real, y1: real, x2: real, y2: real, t: real)
    requires 0.0 <= t <= 1.0
    ensures SegmentDistSq(x1 + t * (x2 - x1), y1 + t * (y2 - y1), x1, y1, x2, y2) == 0.0
  {
    var c := x2 - x1;
    var d := y2 - y1;
    if LenSq(x1, y1, x2, y2) != 0.0 {
      ProjectionParameter(x1, y1, x2, y2, t);
    } else {
      assert (t * c) * (t * c) + (t * d) * (t * d) == (t * t) * LenSq(x1, y1, x2, y2);
    }
  }

  /** The projection parameter of `p1 + t (p2 - p1)` is `t`. */
  lemma ProjectionParameter(x1: real, y1: real, x2: real, y2: real, t: real)
    requires LenSq(x1, y1, x2, y2) != 0.0
    ensures Param(x1 + t * (x2 - x1), y1 + t * (y2 - y1), x1, y1, x2, y2) == t
  {
    var c := x2 - x1;
    var d := y2 - y1;
    assert x1 + t * c - x1 == t * c && y1 + t * d - y1 == t * d;
    assert Dot(x1 + t * c, y1 + t * d, x1, y1, x2, y2) == t * LenSq(x1, y1, x2, y2);
    DivCancel(t, LenSq(x1, y1, x2, y2));
  }

  lemma DivCancel(t: real, n: real)
    requires n != 0.0
    ensures (t * n) / n == t
  {
  }

  // ---------------------------------------------------------------------
  // The clamped projection is the nearest point of the segment

  function Sq2(u: real, v: real): real { u * u + v * v }

  /** The squared distance from `(px, py)` to the point a fraction `s` of
      the way from the first end to the second. */
  function DistTo(px: real, py: real, x1: real, y1: real, x2: real, y2: real, s: real): real
  {
    Sq2(px - (x1 + s * (x2 - x1)), py - (y1 + s * (y2 - y1)))
  }

  /** `DistTo` as a quadratic in `s`. */
  function Quad(a0: real, dot: real, lenSq: real, s: real): real
  {
    a0 - 2.0 * s * dot + s * s * lenSq
  }

  lemma ExpandDist(px: real, py: real, x1: real, y1: real, x2: real, y2: real, s: real)
    ensures DistTo(px, py, x1, y1, x2, y2, s) ==
            Quad(Sq2(px - x1, py - y1), Dot(px, py, x1, y1, x2, y2), LenSq(x1, y1, x2, y2), s)
  {
  }

  /** At the vertex `t` of the parabola (`dot == t * lenSq`) it is least. */
  lemma QuadInner(a0: real, dot: real, lenSq: real, s: real, t: real)
    requires lenSq >= 0.0 && dot == t * lenSq
    ensures Quad(a0, dot, lenSq, s) >= Quad(a0, dot, lenSq, t)
  {
    ProductsOfNonNegatives();
    Squares();
    var g := Mul(s - t, s - t);
    assert Mul(g, lenSq) >= 0.0;
    assert Quad(a0, dot, lenSq, s) - Quad(a0, dot, lenSq, t) == g * lenSq;
  }

  /** With the vertex behind the first end, `s = 0` is least on `[0, 1]`. */
  lemma QuadLow(a0: real, dot: real, lenSq: real, s: real)
    requires lenSq >= 0.0 && dot <= 0.0 && s >= 0.0
    ensures Quad(a0, dot, lenSq, s) >= Quad(a0, dot, lenSq, 0.0)
  {
    ProductsOfNonNegatives();
    assert Mul(s, s) >= 0.0;
    assert Mul(Mul(s, s), lenSq) >= 0.0;
    assert Mul(s, -dot) >= 0.0;
  }

  /** With the vertex past the second end, `s = 1` is least on `[0, 1]`. */
  lemma QuadHigh(a0: real, dot: real, lenSq: real, s: real)
    requires lenSq >= 0.0 && dot >= lenSq && s <= 1.0
    ensures Quad(a0, dot, lenSq, s) >= Quad(a0, dot, lenSq, 1.0)
  {
    ProductsOfNonNegatives();
    assert Mul(1.0 - s, dot - lenSq) >= 0.0;
    assert Mul(Mul(1.0 - s, 1.0 - s), lenSq) >= 0.0;
    assert Quad(a0, dot, lenSq, s) - Quad(a0, dot, lenSq, 1.0)
        == 2.0 * Mul(1.0 - s, dot - lenSq) + Mul(Mul(1.0 - s, 1.0 - s), lenSq);
  }

  /** The quotient's sign read back: a negative parameter means a negative
      dot product, a parameter above one a dot product above the squared
      length, and otherwise the parameter times the length is the dot. */
  lemma ParamBack(dot: real, lenSq: real)
    requires lenSq > 0.0
    ensures dot / lenSq < 0.0 ==> dot < 0.0
    ensures dot / lenSq > 1.0 ==> dot > lenSq
    ensures (dot / lenSq) * lenSq == dot
  {
    var q := dot / lenSq;
    assert dot == q * lenSq;
    if q < 0.0 && dot >= 0.0 {
      MulMonotone(q, 0.0, lenSq);
    }
    if q > 1.0 && dot <= lenSq {
      MulMonotone(1.0, q, lenSq);
    }
  }

  /** A segment of zero length has both ends at the same point. */
  lemma ZeroLengthEnds(x1: real, y1: real, x2: real, y2: real)
    ensures LenSq(x1, y1, x2, y2) >= 0.0
    ensures LenSq(x1, y1, x2, y2) == 0.0 ==> x1 == x2 && y1 == y2
  {
    Squares();
    assert Mul(x2 - x1, x2 - x1) >= 0.0 && Mul(y2 - y1, y2 - y1) >= 0.0;
  }

  /** The parameter clamped into `[0, 1]`. */
  function Clamp01(t: real): real
  {
    if t < 0.0 then 0.0 else if t > 1.0 then 1.0 else t
  }

  /** Every branch of the nearest-point choice is the point at the clamped
      parameter. */
  lemma NearestAtClamp(px: real, py: real, x1: real, y1: real, x2: real, y2: real)
    ensures SegmentDistSq(px, py, x1, y1, x2, y2) == DistTo(px, py, x1, y1, x2, y2, Clamp01(Param(px, py, x1, y1, x2, y2)))
  {
  }

  /** `pointToLineDistance` measures to a nearest point of the segment: no
      point of the segment is closer. */
  lemma NearestIsClosest(px: real, py: real, x1: real, y1: real, x2: real, y2: real, s: real)
    requires 0.0 <= s <= 1.0
    ensures SegmentDistSq(px, py, x1, y1, x2, y2) <= DistTo(px, py, x1, y1, x2, y2, s)
  {
    var t := Clamp01(Param(px, py, x1, y1, x2, y2));
    NearestAtClamp(px, py, x1, y1, x2, y2);
    ExpandDist(px, py, x1, y1, x2, y2, s);
    ExpandDist(px, py, x1, y1, x2, y2, t);
    QuadClamped(px, py, x1, y1, x2, y2, s);
  }

  /** The quadratic is least at the clamped parameter. */
  lemma QuadClamped(px: real, py: real, x1: real, y1: real, x2: real, y2: real, s: real)
    requires 0.0 <= s <= 1.0
    ensures var a0 := Sq2(px - x1, py - y1);
      var dot := Dot(px, py, x1, y1, x2, y2);
      var lenSq := LenSq(x1, y1, x2, y2);
      Quad(a0, dot, lenSq, s) >= Quad(a0, dot, lenSq, Clamp01(Param(px, py, x1, y1, x2, y2)))
  {
    var a0 := Sq2(px - x1, py - y1);
    var dot := Dot(px, py, x1, y1, x2, y2);
    var lenSq := LenSq(x1, y1, x2, y2);
    ZeroLengthEnds(x1, y1, x2, y2);
    if lenSq == 0.0 {
      assert dot == 0.0;
      QuadLow(a0, dot, lenSq, s);
    } else {
      var t := dot / lenSq;
      ParamBack(dot, lenSq);
      if t < 0.0 {
        QuadLow(a0, dot, lenSq, s);
      } else if t > 1.0 {
        QuadHigh(a0, dot, lenSq, s);
      } else {
        QuadInner(a0, dot, lenSq, s, t);
      }
    }
  }

  /** One trail segment slices a fruit when the hand moved at least three
      pixels along it and it passes closer than 0.8 of the fruit's size to
      the fruit's stored (spawn) position. */
  predicate SegmentSlices(f: Fruit, a: TrailPoint, b: TrailPoint)
  {
    !SqrtLess(StepSq(a, b), MinSpeed) &&
    SqrtLess(SegmentDistSq(f.x as real, f.y as real, a.x, a.y, b.x, b.y), f.size as real * 0.8)
  }

  /** Some segment among the first `Min(|trail|, 3) - 1` slices the fruit. */
  predicate TrailSlices(f: Fruit, trail: seq<TrailPoint>)
  {
    exists i :: 1 <= i < Min(|trail|, 3) && SegmentSlices(f, trail[i - 1], trail[i])
  }

  /** Only the three oldest trail points take part. */
  lemma OnlyOldestPointsMatter(f: Fruit, trail: seq<TrailPoint>, more: seq<TrailPoint>)
    requires |trail| >= 3
    ensures TrailSlices(f, trail + more) <==> TrailSlices(f, trail[..3])
  {
    if TrailSlices(f, trail + more) {
      var i :| 1 <= i < Min(|trail + more|, 3) && SegmentSlices(f, (trail + more)[i - 1], (trail + more)[i]);
      assert trail[..3][i - 1] == (trail + more)[i - 1] && trail[..3][i] == (trail + more)[i];
    }
    if TrailSlices(f, trail[..3]) {
      var i :| 1 <= i < Min(|trail[..3]|, 3) && SegmentSlices(f, trail[..3][i - 1], trail[..3][i]);
      assert trail[..3][i - 1] == (trail + more)[i - 1] && trail[..3][i] == (trail + more)[i];
    }
  }

  /** A trail whose first two steps are both shorter than three pixels
      slices nothing. */
  lemma SlowTrailSlicesNothing(f: Fruit, trail: seq<TrailPoint>)
    requires forall i :: 1 <= i < Min(|trail|, 3) ==> SqrtLess(StepSq(trail[i - 1], trail[i]), MinSpeed)
    ensures !TrailSlices(f, trail)
  {
  }

  /** The inner loop for one fruit as written: the first of the two oldest
      segments that slices it. */
  method FruitSliced(f: Fruit, trail: seq<TrailPoint>) returns (hit: bool)
    ensures hit == TrailSlices(f, trail)
  {
    hit := false;
    var i := 1;
    while i < Min(|trail|, 3)
      invariant 1 <= i && (i <= Min(|trail|, 3) || Min(|trail|, 3) <= 1)
      invariant forall j :: 1 <= j < i && j < Min(|trail|, 3) ==> !SegmentSlices(f, trail[j - 1], trail[j])
      decreases 3 - i
    {
      var prevPos := trail[i - 1];
      var currentPos := trail[i];
      if !SqrtLess(StepSq(prevPos, currentPos), MinSpeed) {
        var distance := SegmentDistSq(f.x as real, f.y as real, prevPos.x, prevPos.y, currentPos.x, currentPos.y);
        if SqrtLess(distance, f.size as real * 0.8) {
          hit := true;
          return;
        }
      }
      i := i + 1;
    }
  }

  /** A fruit sitting on the newest point of a four-point trail, with the
      hand's last step ending on it, is not sliced: the two oldest segments
      are far away. The newest-segment test slices it. */
  lemma NewestSwipeMissed()
    ensures var f := Fruit("f", 100, 100, 0, 0, 0, 0, "apple", 10, false, 60);
      var trail := [TrailPoint(0.0, 0.0, 0), TrailPoint(10.0, 0.0, 1), TrailPoint(20.0, 0.0, 2),
                    TrailPoint(100.0, 100.0, 3)];
      TrailOk(trail) && !TrailSlices(f, trail) && NewestSlices(f, trail)
  {
    var f := Fruit("f", 100, 100, 0, 0, 0, 0, "apple", 10, false, 60);
    var trail := [TrailPoint(0.0, 0.0, 0), TrailPoint(10.0, 0.0, 1), TrailPoint(20.0, 0.0, 2),
                  TrailPoint(100.0, 100.0, 3)];
    assert Param(100.0, 100.0, 0.0, 0.0, 10.0, 0.0) == 10.0 by {
      assert Dot(100.0, 100.0, 0.0, 0.0, 10.0, 0.0) == 1000.0 && LenSq(0.0, 0.0, 10.0, 0.0) == 100.0;
    }
    assert Param(100.0, 100.0, 10.0, 0.0, 20.0, 0.0) == 9.0 by {
      assert Dot(100.0, 100.0, 10.0, 0.0, 20.0, 0.0) == 900.0 && LenSq(10.0, 0.0, 20.0, 0.0) == 100.0;
    }
    assert Param(100.0, 100.0, 20.0, 0.0, 100.0, 100.0) == 1.0 by {
      assert Dot(100.0, 100.0, 20.0, 0.0, 100.0, 100.0) == 16400.0 && LenSq(20.0, 0.0, 100.0, 100.0) == 16400.0;
    }
    assert !SegmentSlices(f, trail[0], trail[1]);
    assert !SegmentSlices(f, trail[1], trail[2]);
    assert SegmentSlices(f, trail[2], trail[3]);
    assert Spaced(trail);
  }

  /** The first index of the newest two segments. */
  function NewestStart(trail: seq<TrailPoint>): nat
  {
    if |trail| <= 3 then 1 else |trail| - 2
  }

  /** The test the effect means to make: some segment among the newest two
      (the trail's last three points) slices the fruit. */
  predicate NewestSlices(f: Fruit, trail: seq<TrailPoint>)
  {
    exists i :: NewestStart(trail) <= i < |trail| && SegmentSlices(f, trail[i - 1], trail[i])
  }

  /** Up to three points both tests look at the same segments. */
  lemma ShortTrailsAgree(f: Fruit, trail: seq<TrailPoint>)
    requires |trail| <= 3
    ensures NewestSlices(f, trail) <==> TrailSlices(f, trail)
  {
  }

  /** Only the three newest points take part: older points in front of
      them change nothing. */
  lemma OnlyNewestPointsMatter(f: Fruit, older: seq<TrailPoint>, trail: seq<TrailPoint>)
    requires |trail| >= 3
    ensures NewestSlices(f, older + trail) <==> NewestSlices(f, trail[|trail| - 3..])
  {
    var u := older + trail;
    var v := trail[|trail| - 3..];
    if NewestSlices(f, u) {
      var i :| NewestStart(u) <= i < |u| && SegmentSlices(f, u[i - 1], u[i]);
      assert SegmentSlices(f, v[i - (|u| - 3) - 1], v[i - (|u| - 3)]);
    }
    if NewestSlices(f, v) {
      var i :| NewestStart(v) <= i < |v| && SegmentSlices(f, v[i - 1], v[i]);
      assert SegmentSlices(f, u[|u| - 3 + i - 1], u[|u| - 3 + i]);
    }
  }

  /** A swipe whose newest step passes over the fruit slices it. */
  lemma NewestStepSlices(f: Fruit, trail: seq<TrailPoint>)
    requires |trail| >= 2 && SegmentSlices(f, trail[|trail| - 2], trail[|trail| - 1])
    ensures NewestSlices(f, trail)
  {
  }

  /** On a spaced trail every segment passes the speed gate: each step is
      at least three pixels, the gate's own threshold. */
  lemma SpacedTrailIsFast(trail: seq<TrailPoint>, i: nat)
    requires TrailOk(trail) && 1 <= i < |trail|
    ensures !SqrtLess(StepSq(trail[i - 1], trail[i]), MinSpeed)
  {
  }

  /** The inner loop for one fruit over the newest two segments. */
  method FruitSlicedNewest(f: Fruit, trail: seq<TrailPoint>) returns (hit: bool)
    ensures hit == NewestSlices(f, trail)
  {
    hit := false;
    var i := NewestStart(trail);
    while i < |trail|
      invariant NewestStart(trail) <= i && (i <= |trail| || |trail| <= 1)
      invariant forall j :: NewestStart(trail) <= j < i && j < |trail| ==> !SegmentSlices(f, trail[j - 1], trail[j])
      decreases |trail| - i
    {
      var prevPos := trail[i - 1];
      var currentPos := trail[i];
      if !SqrtLess(StepSq(prevPos, currentPos), MinSpeed) {
        var distance := SegmentDistSq(f.x as real, f.y as real, prevPos.x, prevPos.y, currentPos.x, currentPos.y);
        if SqrtLess(distance, f.size as real * 0.8) {
          hit := true;
          return;
        }
      }
      i := i + 1;
    }
  }

  /** Which segments a run tests: the two oldest, as the program does, or
      the two newest, as its comment intends. */
  datatype SegmentTest = OldestTwo | NewestTwo

  predicate Reaches(test: SegmentTest, f: Fruit, trail: seq<TrailPoint>)
  {
    match test
    case OldestTwo => TrailSlices(f, trail)
    case NewestTwo => NewestSlices(f, trail)
  }

  /** The slices one run makes, fruit by fruit over the list it was given,
      each applied to the store as it stands by then. */
  function SliceRun(s: Store, fruits: seq<Fruit>, trail: seq<TrailPoint>, test: SegmentTest): Store
    decreases |fruits|
  {
    if fruits == [] then s
    else
      var s1 := if Reaches(test, fruits[0], trail) then AfterSlice(s, fruits[0].id) else s;
      SliceRun(s1, fruits[1..], trail, test)
  }

  /** A run keeps the store consistent, and a live fruit whose id no
      slicing fruit shares survives it. */
  lemma {:induction false} SliceRunEffect(s: Store, fruits: seq<Fruit>, trail: seq<TrailPoint>, test: SegmentTest, g: Fruit)
    requires StoreOk(s)
    ensures StoreOk(SliceRun(s, fruits, trail, test))
    ensures g in s.fruits && (forall i :: 0 <= i < |fruits| && Reaches(test, fruits[i], trail) ==> fruits[i].id != g.id) ==>
              g in SliceRun(s, fruits, trail, test).fruits
    ensures SliceRun(s, fruits, trail, test).timeLeft == s.timeLeft && SliceRun(s, fruits, trail, test).gameOver == s.gameOver
    decreases |fruits|
  {
    if fruits != [] {
      var s1 := if Reaches(test, fruits[0], trail) then AfterSlice(s, fruits[0].id) else s;
      SliceEffect(s, fruits[0].id);
      if g in s.fruits && (forall i :: 0 <= i < |fruits| && Reaches(test, fruits[i], trail) ==> fruits[i].id != g.id) {
        assert g in s1.fruits;
        assert forall i :: 0 <= i < |fruits[1..]| ==> fruits[1..][i] == fruits[i + 1];
      }
      SliceRunEffect(s1, fruits[1..], trail, test, g);
    }
  }

  /** A run only removes live fruits and only appends sliced copies, and
      the score grows by exactly the points of the copies it appended. */
  lemma {:induction false} SliceRunScores(s: Store, fruits: seq<Fruit>, trail: seq<TrailPoint>, test: SegmentTest)
    ensures var r := SliceRun(s, fruits, trail, test);
      (forall g :: g in r.fruits ==> g in s.fruits) &&
      |s.slicedFruits| <= |r.slicedFruits| && r.slicedFruits[..|s.slicedFruits|] == s.slicedFruits &&
      r.score == s.score + Points(r.slicedFruits[|s.slicedFruits|..])
    decreases |fruits|
  {
    if fruits == [] {
      assert s.slicedFruits[|s.slicedFruits|..] == [];
    } else {
      var hit := Reaches(test, fruits[0], trail);
      var s1 := if hit then AfterSlice(s, fruits[0].id) else s;
      SliceRunScores(s1, fruits[1..], trail, test);
      var r := SliceRun(s1, fruits[1..], trail, test);
      assert r == SliceRun(s, fruits, trail, test);
      if s1 != s {
        SliceStepAppends(s, fruits[0].id, r);
      }
    }
  }

  /** Some fruit of the run's list that the trail reaches carries the id. */
  predicate ReachedId(test: SegmentTest, fruits: seq<Fruit>, trail: seq<TrailPoint>, id: string)
  {
    exists i :: 0 <= i < |fruits| && Reaches(test, fruits[i], trail) && fruits[i].id == id
  }

  /** Everything a run appends is the sliced copy of a fruit that was live
      before it, with the id of a fruit the trail reaches, and no id is
      appended twice. */
  lemma {:induction false} SliceRunAppendsReached(s: Store, fruits: seq<Fruit>, trail: seq<TrailPoint>, test: SegmentTest)
    requires StoreOk(s)
    ensures var r := SliceRun(s, fruits, trail, test);
      |s.slicedFruits| <= |r.slicedFruits| &&
      (forall c :: c in r.slicedFruits[|s.slicedFruits|..] ==>
         c.sliced && c.(sliced := false) in s.fruits && ReachedId(test, fruits, trail, c.id)) &&
      (forall k, l :: |s.slicedFruits| <= k < l < |r.slicedFruits| ==> r.slicedFruits[k].id != r.slicedFruits[l].id)
    decreases |fruits|
  {
    if fruits == [] {
      assert s.slicedFruits[|s.slicedFruits|..] == [];
    } else {
      var hit := Reaches(test, fruits[0], trail);
      var s1 := if hit then AfterSlice(s, fruits[0].id) else s;
      SliceEffect(s, fruits[0].id);
      SliceRunAppendsReached(s1, fruits[1..], trail, test);
      SliceRunScores(s1, fruits[1..], trail, test);
      var r := SliceRun(s1, fruits[1..], trail, test);
      assert r == SliceRun(s, fruits, trail, test);
      ReachedIdOfTail(test, fruits, trail);
      if s1 != s {
        SliceStepAppendsReached(s, fruits[0].id, r);
      }
    }
  }

  /** An id reached in the list's tail, or by its head, is reached in the list. */
  lemma ReachedIdOfTail(test: SegmentTest, fruits: seq<Fruit>, trail: seq<TrailPoint>)
    requires fruits != []
    ensures forall id :: ReachedId(test, fruits[1..], trail, id) ==> ReachedId(test, fruits, trail, id)
    ensures Reaches(test, fruits[0], trail) ==> ReachedId(test, fruits, trail, fruits[0].id)
  {
    forall id | ReachedId(test, fruits[1..], trail, id)
      ensures ReachedId(test, fruits, trail, id)
    {
      var j :| 0 <= j < |fruits[1..]| && Reaches(test, fruits[1..][j], trail) && fruits[1..][j].id == id;
      assert fruits[1..][j] == fruits[j + 1];
    }
  }

  /** One slice that changed the store, followed by the rest of a run that
      appended copies of the fruits live after it: the slice's copy comes
      first, and its id differs from every later copy's. */
  lemma SliceStepAppendsReached(s: Store, id: string, r: Store)
    requires StoreOk(s) && AfterSlice(s, id) != s
    requires var s1 := AfterSlice(s, id);
      |s1.slicedFruits| <= |r.slicedFruits| && r.slicedFruits[..|s1.slicedFruits|] == s1.slicedFruits &&
      (forall c :: c in r.slicedFruits[|s1.slicedFruits|..] ==> c.sliced && c.(sliced := false) in s1.fruits) &&
      (forall k, l :: |s1.slicedFruits| <= k < l < |r.slicedFruits| ==> r.slicedFruits[k].id != r.slicedFruits[l].id)
    ensures var f := FindFruit(s.fruits, id).value;
      var n := |s.slicedFruits|;
      n < |r.slicedFruits| && r.slicedFruits[n..] == [f.(sliced := true)] + r.slicedFruits[n + 1..] &&
      (forall c :: c in r.slicedFruits[n + 1..] ==> c.sliced && c.(sliced := false) in s.fruits && c.id != id) &&
      f in s.fruits && !f.sliced && f.id == id &&
      (forall k, l :: n <= k < l < |r.slicedFruits| ==> r.slicedFruits[k].id != r.slicedFruits[l].id)
  {
    SliceEffect(s, id);
    var f := FindFruit(s.fruits, id).value;
    var n := |s.slicedFruits|;
    var s1 := AfterSlice(s, id);
    assert s1.slicedFruits == s.slicedFruits + [f.(sliced := true)];
    assert r.slicedFruits[n] == r.slicedFruits[..n + 1][n];
    assert r.slicedFruits[n..] == [f.(sliced := true)] + r.slicedFruits[n + 1..];
    assert !f.sliced;
    forall l | n < l < |r.slicedFruits|
      ensures r.slicedFruits[n].id != r.slicedFruits[l].id
    {
      assert r.slicedFruits[l] in r.slicedFruits[n + 1..];
    }
  }

  /** A slice that changed the store removed live fruits only and appended
      one copy worth the points it added. */
  lemma SliceStepAppends(s: Store, id: string, r: Store)
    requires AfterSlice(s, id) != s
    requires var s1 := AfterSlice(s, id);
      |s1.slicedFruits| <= |r.slicedFruits| && r.slicedFruits[..|s1.slicedFruits|] == s1.slicedFruits &&
      r.score == s1.score + Points(r.slicedFruits[|s1.slicedFruits|..]) &&
      (forall g :: g in r.fruits ==> g in s1.fruits)
    ensures (forall g :: g in r.fruits ==> g in s.fruits) &&
      |s.slicedFruits| <= |r.slicedFruits| && r.slicedFruits[..|s.slicedFruits|] == s.slicedFruits &&
      r.score == s.score + Points(r.slicedFruits[|s.slicedFruits|..])
  {
    var f := FindFruit(s.fruits, id).value;
    var n := |s.slicedFruits|;
    assert AfterSlice(s, id).slicedFruits == s.slicedFruits + [f.(sliced := true)];
    assert r.slicedFruits[..n] == r.slicedFruits[..n + 1][..n];
    assert r.slicedFruits[n..] == [f.(sliced := true)] + r.slicedFruits[n + 1..];
  }

  /** A live fruit the trail reaches is gone after the run, with every
      fruit sharing its id. */
  lemma {:induction false} SliceRunRemovesReached(s: Store, fruits: seq<Fruit>, trail: seq<TrailPoint>, test: SegmentTest, i: nat)
    requires StoreOk(s) && i < |fruits| && Reaches(test, fruits[i], trail)
    ensures forall g :: g in SliceRun(s, fruits, trail, test).fruits ==> g.id != fruits[i].id
    decreases |fruits|
  {
    var s1 := if Reaches(test, fruits[0], trail) then AfterSlice(s, fruits[0].id) else s;
    SliceEffect(s, fruits[0].id);
    if i == 0 {
      SliceRunScores(s1, fruits[1..], trail, test);
    } else {
      assert fruits[1..][i - 1] == fruits[i];
      SliceRunRemovesReached(s1, fruits[1..], trail, test, i - 1);
    }
  }

  /** One step of a run, seen from another id: either the step sliced that
      id, leaving the first live fruit's copy at the end of the sliced list,
      or the first live fruit with the id is still the same. */
  lemma SliceStepKeepsFirst(s: Store, hit: bool, sliceId: string, id: string)
    requires StoreOk(s)
    ensures var s1 := if hit then AfterSlice(s, sliceId) else s;
      var first := FindFruit(s.fruits, id);
      StoreOk(s1) && |s.slicedFruits| <= |s1.slicedFruits| <= |s.slicedFruits| + 1 &&
      s1.slicedFruits[..|s.slicedFruits|] == s.slicedFruits &&
      (first.Some? && hit && sliceId == id ==> s1.slicedFruits == s.slicedFruits + [first.value.(sliced := true)]) &&
      (!(hit && sliceId == id) ==> FindFruit(s1.fruits, id) == first)
  {
    SliceEffect(s, sliceId);
    if hit && sliceId != id && FindFruit(s.fruits, sliceId).Some? {
      RemainingKeepsOtherIds(s.fruits, sliceId, id);
    }
  }

  /** The first live fruit with the id of a fruit the trail reaches leaves
      a sliced copy among those the run appends, so its points are in the
      score (SliceRunScores). */
  lemma {:induction false} SliceRunScoresReached(s: Store, fruits: seq<Fruit>, trail: seq<TrailPoint>, test: SegmentTest, i: nat)
    requires StoreOk(s) && i < |fruits| && Reaches(test, fruits[i], trail)
    ensures var first := FindFruit(s.fruits, fruits[i].id);
      var r := SliceRun(s, fruits, trail, test);
      first.Some? ==> |s.slicedFruits| <= |r.slicedFruits| && first.value.(sliced := true) in r.slicedFruits[|s.slicedFruits|..]
    decreases |fruits|
  {
    var id := fruits[i].id;
    var first := FindFruit(s.fruits, id);
    var hit := Reaches(test, fruits[0], trail);
    var s1 := if hit then AfterSlice(s, fruits[0].id) else s;
    var r := SliceRun(s1, fruits[1..], trail, test);
    assert r == SliceRun(s, fruits, trail, test);
    if first.Some? {
      SliceStepKeepsFirst(s, hit, fruits[0].id, id);
      SliceRunScores(s1, fruits[1..], trail, test);
      if hit && fruits[0].id == id {
        AppendedCopy(s.slicedFruits, first.value.(sliced := true), r.slicedFruits);
      } else {
        assert i != 0 && fruits[1..][i - 1] == fruits[i];
        SliceRunScoresReached(s1, fruits[1..], trail, test, i - 1);
        LaterCopy(r.slicedFruits, |s.slicedFruits|, |s1.slicedFruits|, first.value.(sliced := true));
      }
    }
  }

  lemma AppendedCopy(before: seq<Fruit>, c: Fruit, after: seq<Fruit>)
    requires |before| + 1 <= |after| && after[..|before| + 1] == before + [c]
    ensures c in after[|before|..]
  {
    assert after[|before|..][0] == after[..|before| + 1][|before|];
  }

  lemma LaterCopy(list: seq<Fruit>, n: nat, m: nat, c: Fruit)
    requires n <= m <= |list| && c in list[m..]
    ensures c in list[n..]
  {
    assert list[m..] == list[n..][m - n..];
  }

  /** Fruits the trail does not reach are never sliced: with no fruit
      reached, the run changes nothing. */
  lemma {:induction false} NothingReachedNothingSliced(s: Store, fruits: seq<Fruit>, trail: seq<TrailPoint>, test: SegmentTest)
    requires forall i :: 0 <= i < |fruits| ==> !Reaches(test, fruits[i], trail)
    ensures SliceRun(s, fruits, trail, test) == s
    decreases |fruits|
  {
    if fruits != [] {
      NothingReachedNothingSliced(s, fruits[1..], trail, test);
    }
  }

  /** The slicing effect: nothing without a hand or with fewer than two
      trail points; otherwise each fruit of the list the effect saw is
      tested against the chosen two segments and sliced at most once. The
      program's effect is `OldestTwo`. */
  method CheckSlices(store: GameProvider, hand: Option<(real, real)>, trail: seq<TrailPoint>, test: SegmentTest)
    requires store.Valid()
    modifies store
    ensures store.Valid()
    ensures hand.None? || |trail| < 2 ==> store.State() == old(store.State())
    ensures hand.Some? && |trail| >= 2 ==> store.State() == SliceRun(old(store.State()), old(store.fruits), trail, test)
  {
    if hand.None? || |trail| < 2 {
      return;
    }
    var fruits := store.fruits;
    ghost var s0 := store.State();
    for k := 0 to |fruits|
      invariant store.Valid()
      invariant SliceRun(s0, fruits, trail, test) == SliceRun(store.State(), fruits[k..], trail, test)
    {
      var hit;
      if test == OldestTwo {
        hit := FruitSliced(fruits[k], trail);
      } else {
        hit := FruitSlicedNewest(fruits[k], trail);
      }
      assert fruits[k..][1..] == fruits[k + 1..];
      if hit {
        store.SliceFruit(fruits[k].id);
      }
    }
  }
}
