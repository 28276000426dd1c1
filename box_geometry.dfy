/** Integer pixel geometry of the desktop boxing game: the forgiving
    circle-against-rectangle hit test, and the segment intersection helpers
    the program defines (and does not call). */
module BoxGeometry {
  import opened Common

  datatype Point = Point(x: int, y: int)

  function Sq(v: int): int { v * v }

  function DistSq(p: Point, q: Point): int
  {
    Sq(p.x - q.x) + Sq(p.y - q.y)
  }

  /** The point of the rectangle `[rx, rx + rw] x [ry, ry + rh]` the test
      measures against: the centre clamped into the rectangle. */
  function Clamped(c: Point, rx: int, ry: int, rw: int, rh: int): (q: Point)
    ensures rw >= 0 && rh >= 0 ==> InRect(q, rx, ry, rw, rh)
    ensures InRect(c, rx, ry, rw, rh) ==> q == c
  {
    Point(Clip(c.x, rx, rx + rw), Clip(c.y, ry, ry + rh))
  }

  predicate InRect(p: Point, rx: int, ry: int, rw: int, rh: int)
  {
    rx <= p.x <= rx + rw && ry <= p.y <= ry + rh
  }

  /** A missing fist never hits; otherwise the fist hits when the clamped
      point lies strictly closer than the radius. */
  function CircleRectCollision(center: Option<Point>, radius: int, rx: int, ry: int, rw: int, rh: int): (hit: bool)
    ensures center.None? ==> !hit
    ensures center.Some? && InRect(center.value, rx, ry, rw, rh) && radius != 0 ==> hit
  {
    match center
    case None => false
    case Some(c) => DistSq(c, Clamped(c, rx, ry, rw, rh)) < Sq(radius)
  }

  lemma ClipNearest(v: int, lo: int, hi: int, w: int)
    requires lo <= w <= hi
    ensures Sq(v - Clip(v, lo, hi)) <= Sq(v - w)
  {
    var c := Clip(v, lo, hi);
    if v < lo {
      assert 0 < lo - v <= w - v;
      assert Sq(v - c) == (lo - v) * (lo - v);
      assert (lo - v) * (lo - v) <= (w - v) * (lo - v) <= (w - v) * (w - v);
    } else if v > hi {
      assert 0 < v - hi <= v - w;
      assert Sq(v - c) == (v - hi) * (v - hi);
      assert (v - hi) * (v - hi) <= (v - w) * (v - hi) <= (v - w) * (v - w);
    }
  }

  /** The clamped point is a nearest point of the rectangle to the centre. */
  lemma ClampedIsNearest(c: Point, rx: int, ry: int, rw: int, rh: int, p: Point)
    requires InRect(p, rx, ry, rw, rh)
    ensures DistSq(c, Clamped(c, rx, ry, rw, rh)) <= DistSq(c, p)
  {
    ClipNearest(c.x, rx, rx + rw, p.x);
    ClipNearest(c.y, ry, ry + rh, p.y);
  }

  /** For a rectangle of non-negative size, the test hits exactly when some
      point of the rectangle lies strictly inside the circle. */
  lemma CollisionIffOverlap(c: Point, radius: int, rx: int, ry: int, rw: int, rh: int)
    requires rw >= 0 && rh >= 0
    ensures CircleRectCollision(Some(c), radius, rx, ry, rw, rh) <==>
            exists p :: InRect(p, rx, ry, rw, rh) && DistSq(c, p) < Sq(radius)
  {
    var q := Clamped(c, rx, ry, rw, rh);
    if CircleRectCollision(Some(c), radius, rx, ry, rw, rh) {
      assert InRect(q, rx, ry, rw, rh) && DistSq(c, q) < Sq(radius);
    }
    if p :| InRect(p, rx, ry, rw, rh) && DistSq(c, p) < Sq(radius) {
      ClampedIsNearest(c, rx, ry, rw, rh, p);
    }
  }

  // ---------------------------------------------------------------------
  // Segment intersection (defined by the program, never called)

  /** Within the bounding box of `p` and `r`. */
  predicate OnSegment(p: Point, q: Point, r: Point)
  {
    q.x <= Max(p.x, r.x) && q.x >= Min(p.x, r.x) &&
    q.y <= Max(p.y, r.y) && q.y >= Min(p.y, r.y)
  }

  function Turn(p: Point, q: Point, r: Point): int
  {
    (q.y - p.y) * (r.x - q.x) - (q.x - p.x) * (r.y - q.y)
  }

  /** 0 collinear, 1 clockwise, 2 counter-clockwise. */
  function Orientation(p: Point, q: Point, r: Point): (o: int)
    ensures 0 <= o <= 2
    ensures o == 0 <==> Turn(p, q, r) == 0
  {
    var v := Turn(p, q, r);
    if v == 0 then 0 else if v > 0 then 1 else 2
  }

  /** The orientation read the other way round. */
  function Flip(o: int): int
  {
    if o == 0 then 0 else 3 - o
  }

  lemma TurnReversed(p: Point, q: Point, r: Point)
    ensures Turn(q, p, r) == -Turn(p, q, r)
  {
    calc {
      Turn(q, p, r);
      (p.y - q.y) * (r.x - p.x) - (p.x - q.x) * (r.y - p.y);
      { assert (p.y - q.y) * (r.x - p.x) == (p.y - q.y) * (r.x - q.x) + (p.y - q.y) * (q.x - p.x);
        assert (p.x - q.x) * (r.y - p.y) == (p.x - q.x) * (r.y - q.y) + (p.x - q.x) * (q.y - p.y); }
      (p.y - q.y) * (r.x - q.x) - (p.x - q.x) * (r.y - q.y);
      -Turn(p, q, r);
    }
  }

  /** Walking a segment backwards flips every orientation measured against it. */
  lemma OrientationReversed(p: Point, q: Point, r: Point)
    ensures Orientation(q, p, r) == Flip(Orientation(p, q, r))
  {
    TurnReversed(p, q, r);
  }

  /** The standard orientation test: the general case, then the four
      collinear special cases; a missing endpoint never intersects. */
  function Intersect(p1: Option<Point>, q1: Option<Point>, p2: Option<Point>, q2: Option<Point>): (r: bool)
    ensures p1.None? || q1.None? || p2.None? || q2.None? ==> !r
  {
    if p1.None? || q1.None? || p2.None? || q2.None? then false
    else
      var (a, b, c, d) := (p1.value, q1.value, p2.value, q2.value);
      var o1 := Orientation(a, b, c);
      var o2 := Orientation(a, b, d);
      var o3 := Orientation(c, d, a);
      var o4 := Orientation(c, d, b);
      if o1 != o2 && o3 != o4 then true
      else if o1 == 0 && OnSegment(a, c, b) then true
      else if o2 == 0 && OnSegment(a, d, b) then true
      else if o3 == 0 && OnSegment(c, a, d) then true
      else if o4 == 0 && OnSegment(c, b, d) then true
      else false
  }

  /** The test does not depend on which segment is named first. */
  lemma IntersectSymmetric(p1: Option<Point>, q1: Option<Point>, p2: Option<Point>, q2: Option<Point>)
    ensures Intersect(p1, q1, p2, q2) == Intersect(p2, q2, p1, q1)
  {
  }

  /** Nor on the direction in which the first segment is given. */
  lemma IntersectReversed(p1: Point, q1: Point, p2: Point, q2: Point)
    ensures Intersect(Some(p1), Some(q1), Some(p2), Some(q2)) == Intersect(Some(q1), Some(p1), Some(p2), Some(q2))
  {
    OrientationReversed(p1, q1, p2);
    OrientationReversed(p1, q1, q2);
  }

  /** `c` lies on the closed segment from `a` to `b`. */
  predicate Between(c: Point, a: Point, b: Point)
  {
    Turn(a, b, c) == 0 && OnSegment(a, c, b)
  }

  /** `fc` moves from `fx` towards `fy` by the fraction `u / w`, which lies
      between zero and one, so it stays positive when both ends are. */
  lemma Interpolated(w: int, u: int, fx: int, fy: int, fc: int)
    requires w * (fc - fx) == u * (fy - fx)
    requires 0 < fx && 0 < fy
    requires (0 <= u <= w || w <= u <= 0) && w != 0
    ensures 0 < fc
  {
    assert w * fc == (w - u) * fx + u * fy;
    if 0 < w {
      assert 0 <= (w - u) * fx && 0 <= u * fy;
      if 0 < u {
        assert 0 < u * fy;
      } else {
        assert 0 < (w - u) * fx;
      }
    } else {
      assert (w - u) * fx <= 0 && u * fy <= 0;
      if u < 0 {
        assert u * fy < 0;
      } else {
        assert (w - u) * fx < 0;
      }
    }
  }

  /** The turn towards a point changes linearly with the point. */
  lemma TurnDifference(a: Point, b: Point, x: Point, c: Point)
    ensures Turn(a, b, c) - Turn(a, b, x) == (b.y - a.y) * (c.x - x.x) - (b.x - a.x) * (c.y - x.y)
  {
  }

  /** Scaling the change along a segment by the step to a collinear point. */
  lemma ScaledChange(dy: int, dx: int, ux: int, uy: int, wx: int, wy: int)
    requires wx * uy == wy * ux
    ensures wx * (dy * ux - dx * uy) == ux * (dy * wx - dx * wy)
    ensures wy * (dy * ux - dx * uy) == uy * (dy * wx - dx * wy)
  {
    assert wx * (dy * ux - dx * uy) == dy * (ux * wx) - dx * (wx * uy);
    assert wy * (dy * ux - dx * uy) == dy * (wx * uy) - dx * (uy * wy);
  }

  /** A segment whose ends lie strictly on the left of the line through
      `a` and `b` lies strictly on the left of it everywhere. */
  lemma SameSideSegment(a: Point, b: Point, x: Point, y: Point, c: Point)
    requires Turn(a, b, x) > 0 && Turn(a, b, y) > 0 && Between(c, x, y)
    ensures Turn(a, b, c) > 0
  {
    var fx, fy, fc := Turn(a, b, x), Turn(a, b, y), Turn(a, b, c);
    var dy, dx := b.y - a.y, b.x - a.x;
    var ux, uy, wx, wy := c.x - x.x, c.y - x.y, y.x - x.x, y.y - x.y;
    TurnDifference(a, b, x, c);
    TurnDifference(a, b, x, y);
    TurnDifference(x, y, x, c);
    assert Turn(x, y, x) == 0;
    ScaledChange(dy, dx, ux, uy, wx, wy);
    if wx != 0 {
      Interpolated(wx, ux, fx, fy, fc);
    } else if wy != 0 {
      Interpolated(wy, uy, fx, fy, fc);
    } else {
      assert c == x;
    }
  }

  /** The same on the right. */
  lemma SameSideSegmentRight(a: Point, b: Point, x: Point, y: Point, c: Point)
    requires Turn(a, b, x) < 0 && Turn(a, b, y) < 0 && Between(c, x, y)
    ensures Turn(a, b, c) < 0
  {
    TurnReversed(a, b, x);
    TurnReversed(a, b, y);
    TurnReversed(a, b, c);
    SameSideSegment(b, a, x, y, c);
  }

  /** Points on the line through two distinct points are collinear with one another. */
  lemma CollinearTransfer(a: Point, b: Point, x: Point, y: Point, z: Point)
    requires a != b && Turn(a, b, x) == 0 && Turn(a, b, y) == 0 && Turn(a, b, z) == 0
    ensures Turn(x, y, z) == 0
  {
    var dx, dy := b.x - a.x, b.y - a.y;
    var xx, xy, yx, yy, zx, zy := x.x - b.x, x.y - b.y, y.x - b.x, y.y - b.y, z.x - b.x, z.y - b.y;
    assert dy * xx == dx * xy && dy * yx == dx * yy && dy * zx == dx * zy;
    var t := Turn(x, y, z);
    assert t == (yy - xy) * (zx - yx) - (yx - xx) * (zy - yy);
    if dx != 0 {
      assert dx * t == (dx * yy - dx * xy) * (zx - yx) - (yx - xx) * (dx * zy - dx * yy);
      assert dx * t == dy * ((yx - xx) * (zx - yx)) - dy * ((yx - xx) * (zx - yx));
    } else {
      assert dy != 0;
      assert dy * t == (yy - xy) * (dy * zx - dy * yx) - (dy * yx - dy * xx) * (zy - yy);
      assert dy * t == dx * ((yy - xy) * (zy - yy)) - dx * ((yy - xy) * (zy - yy));
    }
  }

  /** Along a line of slope `dy / dx`, a step `u` that lies between zero and
      `w` rises by an amount between zero and the rise over `w`. */
  lemma SlopeBetween(dx: int, dy: int, u: int, w: int, t: int, e: int)
    requires dx != 0 && dx * t == dy * u && dx * e == dy * w
    requires 0 <= u <= w || w <= u <= 0
    ensures 0 <= t <= e || e <= t <= 0
    decreases if dx < 0 then 1 else 0
  {
    if dx < 0 {
      SlopeBetween(-dx, -dy, u, w, t, e);
    } else {
      assert dx * (e - t) == dy * (w - u);
      if 0 <= u <= w {
        if 0 <= dy {
          assert 0 <= dy * u && 0 <= dy * (w - u);
        } else {
          assert dy * u <= 0 && dy * (w - u) <= 0;
        }
      } else {
        if 0 <= dy {
          assert dy * u <= 0 && dy * (w - u) <= 0;
        } else {
          assert 0 <= dy * u && 0 <= dy * (w - u);
        }
      }
    }
  }

  /** On a line that is not vertical, a point whose x lies between two
      others' lies in their bounding box. */
  lemma LineBetween(p: Point, q: Point, a: Point, b: Point, z: Point)
    requires p.x != q.x && Turn(p, q, a) == 0 && Turn(p, q, b) == 0 && Turn(p, q, z) == 0
    requires Min(a.x, b.x) <= z.x <= Max(a.x, b.x)
    ensures OnSegment(a, z, b)
  {
    var dx, dy := q.x - p.x, q.y - p.y;
    assert dy * (a.x - q.x) == dx * (a.y - q.y);
    assert dy * (b.x - q.x) == dx * (b.y - q.y);
    assert dy * (z.x - q.x) == dx * (z.y - q.y);
    assert dx * (z.y - a.y) == dy * (z.x - a.x);
    assert dx * (b.y - a.y) == dy * (b.x - a.x);
    SlopeBetween(dx, dy, z.x - a.x, b.x - a.x, z.y - a.y, b.y - a.y);
  }

  function Swapped(p: Point): Point
  {
    Point(p.y, p.x)
  }

  /** Exchanging the axes mirrors every turn. */
  lemma TurnSwapped(a: Point, b: Point, c: Point)
    ensures Turn(Swapped(a), Swapped(b), Swapped(c)) == -Turn(a, b, c)
  {
  }

  /** Two segments on one non-vertical line that share a point, where
      neither end of the second lies in the first's box: the first's start
      lies in the second's. */
  lemma CollinearOverlapAcross(p1: Point, q1: Point, p2: Point, q2: Point, c: Point)
    requires p1.x != q1.x && Turn(p1, q1, p2) == 0 && Turn(p1, q1, q2) == 0
    requires Between(c, p1, q1) && OnSegment(p2, c, q2)
    requires !OnSegment(p1, p2, q1) && !OnSegment(p1, q2, q1)
    ensures OnSegment(p2, p1, q2)
  {
    assert Turn(p1, q1, p1) == 0 && Turn(p1, q1, q1) == 0;
    if Min(p1.x, q1.x) <= p2.x <= Max(p1.x, q1.x) {
      LineBetween(p1, q1, p1, q1, p2);
    }
    if Min(p1.x, q1.x) <= q2.x <= Max(p1.x, q1.x) {
      LineBetween(p1, q1, p1, q1, q2);
    }
    LineBetween(p1, q1, p2, q2, p1);
  }

  /** Two segments on one line that share a point, where neither end of
      the second lies in the first's box: the second's orientation test
      finds the first's start collinear and in its box. */
  lemma CollinearOverlap(p1: Point, q1: Point, p2: Point, q2: Point, c: Point)
    requires p1 != q1 && Turn(p1, q1, p2) == 0 && Turn(p1, q1, q2) == 0
    requires Between(c, p1, q1) && Between(c, p2, q2)
    requires !OnSegment(p1, p2, q1) && !OnSegment(p1, q2, q1)
    ensures Turn(p2, q2, p1) == 0 && OnSegment(p2, p1, q2)
  {
    assert Turn(p1, q1, p1) == 0;
    CollinearTransfer(p1, q1, p2, q2, p1);
    if p1.x != q1.x {
      CollinearOverlapAcross(p1, q1, p2, q2, c);
    } else {
      var (a, b, x, y, z) := (Swapped(p1), Swapped(q1), Swapped(p2), Swapped(q2), Swapped(c));
      TurnSwapped(p1, q1, p2);
      TurnSwapped(p1, q1, q2);
      TurnSwapped(p1, q1, c);
      CollinearOverlapAcross(a, b, x, y, z);
    }
  }

  /** Two segments that share a point intersect. */
  lemma CommonPointIntersects(p1: Point, q1: Point, p2: Point, q2: Point, c: Point)
    requires Between(c, p1, q1) && Between(c, p2, q2)
    ensures Intersect(Some(p1), Some(q1), Some(p2), Some(q2))
  {
    var o1 := Orientation(p1, q1, p2);
    var o2 := Orientation(p1, q1, q2);
    var o3 := Orientation(p2, q2, p1);
    var o4 := Orientation(p2, q2, q1);
    if o1 != o2 && o3 != o4 {
    } else if p1 == q1 {
      assert c == p1;
    } else if p2 == q2 {
      assert c == p2;
    } else if o1 == o2 {
      if o1 == 1 {
        SameSideSegment(p1, q1, p2, q2, c);
      } else if o1 == 2 {
        SameSideSegmentRight(p1, q1, p2, q2, c);
      } else if !OnSegment(p1, p2, q1) && !OnSegment(p1, q2, q1) {
        CollinearOverlap(p1, q1, p2, q2, c);
      }
    } else {
      if o3 == 1 {
        SameSideSegment(p2, q2, p1, q1, c);
      } else if o3 == 2 {
        SameSideSegmentRight(p2, q2, p1, q1, c);
      } else if !OnSegment(p2, p1, q2) && !OnSegment(p2, q1, q2) {
        CollinearOverlap(p2, q2, p1, q1, c);
      }
    }
  }

  /** Both ends of one segment lie strictly on the same side of the line
      through the other. */
  predicate StrictlyApart(p1: Point, q1: Point, p2: Point, q2: Point)
  {
    (Turn(p1, q1, p2) > 0 && Turn(p1, q1, q2) > 0) || (Turn(p1, q1, p2) < 0 && Turn(p1, q1, q2) < 0) ||
    (Turn(p2, q2, p1) > 0 && Turn(p2, q2, q1) > 0) || (Turn(p2, q2, p1) < 0 && Turn(p2, q2, q1) < 0)
  }

  /** All four points lie on one line, and the two segments' extents are
      apart along the x or the y axis. */
  predicate CollinearApart(p1: Point, q1: Point, p2: Point, q2: Point)
  {
    Turn(p1, q1, p2) == 0 && Turn(p1, q1, q2) == 0 && Turn(p2, q2, p1) == 0 && Turn(p2, q2, q1) == 0 &&
    (Max(p1.x, q1.x) < Min(p2.x, q2.x) || Max(p2.x, q2.x) < Min(p1.x, q1.x) ||
     Max(p1.y, q1.y) < Min(p2.y, q2.y) || Max(p2.y, q2.y) < Min(p1.y, q1.y))
  }

  /** Segments strictly apart are rejected: the general case sees equal
      orientations, and no collinear special case can apply. */
  lemma StrictSideMisses(p1: Point, q1: Point, p2: Point, q2: Point)
    requires StrictlyApart(p1, q1, p2, q2)
    ensures !Intersect(Some(p1), Some(q1), Some(p2), Some(q2))
  {
    if (Turn(p1, q1, p2) > 0 && Turn(p1, q1, q2) > 0) || (Turn(p1, q1, p2) < 0 && Turn(p1, q1, q2) < 0) {
      OneSideMisses(p1, q1, p2, q2);
    } else {
      OneSideMisses(p2, q2, p1, q1);
      IntersectSymmetric(Some(p1), Some(q1), Some(p2), Some(q2));
    }
  }

  /** The case of `StrictSideMisses` where the second segment lies off the
      first's line. */
  lemma OneSideMisses(a: Point, b: Point, c: Point, d: Point)
    requires (Turn(a, b, c) > 0 && Turn(a, b, d) > 0) || (Turn(a, b, c) < 0 && Turn(a, b, d) < 0)
    ensures !Intersect(Some(a), Some(b), Some(c), Some(d))
  {
    assert Turn(a, b, a) == 0 && Turn(a, b, b) == 0;
    if Turn(a, b, c) > 0 {
      if Between(a, c, d) {
        SameSideSegment(a, b, c, d, a);
      }
      if Between(b, c, d) {
        SameSideSegment(a, b, c, d, b);
      }
    } else {
      if Between(a, c, d) {
        SameSideSegmentRight(a, b, c, d, a);
      }
      if Between(b, c, d) {
        SameSideSegmentRight(a, b, c, d, b);
      }
    }
  }

  /** Collinear segments apart along an axis are rejected. */
  lemma CollinearApartMisses(p1: Point, q1: Point, p2: Point, q2: Point)
    requires CollinearApart(p1, q1, p2, q2)
    ensures !Intersect(Some(p1), Some(q1), Some(p2), Some(q2))
  {
  }

  /** When the second segment's ends lie on the first's line, the first's
      ends lie on the second's line too, or on the same side of it. */
  lemma OnLineBothWays(a: Point, b: Point, c: Point, d: Point)
    requires Turn(a, b, c) == 0 && Turn(a, b, d) == 0
    ensures Orientation(c, d, a) == Orientation(c, d, b)
  {
    if a != b && c != d {
      assert Turn(a, b, a) == 0 && Turn(a, b, b) == 0;
      CollinearTransfer(a, b, c, d, a);
      CollinearTransfer(a, b, c, d, b);
    } else if c != d {
      assert a == b;
    }
  }

  /** Four points on one line, with neither segment's box holding an end
      of the other: their extents are apart along an axis. */
  lemma CollinearSeparated(a: Point, b: Point, c: Point, d: Point)
    requires Turn(a, b, c) == 0 && Turn(a, b, d) == 0 && Turn(c, d, a) == 0 && Turn(c, d, b) == 0
    requires !OnSegment(a, c, b) && !OnSegment(a, d, b) && !OnSegment(c, a, d) && !OnSegment(c, b, d)
    ensures CollinearApart(a, b, c, d)
  {
    if a.x != b.x {
      assert Turn(a, b, a) == 0 && Turn(a, b, b) == 0;
      OnLineByX(a, b, a, b, c);
      OnLineByX(a, b, a, b, d);
      OnLineByX(a, b, c, d, a);
      OnLineByX(a, b, c, d, b);
    } else if c.x != d.x {
      assert Turn(c, d, c) == 0 && Turn(c, d, d) == 0;
      OnLineByX(c, d, c, d, a);
      OnLineByX(c, d, c, d, b);
      OnLineByX(c, d, a, b, c);
      OnLineByX(c, d, a, b, d);
    }
  }

  /** On a line that is not vertical, a point of the line lies in the box
      of two others exactly when its x lies between theirs. */
  lemma OnLineByX(p: Point, q: Point, a: Point, b: Point, z: Point)
    requires p.x != q.x && Turn(p, q, a) == 0 && Turn(p, q, b) == 0 && Turn(p, q, z) == 0
    ensures OnSegment(a, z, b) <==> Min(a.x, b.x) <= z.x <= Max(a.x, b.x)
  {
    if Min(a.x, b.x) <= z.x <= Max(a.x, b.x) {
      LineBetween(p, q, a, b, z);
    }
  }

  /** The test accepts exactly the segments that are neither strictly
      apart nor collinear and apart. */
  lemma IntersectIffNotApart(p1: Point, q1: Point, p2: Point, q2: Point)
    ensures Intersect(Some(p1), Some(q1), Some(p2), Some(q2)) <==>
            !StrictlyApart(p1, q1, p2, q2) && !CollinearApart(p1, q1, p2, q2)
  {
    if StrictlyApart(p1, q1, p2, q2) {
      StrictSideMisses(p1, q1, p2, q2);
    } else if CollinearApart(p1, q1, p2, q2) {
      CollinearApartMisses(p1, q1, p2, q2);
    } else if !Intersect(Some(p1), Some(q1), Some(p2), Some(q2)) {
      var o1 := Orientation(p1, q1, p2);
      var o2 := Orientation(p1, q1, q2);
      var o3 := Orientation(p2, q2, p1);
      var o4 := Orientation(p2, q2, q1);
      if o1 == o2 {
        assert o1 == 0;
        OnLineBothWays(p1, q1, p2, q2);
        CollinearSeparated(p1, q1, p2, q2);
      } else {
        assert o3 == o4 && o3 == 0;
        OnLineBothWays(p2, q2, p1, q1);
      }
    }
  }

  /** Two segments that share a starting point intersect. */
  lemma SharedEndpointIntersects(p: Point, q1: Point, q2: Point)
    ensures Intersect(Some(p), Some(q1), Some(p), Some(q2))
  {
    assert Turn(p, q1, p) == 0;
  }
}
