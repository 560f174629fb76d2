/**
 * Clipping one segment to a box (clip.ts:15-57), over exact reals.
 *
 * The specification speaks of the parameter interval whose points lie in the
 * box; the Liang-Barsky loop is proved to find it.
 */
module ClipSegments {
  import opened Common

  datatype Point = Point(x: real, y: real)

  datatype Bbox = Bbox(w: real, s: real, e: real, n: real)

  predicate Inside(p: Point, box: Bbox) {
    box.w <= p.x <= box.e && box.s <= p.y <= box.n
  }

  /** The point a fraction `t` of the way from `a` to `b`. */
  function At(a: Point, b: Point, t: real): Point {
    Point(a.x + (b.x - a.x) * t, a.y + (b.y - a.y) * t)
  }

  predicate InsideAt(a: Point, b: Point, box: Bbox, t: real) {
    Inside(At(a, b, t), box)
  }

  /** Exactly the fractions between `t0` and `t1` lie in the box. */
  ghost predicate Spans(a: Point, b: Point, box: Bbox, t0: real, t1: real) {
    && 0.0 <= t0 <= t1 <= 1.0
    && forall t :: 0.0 <= t <= 1.0 ==> (InsideAt(a, b, box, t) <==> t0 <= t <= t1)
  }

  /** The ends of the part of the segment in the box; there may be no such part. */
  ghost function ClipOf(a: Point, b: Point, box: Bbox): Option<(Point, Point)> {
    if exists t0, t1 :: Spans(a, b, box, t0, t1) then
      var t0, t1 :| Spans(a, b, box, t0, t1);
      Some((At(a, b, t0), At(a, b, t1)))
    else None
  }

  lemma SpansIsUnique(a: Point, b: Point, box: Bbox, t0: real, t1: real, u0: real, u1: real)
    requires Spans(a, b, box, t0, t1) && Spans(a, b, box, u0, u1)
    ensures t0 == u0 && t1 == u1
  {
    assert InsideAt(a, b, box, t0) && InsideAt(a, b, box, t1);
    assert InsideAt(a, b, box, u0) && InsideAt(a, b, box, u1);
  }

  lemma SpansDecides(a: Point, b: Point, box: Bbox, t0: real, t1: real)
    requires Spans(a, b, box, t0, t1)
    ensures ClipOf(a, b, box) == Some((At(a, b, t0), At(a, b, t1)))
  {
    var u0, u1 :| Spans(a, b, box, u0, u1) && ClipOf(a, b, box) == Some((At(a, b, u0), At(a, b, u1)));
    SpansIsUnique(a, b, box, t0, t1, u0, u1);
  }

  // ---- The loop ----

  /** One side of the box, as a bound `p * t <= q` on the fraction. */
  type Side = (real, real)

  function Sides(a: Point, b: Point, box: Bbox): seq<Side> {
    var dx, dy := b.x - a.x, b.y - a.y;
    [(-dx, a.x - box.w), (dx, box.e - a.x), (-dy, a.y - box.s), (dy, box.n - a.y)]
  }

  predicate Meets(side: Side, t: real) {
    side.0 * t <= side.1
  }

  predicate MeetsAll(sides: seq<Side>, t: real) {
    forall i :: 0 <= i < |sides| ==> Meets(sides[i], t)
  }

  lemma InsideMeetsSides(a: Point, b: Point, box: Bbox, t: real)
    ensures Inside(At(a, b, t), box) <==> MeetsAll(Sides(a, b, box), t)
  {
    var sides := Sides(a, b, box);
    assert (-(b.x - a.x)) * t == -((b.x - a.x) * t);
    assert (-(b.y - a.y)) * t == -((b.y - a.y) * t);
    assert MeetsAll(sides, t) <==> Meets(sides[0], t) && Meets(sides[1], t) && Meets(sides[2], t) && Meets(sides[3], t);
  }

  /** A sloped side bounds the fraction by the quotient, from below or from above. */
  lemma SlopedSide(side: Side, t: real)
    requires side.0 != 0.0
    ensures side.0 > 0.0 ==> (Meets(side, t) <==> t <= side.1 / side.0)
    ensures side.0 < 0.0 ==> (Meets(side, t) <==> side.1 / side.0 <= t)
  {
    var r := side.1 / side.0;
    assert r * side.0 == side.1;
    if side.0 > 0.0 {
      if t <= r { assert side.0 * t <= side.0 * r; } else { assert side.0 * t > side.0 * r; }
    } else {
      if r <= t { assert side.0 * t <= side.0 * r; } else { assert side.0 * t > side.0 * r; }
    }
  }

  /** Exactly the fractions between `t0` and `t1` meet all the sides. */
  ghost predicate Narrowed(sides: seq<Side>, t0: real, t1: real) {
    forall t :: 0.0 <= t <= 1.0 ==> (MeetsAll(sides, t) <==> t0 <= t <= t1)
  }

  /** The interval left by one more side; empty when the lower end passes the upper. */
  lemma NarrowStep(front: seq<Side>, side: Side, t0: real, t1: real)
    requires Narrowed(front, t0, t1)
    ensures side.0 == 0.0 && side.1 >= 0.0 ==> Narrowed(front + [side], t0, t1)
    ensures side.0 == 0.0 && side.1 < 0.0 ==> forall t :: 0.0 <= t <= 1.0 ==> !MeetsAll(front + [side], t)
    ensures side.0 < 0.0 ==> Narrowed(front + [side], if side.1 / side.0 > t0 then side.1 / side.0 else t0, t1)
    ensures side.0 > 0.0 ==> Narrowed(front + [side], t0, if side.1 / side.0 < t1 then side.1 / side.0 else t1)
  {
    forall t
      ensures MeetsAll(front + [side], t) <==> MeetsAll(front, t) && Meets(side, t)
      ensures side.0 > 0.0 ==> (Meets(side, t) <==> t <= side.1 / side.0)
      ensures side.0 < 0.0 ==> (Meets(side, t) <==> side.1 / side.0 <= t)
    {
      var all := front + [side];
      assert all[|front|] == side && forall i :: 0 <= i < |front| ==> all[i] == front[i];
      if side.0 != 0.0 {
        SlopedSide(side, t);
      }
    }
  }

  /** Once no fraction meets some of the sides, none meets them all. */
  lemma NoneMeets(a: Point, b: Point, box: Bbox, k: nat)
    requires k <= |Sides(a, b, box)|
    requires forall t :: 0.0 <= t <= 1.0 ==> !MeetsAll(Sides(a, b, box)[..k], t)
    ensures ClipOf(a, b, box) == None
    ensures forall t :: 0.0 <= t <= 1.0 ==> !InsideAt(a, b, box, t)
  {
    forall t | 0.0 <= t <= 1.0
      ensures !InsideAt(a, b, box, t)
    {
      InsideMeetsSides(a, b, box, t);
      if MeetsAll(Sides(a, b, box), t) {
        assert MeetsAll(Sides(a, b, box)[..k], t);
      }
    }
    forall t0, t1
      ensures !Spans(a, b, box, t0, t1)
    {
      assert 0.0 <= t0 <= 1.0 ==> !InsideAt(a, b, box, t0);
    }
  }


  /** The inner `at`: endpoints untouched, other points clamped to the box. */
  function Placed(a: Point, b: Point, box: Bbox, t: real): Point {
    if t == 0.0 then a
    else if t == 1.0 then b
    else Point(Min(box.e, Max(box.w, a.x + (b.x - a.x) * t)), Min(box.n, Max(box.s, a.y + (b.y - a.y) * t)))
  }

  lemma PlacedIsAt(a: Point, b: Point, box: Bbox, t: real)
    requires Inside(At(a, b, t), box)
    ensures Placed(a, b, box, t) == At(a, b, t)
  {
  }

  method ClipSegment(a: Point, b: Point, box: Bbox) returns (r: Option<(Point, Point)>)
    ensures r == ClipOf(a, b, box)
  {
    var t0, t1 := 0.0, 1.0;
    var sides := Sides(a, b, box);
    var k := 0;
    while k < |sides|
      invariant 0 <= k <= |sides|
      invariant 0.0 <= t0 <= t1 <= 1.0
      invariant Narrowed(sides[..k], t0, t1)
    {
      var (p, q) := sides[k];
      NarrowStep(sides[..k], sides[k], t0, t1);
      assert sides[..k + 1] == sides[..k] + [sides[k]];
      if p == 0.0 {
        if q < 0.0 {
          NoneMeets(a, b, box, k + 1);
          return None;
        }
      } else {
        var r := q / p;
        if p < 0.0 {
          if r > t1 {
            NoneMeets(a, b, box, k + 1);
            return None;
          }
          if r > t0 {
            t0 := r;
          }
        } else {
          if r < t0 {
            NoneMeets(a, b, box, k + 1);
            return None;
          }
          if r < t1 {
            t1 := r;
          }
        }
      }
      k := k + 1;
    }
    assert sides[..k] == sides;
    forall t | 0.0 <= t <= 1.0
      ensures InsideAt(a, b, box, t) <==> t0 <= t <= t1
    {
      InsideMeetsSides(a, b, box, t);
    }
    assert Spans(a, b, box, t0, t1);
    SpansDecides(a, b, box, t0, t1);
    assert InsideAt(a, b, box, t0) && InsideAt(a, b, box, t1);
    PlacedIsAt(a, b, box, t0);
    PlacedIsAt(a, b, box, t1);
    return Some((Placed(a, b, box, t0), Placed(a, b, box, t1)));
  }

  // ---- What the result means ----

  ghost predicate OnSegment(a: Point, b: Point, p: Point) {
    exists t :: 0.0 <= t <= 1.0 && p == At(a, b, t)
  }

  lemma SubInterval(x: real, d: real, t0: real, t1: real, s: real)
    ensures (x + d * t0) + ((x + d * t1) - (x + d * t0)) * s == x + d * (t0 + (t1 - t0) * s)
  {
    var u := (t1 - t0) * s;
    DifferenceScaled(d, t0, t1);
    ProductOfThree(d, t1 - t0, s);
    SumScaled(d, t0, u);
  }

  lemma DifferenceScaled(d: real, t0: real, t1: real)
    ensures d * t1 - d * t0 == d * (t1 - t0)
  {
  }

  lemma SumScaled(d: real, t: real, u: real)
    ensures d * (t + u) == d * t + d * u
  {
  }

  lemma ProductOfThree(d: real, e: real, s: real)
    ensures (d * e) * s == d * (e * s)
  {
  }

  /** The parameters of a sub-segment run over an interval of the segment's. */
  lemma SubSegment(a: Point, b: Point, t0: real, t1: real, s: real)
    ensures At(At(a, b, t0), At(a, b, t1), s) == At(a, b, t0 + (t1 - t0) * s)
  {
    SubInterval(a.x, b.x - a.x, t0, t1, s);
    SubInterval(a.y, b.y - a.y, t0, t1, s);
  }

  /** Every fraction in the interval is some fraction of the sub-segment. */
  lemma FractionOfInterval(t0: real, t1: real, t: real) returns (s: real)
    requires t0 <= t <= t1
    ensures 0.0 <= s <= 1.0 && t0 + (t1 - t0) * s == t
  {
    s := if t0 == t1 then 0.0 else (t - t0) / (t1 - t0);
    if t0 != t1 {
      var d := t1 - t0;
      assert s * d == t - t0;
      if s < 0.0 || s > 1.0 {
        FractionSign(s, d);
      }
    }
  }

  lemma FractionSign(s: real, d: real)
    requires d > 0.0
    ensures s < 0.0 ==> s * d < 0.0
    ensures s > 1.0 ==> s * d > d
  {
    if s > 1.0 {
      assert (s - 1.0) * d > 0.0;
    }
  }

  lemma IntervalPoint(t0: real, t1: real, s: real) returns (t: real)
    requires t0 <= t1 && 0.0 <= s <= 1.0
    ensures t == t0 + (t1 - t0) * s && t0 <= t <= t1
  {
    t := t0 + (t1 - t0) * s;
    var d := t1 - t0;
    assert 0.0 <= d * s;
    assert d - d * s == d * (1.0 - s) >= 0.0;
  }

  /** No clip means no point of the segment is in the box. */
  lemma NoClipMeansOutside(a: Point, b: Point, box: Bbox)
    ensures ClipOf(a, b, box).None? <==> forall p :: OnSegment(a, b, p) ==> !Inside(p, box)
  {
    var r := ClipSegmentSpans(a, b, box);
    if r.Some? {
      var (t0, t1) := r.value;
      assert InsideAt(a, b, box, t0) && OnSegment(a, b, At(a, b, t0));
      SpansDecides(a, b, box, t0, t1);
    } else {
      forall p | OnSegment(a, b, p)
        ensures !Inside(p, box)
      {
        var t :| 0.0 <= t <= 1.0 && p == At(a, b, t);
        assert !InsideAt(a, b, box, t);
      }
    }
  }

  /** Bounds on a fraction leave an interval of [0, 1], or nothing. */
  lemma {:induction false} IntervalOf(sides: seq<Side>) returns (r: Option<(real, real)>)
    ensures r.Some? ==> 0.0 <= r.value.0 <= r.value.1 <= 1.0 && Narrowed(sides, r.value.0, r.value.1)
    ensures r.None? ==> forall t :: 0.0 <= t <= 1.0 ==> !MeetsAll(sides, t)
  {
    if sides == [] {
      return Some((0.0, 1.0));
    }
    var front, side := sides[..|sides| - 1], sides[|sides| - 1];
    assert sides == front + [side];
    r := IntervalOf(front);
    if r.None? {
      forall t | 0.0 <= t <= 1.0
        ensures !MeetsAll(sides, t)
      {
        if MeetsAll(sides, t) { assert MeetsAll(front, t); }
      }
      return;
    }
    var (t0, t1) := r.value;
    NarrowStep(front, side, t0, t1);
    if side.0 < 0.0 && side.1 / side.0 > t0 {
      t0 := side.1 / side.0;
    } else if side.0 > 0.0 && side.1 / side.0 < t1 {
      t1 := side.1 / side.0;
    }
    r := if t0 > t1 || (side.0 == 0.0 && side.1 < 0.0) then None else Some((t0, t1));
  }

  /** The box cuts an interval out of the segment, or nothing. */
  lemma ClipSegmentSpans(a: Point, b: Point, box: Bbox) returns (r: Option<(real, real)>)
    ensures r.Some? ==> Spans(a, b, box, r.value.0, r.value.1)
    ensures r.None? ==> ClipOf(a, b, box) == None && forall t :: 0.0 <= t <= 1.0 ==> !InsideAt(a, b, box, t)
  {
    var sides := Sides(a, b, box);
    r := IntervalOf(sides);
    assert sides[..|sides|] == sides;
    if r.None? {
      NoneMeets(a, b, box, |sides|);
    } else {
      forall t | 0.0 <= t <= 1.0
        ensures InsideAt(a, b, box, t) <==> r.value.0 <= t <= r.value.1
      {
        InsideMeetsSides(a, b, box, t);
      }
    }
  }

  /** Every fraction of the sub-segment is some fraction in the interval. */
  lemma FractionOfSubSegment(a: Point, b: Point, t0: real, t1: real, s: real) returns (t: real)
    requires t0 <= t1 && 0.0 <= s <= 1.0
    ensures t0 <= t <= t1 && At(At(a, b, t0), At(a, b, t1), s) == At(a, b, t)
  {
    t := IntervalPoint(t0, t1, s);
    SubSegment(a, b, t0, t1, s);
  }

  lemma IntersectionIsInClip(a: Point, b: Point, box: Bbox, t0: real, t1: real, p: Point)
    requires Spans(a, b, box, t0, t1) && OnSegment(a, b, p) && Inside(p, box)
    ensures OnSegment(At(a, b, t0), At(a, b, t1), p)
  {
    var t :| 0.0 <= t <= 1.0 && p == At(a, b, t);
    assert InsideAt(a, b, box, t);
    var s := FractionOfInterval(t0, t1, t);
    SubSegment(a, b, t0, t1, s);
  }

  lemma ClipIsInIntersection(a: Point, b: Point, box: Bbox, t0: real, t1: real, p: Point)
    requires Spans(a, b, box, t0, t1) && OnSegment(At(a, b, t0), At(a, b, t1), p)
    ensures OnSegment(a, b, p) && Inside(p, box)
  {
    var s :| 0.0 <= s <= 1.0 && p == At(At(a, b, t0), At(a, b, t1), s);
    var t := FractionOfSubSegment(a, b, t0, t1, s);
    assert InsideAt(a, b, box, t);
  }

  /** A clip is, as a set of points, the segment's intersection with the box. */
  lemma ClipIsIntersection(a: Point, b: Point, box: Bbox, p: Point)
    requires ClipOf(a, b, box).Some?
    ensures OnSegment(ClipOf(a, b, box).value.0, ClipOf(a, b, box).value.1, p) <==> OnSegment(a, b, p) && Inside(p, box)
  {
    var t0, t1 :| Spans(a, b, box, t0, t1);
    SpansDecides(a, b, box, t0, t1);
    if OnSegment(a, b, p) && Inside(p, box) {
      IntersectionIsInClip(a, b, box, t0, t1, p);
    }
    if OnSegment(At(a, b, t0), At(a, b, t1), p) {
      ClipIsInIntersection(a, b, box, t0, t1, p);
    }
  }

  /** Both ends of a clip are in the box, and an end of the segment in the box is an end of the clip. */
  lemma ClipEnds(a: Point, b: Point, box: Bbox)
    ensures ClipOf(a, b, box).Some? ==> Inside(ClipOf(a, b, box).value.0, box) && Inside(ClipOf(a, b, box).value.1, box)
    ensures Inside(a, box) ==> ClipOf(a, b, box).Some? && ClipOf(a, b, box).value.0 == a
    ensures Inside(b, box) ==> ClipOf(a, b, box).Some? && ClipOf(a, b, box).value.1 == b
  {
    assert At(a, b, 0.0) == a && At(a, b, 1.0) == b;
    var r := ClipSegmentSpans(a, b, box);
    if r.Some? {
      var (t0, t1) := r.value;
      SpansDecides(a, b, box, t0, t1);
      assert InsideAt(a, b, box, t0) && InsideAt(a, b, box, t1);
      assert InsideAt(a, b, box, 0.0) == Inside(a, box) && InsideAt(a, b, box, 1.0) == Inside(b, box);
    } else {
      assert !InsideAt(a, b, box, 0.0) && !InsideAt(a, b, box, 1.0);
    }
  }
}
