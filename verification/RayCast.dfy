/**
 * Point-in-polygon by ray casting (HeatZoneManager.ts:538-553) and the polygon's
 * bounding box (HeatZoneManager.ts:434-458).
 *
 * The grid index of `HeatZones` is sound because of one geometric fact proved
 * here: a point that a ray-cast calls inside lies in the bounding box.  Above,
 * below and right of the box no edge is crossed; left of it every edge that
 * straddles the ray is crossed, and a closed ring straddles an even number of
 * times.
 */
module RayCast {
  import opened Common

  datatype Point = Point(lon: real, lat: real)

  type Polygon = seq<Point>

  datatype Box = Box(minLon: real, maxLon: real, minLat: real, maxLat: real)

  /** The ray from `p` towards growing longitude crosses the edge `a`-`b`. */
  predicate Crosses(p: Point, a: Point, b: Point) {
    && (a.lat > p.lat) != (b.lat > p.lat)
    && p.lon < ScaledBy(b.lon - a.lon, p.lat - a.lat, b.lat - a.lat) + a.lon
  }

  /** `d` scaled by the fraction `num / den`. */
  function ScaledBy(d: real, num: real, den: real): real
    requires den != 0.0
  {
    (d * num) / den
  }

  /** The vertex before `i` on the ring; the last vertex comes before the first. */
  function Prev(poly: Polygon, i: nat): Point
    requires i < |poly|
  {
    if i == 0 then poly[|poly| - 1] else poly[i - 1]
  }

  /** How many of the edges that end at the first `n` vertices the ray crosses. */
  function Crossings(p: Point, poly: Polygon, n: nat): nat
    requires n <= |poly|
  {
    if n == 0 then 0
    else Crossings(p, poly, n - 1) + if Crosses(p, poly[n - 1], Prev(poly, n - 1)) then 1 else 0
  }

  /** The even-odd rule. */
  predicate Inside(p: Point, poly: Polygon) {
    Crossings(p, poly, |poly|) % 2 == 1
  }

  // ---- What an edge crossed is ----

  /** At the share `t` of the way from `a` to `b` the edge is at the point's latitude, and right of it. */
  ghost predicate MeetsAt(p: Point, a: Point, b: Point, t: real) {
    && 0.0 <= t <= 1.0
    && a.lat + t * (b.lat - a.lat) == p.lat
    && p.lon < a.lon + t * (b.lon - a.lon)
  }

  /** The edge has an end on either side of the ray, and somewhere on it meets the ray. */
  ghost predicate Meets(p: Point, a: Point, b: Point) {
    (a.lat > p.lat) != (b.lat > p.lat) && exists t: real :: MeetsAt(p, a, b, t)
  }

  lemma SameShare(t: real, num: real, den: real)
    requires den != 0.0 && t * den == num
    ensures t == num / den
  {
  }

  lemma ShareOfDifference(d: real, num: real, den: real)
    requires den != 0.0
    ensures (num / den) * d == (d * num) / den
  {
    var t := num / den;
    assert t * den == num;
    assert (t * d) * den == d * num by {
      assert (t * d) * den == d * (t * den);
    }
    SameShare(t * d, d * num, den);
  }

  lemma ShareInRange(num: real, den: real)
    requires (0.0 <= num <= den && den > 0.0) || (den <= num <= 0.0 && den < 0.0)
    ensures 0.0 <= num / den <= 1.0
  {
    var t := num / den;
    assert t * den == num;
  }

  /** The arithmetic of the loop finds the edges that meet the ray. */
  lemma CrossesIffMeets(p: Point, a: Point, b: Point)
    ensures Crosses(p, a, b) <==> Meets(p, a, b)
  {
    if (a.lat > p.lat) != (b.lat > p.lat) {
      var num, den := p.lat - a.lat, b.lat - a.lat;
      var t := num / den;
      ShareInRange(num, den);
      ShareOfDifference(b.lon - a.lon, num, den);
      assert t * den == num;
      forall u: real | MeetsAt(p, a, b, u)
        ensures u == t
      {
        assert u * den == num;
        SameShare(u, num, den);
      }
      assert Crosses(p, a, b) <==> MeetsAt(p, a, b, t);
    }
  }

  /** The edge that leads to vertex `i` meets the ray; the ring is closed. */
  ghost predicate MetAt(p: Point, poly: Polygon, i: nat)
    requires i < |poly|
  {
    Meets(p, poly[i], if i == 0 then poly[|poly| - 1] else poly[i - 1])
  }

  ghost function Met(p: Point, poly: Polygon, n: nat): set<nat>
    requires n <= |poly|
  {
    set i: nat | i < n && MetAt(p, poly, i)
  }

  lemma MetOneMore(p: Point, poly: Polygon, n: nat)
    requires n < |poly|
    ensures |Met(p, poly, n + 1)| == |Met(p, poly, n)| + if MetAt(p, poly, n) then 1 else 0
  {
    hide MetAt;
    assert Met(p, poly, n + 1) == Met(p, poly, n) + if MetAt(p, poly, n) then {n} else {};
  }

  lemma {:induction false} CrossingsAreMet(p: Point, poly: Polygon, n: nat)
    requires n <= |poly|
    ensures Crossings(p, poly, n) == |Met(p, poly, n)|
  {
    if n > 0 {
      hide Meets, Crosses, Met;
      CrossingsAreMet(p, poly, n - 1);
      CrossesIffMeets(p, poly[n - 1], Prev(poly, n - 1));
      MetOneMore(p, poly, n - 1);
    }
  }

  /** A point is inside exactly when an odd number of edges meets the ray from it. */
  lemma {:induction false} InsideIffOddlyMet(p: Point, poly: Polygon)
    ensures Inside(p, poly) <==> |Met(p, poly, |poly|)| % 2 == 1
  {
    hide Crossings, Met;
    CrossingsAreMet(p, poly, |poly|);
  }

  /** `raycastPIP`: the toggling loop decides the even-odd rule. */
  method RaycastPIP(p: Point, poly: Polygon) returns (inside: bool)
    ensures inside == Inside(p, poly)
    ensures inside <==> |Met(p, poly, |poly|)| % 2 == 1
  {
    InsideIffOddlyMet(p, poly);
    hide Met, Crosses;
    inside := false;
    var i, j := 0, |poly| - 1;
    while i < |poly|
      invariant 0 <= i <= |poly|
      invariant j == if i == 0 then |poly| - 1 else i - 1
      invariant inside == (Crossings(p, poly, i) % 2 == 1)
    {
      if Crosses(p, poly[i], poly[j]) {
        inside := !inside;
      }
      j := i;
      i := i + 1;
    }
  }

  // ---- The bounding box ----

  function BBox(poly: Polygon): Box
    requires |poly| > 0
  {
    var p := poly[|poly| - 1];
    if |poly| == 1 then Box(p.lon, p.lon, p.lat, p.lat)
    else
      var b := BBox(poly[..|poly| - 1]);
      Box(Min(b.minLon, p.lon), Max(b.maxLon, p.lon), Min(b.minLat, p.lat), Max(b.maxLat, p.lat))
  }

  predicate InBox(p: Point, b: Box) {
    b.minLon <= p.lon <= b.maxLon && b.minLat <= p.lat <= b.maxLat
  }

  /** The box holds every vertex, and each of its four sides touches one: it is the least such box. */
  lemma {:induction false} BBoxIsTight(poly: Polygon)
    requires |poly| > 0
    ensures forall i :: 0 <= i < |poly| ==> InBox(poly[i], BBox(poly))
    ensures exists i :: 0 <= i < |poly| && poly[i].lon == BBox(poly).minLon
    ensures exists i :: 0 <= i < |poly| && poly[i].lon == BBox(poly).maxLon
    ensures exists i :: 0 <= i < |poly| && poly[i].lat == BBox(poly).minLat
    ensures exists i :: 0 <= i < |poly| && poly[i].lat == BBox(poly).maxLat
  {
    var n := |poly| - 1;
    if n == 0 {
      assert poly[0].lon == BBox(poly).minLon;
    } else {
      var front := poly[..n];
      BBoxIsTight(front);
      var b := BBox(front);
      var w :| 0 <= w < n && front[w].lon == b.minLon;
      var e :| 0 <= e < n && front[e].lon == b.maxLon;
      var s :| 0 <= s < n && front[s].lat == b.minLat;
      var t :| 0 <= t < n && front[t].lat == b.maxLat;
      forall i | 0 <= i < n
        ensures InBox(poly[i], BBox(poly))
      {
        assert InBox(front[i], b);
      }
      assert poly[n].lon == BBox(poly).minLon || poly[w].lon == BBox(poly).minLon;
      assert poly[n].lon == BBox(poly).maxLon || poly[e].lon == BBox(poly).maxLon;
      assert poly[n].lat == BBox(poly).minLat || poly[s].lat == BBox(poly).minLat;
      assert poly[n].lat == BBox(poly).maxLat || poly[t].lat == BBox(poly).maxLat;
    }
  }

  /** `polygonBBox`: one pass over the vertices. */
  method PolygonBBox(poly: Polygon) returns (b: Box)
    requires |poly| > 0
    ensures b == BBox(poly)
  {
    b := Box(poly[0].lon, poly[0].lon, poly[0].lat, poly[0].lat);
    var i := 1;
    while i < |poly|
      invariant 1 <= i <= |poly|
      invariant b == BBox(poly[..i])
    {
      assert poly[..i + 1][..i] == poly[..i];
      var p := poly[i];
      if p.lon < b.minLon { b := b.(minLon := p.lon); }
      if p.lon > b.maxLon { b := b.(maxLon := p.lon); }
      if p.lat < b.minLat { b := b.(minLat := p.lat); }
      if p.lat > b.maxLat { b := b.(maxLat := p.lat); }
      i := i + 1;
    }
    assert poly[..|poly|] == poly;
  }

  // ---- Inside implies in the box ----

  predicate Straddles(p: Point, a: Point, b: Point) {
    (a.lat > p.lat) != (b.lat > p.lat)
  }

  lemma ProductOrder(a: real, b: real, c: real)
    requires a <= b && c >= 0.0
    ensures a * c <= b * c
  {
  }

  lemma Cancel(a: real, b: real, c: real)
    requires c != 0.0 && (c > 0.0 ==> a * c <= b * c) && (c < 0.0 ==> a * c >= b * c)
    ensures a <= b
  {
  }

  lemma QuotientBetween(x: real, den: real, lo: real, hi: real)
    requires den != 0.0
    requires den > 0.0 ==> lo * den <= x <= hi * den
    requires den < 0.0 ==> hi * den <= x <= lo * den
    ensures lo <= x / den <= hi
  {
    var r := x / den;
    assert r * den == x;
    Cancel(lo, r, den);
    Cancel(r, hi, den);
  }

  /** A number scaled by a fraction `num / den` in [0, 1] stays between 0 and itself. */
  lemma ScaledByFraction(d: real, num: real, den: real)
    requires (0.0 <= num <= den && den > 0.0) || (den <= num <= 0.0 && den < 0.0)
    ensures Min(0.0, d) <= ScaledBy(d, num, den) <= Max(0.0, d)
  {
    var m := if d >= 0.0 then d else -d;
    if den > 0.0 {
      ProductOrder(0.0, num, m);
      ProductOrder(num, den, m);
    } else {
      ProductOrder(num, 0.0, m);
      ProductOrder(den, num, m);
    }
    QuotientBetween(d * num, den, Min(0.0, d), Max(0.0, d));
  }

  /** Where an edge meets the ray's latitude lies between the longitudes of its ends. */
  lemma EdgeMeetsRayBetweenEnds(p: Point, a: Point, b: Point)
    requires Straddles(p, a, b)
    ensures Crosses(p, a, b) ==> p.lon < Max(a.lon, b.lon)
    ensures p.lon < Min(a.lon, b.lon) ==> Crosses(p, a, b)
  {
    hide ScaledBy;
    ScaledByFraction(b.lon - a.lon, p.lat - a.lat, b.lat - a.lat);
  }

  /** A point left of every vertex crosses exactly the edges that straddle its latitude. */
  lemma LeftOfRingCrossesStraddlers(p: Point, poly: Polygon)
    requires forall i :: 0 <= i < |poly| ==> p.lon < poly[i].lon
    ensures forall i :: 0 <= i < |poly| ==> Crosses(p, poly[i], Prev(poly, i)) == Straddles(p, poly[i], Prev(poly, i))
  {
    forall i | 0 <= i < |poly|
      ensures Crosses(p, poly[i], Prev(poly, i)) == Straddles(p, poly[i], Prev(poly, i))
    {
      if Straddles(p, poly[i], Prev(poly, i)) {
        EdgeMeetsRayBetweenEnds(p, poly[i], Prev(poly, i));
      }
    }
  }

  /** A closed ring changes sides of the ray's line an even number of times. */
  lemma {:induction false} StraddlesTelescope(p: Point, poly: Polygon, n: nat)
    requires 0 < n <= |poly|
    requires forall i :: 0 <= i < |poly| ==> Crosses(p, poly[i], Prev(poly, i)) == Straddles(p, poly[i], Prev(poly, i))
    ensures (Crossings(p, poly, n) % 2 == 1) == Straddles(p, poly[n - 1], poly[|poly| - 1])
  {
    var c := Crosses(p, poly[n - 1], Prev(poly, n - 1));
    assert Crossings(p, poly, n) == Crossings(p, poly, n - 1) + if c then 1 else 0;
    if n > 1 {
      StraddlesTelescope(p, poly, n - 1);
    }
  }

  lemma {:induction false} NothingCrossed(p: Point, poly: Polygon, n: nat)
    requires n <= |poly|
    requires forall i :: 0 <= i < |poly| ==> !Crosses(p, poly[i], Prev(poly, i))
    ensures Crossings(p, poly, n) == 0
  {
    if n > 0 {
      NothingCrossed(p, poly, n - 1);
    }
  }

  /** An edge inside a box is not crossed from above, below or right of it. */
  lemma BesideBoxMissesEdge(p: Point, a: Point, b: Point, box: Box)
    requires InBox(a, box) && InBox(b, box)
    requires p.lat < box.minLat || p.lat > box.maxLat || p.lon > box.maxLon
    ensures !Crosses(p, a, b)
  {
    if Straddles(p, a, b) {
      EdgeMeetsRayBetweenEnds(p, a, b);
    }
  }

  lemma LeftOfRingIsOutside(p: Point, poly: Polygon)
    requires forall i :: 0 <= i < |poly| ==> p.lon < poly[i].lon
    ensures !Inside(p, poly)
  {
    LeftOfRingCrossesStraddlers(p, poly);
    if |poly| > 0 {
      StraddlesTelescope(p, poly, |poly|);
    }
  }

  lemma BesideBoxIsOutside(p: Point, poly: Polygon, b: Box)
    requires forall i :: 0 <= i < |poly| ==> InBox(poly[i], b)
    requires p.lat < b.minLat || p.lat > b.maxLat || p.lon > b.maxLon
    ensures !Inside(p, poly)
  {
    forall i | 0 <= i < |poly|
      ensures !Crosses(p, poly[i], Prev(poly, i))
    {
      BesideBoxMissesEdge(p, poly[i], Prev(poly, i), b);
    }
    NothingCrossed(p, poly, |poly|);
  }

  lemma InsideIsInBoxOf(p: Point, poly: Polygon, b: Box)
    requires Inside(p, poly)
    requires forall i :: 0 <= i < |poly| ==> InBox(poly[i], b)
    ensures InBox(p, b)
  {
    if p.lon < b.minLon {
      LeftOfRingIsOutside(p, poly);
    } else if !InBox(p, b) {
      BesideBoxIsOutside(p, poly, b);
    }
  }

  /** An odd crossing count puts the point inside the bounding box. */
  lemma InsideIsInBox(p: Point, poly: Polygon)
    requires Inside(p, poly)
    ensures |poly| > 0 && InBox(p, BBox(poly))
  {
    assert |poly| > 0;
    BBoxIsTight(poly);
    InsideIsInBoxOf(p, poly, BBox(poly));
  }

  // ---- Open and closed rings ----

  lemma {:induction false} ClosingVertexPrefix(p: Point, poly: Polygon, n: nat)
    requires 0 < n <= |poly|
    ensures Crossings(p, poly + [poly[0]], n) + (if Crosses(p, poly[0], poly[|poly| - 1]) then 1 else 0)
            == Crossings(p, poly, n)
  {
    var ring := poly + [poly[0]];
    if n == 1 {
      assert Prev(ring, 0) == poly[0];
      assert Crossings(p, ring, 0) == 0 == Crossings(p, poly, 0);
    } else {
      ClosingVertexPrefix(p, poly, n - 1);
      assert ring[n - 1] == poly[n - 1] && Prev(ring, n - 1) == Prev(poly, n - 1);
    }
  }

  /**
   * A generated ring repeats its first vertex at the end and a drawn one need
   * not: both spellings hold the same points.
   */
  lemma ClosingVertexIsIrrelevant(p: Point, poly: Polygon)
    requires |poly| > 0
    ensures Inside(p, poly + [poly[0]]) == Inside(p, poly)
  {
    var ring := poly + [poly[0]];
    ClosingVertexPrefix(p, poly, |poly|);
    assert ring[|poly|] == poly[0] && Prev(ring, |poly|) == poly[|poly| - 1];
    assert Crossings(p, ring, |ring|) == Crossings(p, ring, |poly|) + if Crosses(p, poly[0], poly[|poly| - 1]) then 1 else 0;
  }
}
