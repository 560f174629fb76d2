/**
 * The encoded-polyline printer (HeatZoneManager.ts:583-611), against an
 * independent reader of Google's Encoded Polyline Algorithm Format.
 *
 * A path is a sequence of UTF-16 code units.  JavaScript's 32-bit shifts and
 * exclusive-or are written out as integer arithmetic.
 */
module Polyline {
  import opened Common
  import opened RayCast

  /** One UTF-16 code unit, what `String.fromCharCode` makes of any number. */
  type CodeUnit = u: int | 0 <= u < 0x1_0000

  function FromCharCode(x: int): CodeUnit {
    x % 0x1_0000
  }

  /** A number as a signed 32-bit integer, as JavaScript's bit operators read it. */
  function ToInt32(x: int): int {
    (x + 0x8000_0000) % 0x1_0000_0000 - 0x8000_0000
  }

  /** `(d << 1) ^ (d >> 31)`: exclusive-or with an all-ones word is the complement. */
  function ZigZag(d: int): int {
    if ToInt32(d) < 0 then -ToInt32(2 * d) - 1 else ToInt32(2 * d)
  }

  /** The scaled and rounded coordinate, `Math.round(x * 1e5)`. */
  function Scaled(x: real): int {
    (x * 100000.0 + 0.5).Floor
  }

  // ---- Printing ----

  /** Chunks of five bits, low first, all but the last marked; a negative number is one unit. */
  function Chunks(v: int): seq<CodeUnit>
    decreases v
  {
    if v < 0x20 then [FromCharCode(v + 63)]
    else [FromCharCode(0x20 + v % 0x20 + 63)] + Chunks(v / 0x20)
  }

  /** The inner loop of `encode`. */
  method Encode(current: real, previous: real) returns (str: seq<CodeUnit>)
    ensures str == Chunks(ZigZag(Scaled(current) - Scaled(previous)))
  {
    var coord2 := ZigZag(Scaled(current) - Scaled(previous));
    ghost var whole := Chunks(coord2);
    str := [];
    while coord2 >= 0x20
      invariant str + Chunks(coord2) == whole
      decreases coord2
    {
      str := str + [FromCharCode(0x20 + coord2 % 0x20 + 63)];
      coord2 := coord2 / 0x20;
    }
    str := str + [FromCharCode(coord2 + 63)];
  }

  /** Where the encoder stands before the `i`-th point. */
  function ScaledLatBefore(poly: Polygon, i: nat): int
    requires i <= |poly|
  {
    if i == 0 then 0 else Scaled(poly[i - 1].lat)
  }

  function ScaledLngBefore(poly: Polygon, i: nat): int
    requires i <= |poly|
  {
    if i == 0 then 0 else Scaled(poly[i - 1].lon)
  }

  /** What is printed for the `i`-th point: its difference from the one before. */
  function DeltaAt(poly: Polygon, i: nat): (int, int)
    requires i < |poly|
  {
    (Scaled(poly[i].lat) - ScaledLatBefore(poly, i), Scaled(poly[i].lon) - ScaledLngBefore(poly, i))
  }

  /** The path of the points from the `i`-th on, each relative to the one before. */
  function PathFrom(poly: Polygon, i: nat): seq<CodeUnit>
    requires i <= |poly|
    decreases |poly| - i
  {
    if i == |poly| then []
    else
      var (dLat, dLng) := DeltaAt(poly, i);
      Chunks(ZigZag(dLat)) + (Chunks(ZigZag(dLng)) + PathFrom(poly, i + 1))
  }

  /** `polygonToPath`. */
  method PolygonToPath(poly: Polygon) returns (path: seq<CodeUnit>)
    ensures path == PathFrom(poly, 0)
  {
    hide Chunks, ZigZag;
    path := [];
    var prevLat, prevLng := 0.0, 0.0;
    var i := 0;
    while i < |poly|
      invariant 0 <= i <= |poly|
      invariant i > 0 ==> prevLat == poly[i - 1].lat && prevLng == poly[i - 1].lon
      invariant i == 0 ==> prevLat == prevLng == 0.0
      invariant path + PathFrom(poly, i) == PathFrom(poly, 0)
    {
      var lat := Encode(poly[i].lat, prevLat);
      var lng := Encode(poly[i].lon, prevLng);
      assert Scaled(0.0) == 0;
      assert PathFrom(poly, i) == lat + (lng + PathFrom(poly, i + 1));
      assert path + PathFrom(poly, i) == path + lat + lng + PathFrom(poly, i + 1);
      path := path + lat + lng;
      prevLat, prevLng := poly[i].lat, poly[i].lon;
      i := i + 1;
    }
    assert PathFrom(poly, i) == [];
  }

  // ---- Reading, from the format's own description ----

  /** One number off the front: chunks of five bits until one without the continuation bit. */
  function ReadChunks(s: seq<CodeUnit>): (r: Option<(int, seq<CodeUnit>)>)
    ensures r.Some? ==> |r.value.1| < |s|
  {
    if s == [] then None
    else
      var b := (s[0] as int) - 63;
      if b < 0x20 then Some((b % 0x20, s[1..]))
      else match ReadChunks(s[1..])
        case None => None
        case Some((high, rest)) => Some((b % 0x20 + 0x20 * high, rest))
  }

  function UnZigZag(v: int): int {
    if v % 2 == 0 then v / 2 else -(v + 1) / 2
  }

  function ReadDelta(s: seq<CodeUnit>): (r: Option<(int, seq<CodeUnit>)>)
    ensures r.Some? ==> |r.value.1| < |s|
  {
    match ReadChunks(s)
    case None => None
    case Some((v, rest)) => Some((UnZigZag(v), rest))
  }

  /** The points of a path as pairs of scaled latitude and longitude, starting from `(lat, lng)`. */
  function ReadPath(s: seq<CodeUnit>, lat: int, lng: int): Option<seq<(int, int)>>
    decreases |s|
  {
    if s == [] then Some([])
    else match ReadDelta(s)
      case None => None
      case Some((dLat, s')) =>
        match ReadDelta(s')
        case None => None
        case Some((dLng, s'')) =>
          match ReadPath(s'', lat + dLat, lng + dLng)
          case None => None
          case Some(points) => Some([(lat + dLat, lng + dLng)] + points)
  }

  // ---- Round trip ----

  /** The differences whose doubling fits 32 bits. */
  predicate Encodable(d: int) {
    -0x4000_0000 <= d < 0x4000_0000
  }

  /** One unit off the front, with or without more to come. */
  lemma {:induction false} UnitIsRead(low: int, more: bool, rest: seq<CodeUnit>)
    requires 0 <= low < 0x20
    ensures var s := [FromCharCode((if more then 0x20 + low else low) + 63)] + rest;
            && (!more ==> ReadChunks(s) == Some((low, rest)))
            && (more ==> ReadChunks(s) == match ReadChunks(rest)
                                          case None => None
                                          case Some((high, after)) => Some((low + 0x20 * high, after)))
  {
    var u := (if more then 0x20 + low else low) + 63;
    var s := [FromCharCode(u)] + rest;
    assert FromCharCode(u) == u;
    assert s[0] == u && s[1..] == rest;
  }

  lemma {:induction false} ChunksAreRead(v: nat, rest: seq<CodeUnit>)
    requires v < 0x1_0000_0000
    ensures ReadChunks(Chunks(v) + rest) == Some((v, rest))
  {
    hide ReadChunks, FromCharCode;
    if v < 0x20 {
      UnitIsRead(v, false, rest);
    } else {
      var low, high := v % 0x20, v / 0x20;
      ChunksAreRead(high, rest);
      UnitIsRead(low, true, Chunks(high) + rest);
      assert Chunks(v) + rest == [FromCharCode(0x20 + low + 63)] + (Chunks(high) + rest);
      assert v == low + 0x20 * high;
    }
  }

  lemma ZigZagInRange(d: int)
    requires Encodable(d)
    ensures 0 <= ZigZag(d) < 0x8000_0000 && UnZigZag(ZigZag(d)) == d
  {
    assert ToInt32(d) == d && ToInt32(2 * d) == 2 * d;
    if d < 0 {
      assert ZigZag(d) == 2 * (-d - 1) + 1;
    }
  }

  lemma DeltaIsRead(d: int, rest: seq<CodeUnit>)
    requires Encodable(d)
    ensures ReadDelta(Chunks(ZigZag(d)) + rest) == Some((d, rest))
  {
    ZigZagInRange(d);
    ChunksAreRead(ZigZag(d), rest);
  }

  lemma ToInt32IsCongruent(x: int)
    ensures exists k :: x == ToInt32(x) + k * 0x1_0000_0000
    ensures -0x8000_0000 <= ToInt32(x) < 0x8000_0000
  {
    assert x == ToInt32(x) + ((x + 0x8000_0000) / 0x1_0000_0000) * 0x1_0000_0000;
  }

  /** A difference comes back from its own text exactly when its doubling fits 32 bits. */
  lemma DeltaRoundTripIff(d: int)
    ensures ReadDelta(Chunks(ZigZag(d))) == Some((d, [])) <==> Encodable(d)
  {
    if Encodable(d) {
      DeltaIsRead(d, []);
      assert Chunks(ZigZag(d)) + [] == Chunks(ZigZag(d));
    } else {
      ToInt32IsCongruent(2 * d);
      var v := ZigZag(d);
      if v >= 0 {
        ChunksAreRead(v, []);
        assert Chunks(v) + [] == Chunks(v);
        assert -0x4000_0000 <= UnZigZag(v) < 0x4000_0000;
      } else {
        assert |Chunks(v)| == 1;
        assert ReadChunks(Chunks(v)[1..]) == None;
      }
    }
  }

  /** The points a path describes: the rounded coordinates. */
  function Rounded(poly: Polygon, i: nat): seq<(int, int)>
    requires i <= |poly|
    decreases |poly| - i
  {
    if i == |poly| then []
    else [(Scaled(poly[i].lat), Scaled(poly[i].lon))] + Rounded(poly, i + 1)
  }

  predicate EncodableAt(poly: Polygon, i: nat)
    requires i < |poly|
  {
    Encodable(DeltaAt(poly, i).0) && Encodable(DeltaAt(poly, i).1)
  }

  /** Every difference along the path is encodable. */
  predicate AllEncodable(poly: Polygon) {
    forall i :: 0 <= i < |poly| ==> EncodableAt(poly, i)
  }

  /** One printed point is read off the front, and moves the reader to it. */
  lemma {:induction false} PointIsRead(lat: int, lng: int, dLat: int, dLng: int, rest: seq<CodeUnit>)
    requires Encodable(dLat) && Encodable(dLng)
    requires ReadPath(rest, lat + dLat, lng + dLng).Some?
    ensures ReadPath(Chunks(ZigZag(dLat)) + (Chunks(ZigZag(dLng)) + rest), lat, lng)
            == Some([(lat + dLat, lng + dLng)] + ReadPath(rest, lat + dLat, lng + dLng).value)
  {
    DeltaIsRead(dLat, Chunks(ZigZag(dLng)) + rest);
    DeltaIsRead(dLng, rest);
  }

  /** The path of the points from the `i`-th on is read back as those points, rounded. */
  predicate ReadRight(poly: Polygon, i: nat)
    requires i <= |poly|
  {
    ReadPath(PathFrom(poly, i), ScaledLatBefore(poly, i), ScaledLngBefore(poly, i)) == Some(Rounded(poly, i))
  }

  lemma PointRoundTrip(poly: Polygon, i: nat)
    requires i < |poly| && EncodableAt(poly, i) && ReadRight(poly, i + 1)
    ensures ReadRight(poly, i)
  {
    hide Chunks, ZigZag, ReadPath, Scaled, Encodable;
    var (dLat, dLng) := DeltaAt(poly, i);
    PointIsRead(ScaledLatBefore(poly, i), ScaledLngBefore(poly, i), dLat, dLng, PathFrom(poly, i + 1));
  }

  lemma {:induction false} SuffixRoundTrip(poly: Polygon, i: nat)
    requires i <= |poly| && AllEncodable(poly)
    ensures ReadRight(poly, i)
    decreases |poly| - i
  {
    if i < |poly| {
      hide EncodableAt, ReadRight;
      SuffixRoundTrip(poly, i + 1);
      PointRoundTrip(poly, i);
    }
  }

  // ---- When the round trip fails ----

  /** How many numbers end in the text: units without the continuation bit. */
  function Ends(s: seq<CodeUnit>): nat {
    if s == [] then 0 else (if (s[0] as int) - 63 < 0x20 then 1 else 0) + Ends(s[1..])
  }

  lemma {:induction false} EndsOfConcat(a: seq<CodeUnit>, b: seq<CodeUnit>)
    ensures Ends(a + b) == Ends(a) + Ends(b)
  {
    if a == [] {
      assert a + b == b;
    } else {
      assert (a + b)[1..] == a[1..] + b;
      EndsOfConcat(a[1..], b);
    }
  }

  /** A number ends at most once; a negative one need not end at all. */
  lemma {:induction false} EndsOfChunks(v: int)
    requires v < 0x1_0000_0000
    ensures Ends(Chunks(v)) <= 1 && (v >= 0 ==> Ends(Chunks(v)) == 1)
  {
    if v >= 0x20 {
      EndsOfChunks(v / 0x20);
      EndsOfMore(v % 0x20, Chunks(v / 0x20));
    } else {
      assert Chunks(v)[1..] == [];
    }
  }

  lemma EndsOfMore(low: int, rest: seq<CodeUnit>)
    requires 0 <= low < 0x20
    ensures Ends([FromCharCode(0x20 + low + 63)] + rest) == Ends(rest)
  {
    var s := [FromCharCode(0x20 + low + 63)] + rest;
    assert s[0] == 0x20 + low + 63 && s[1..] == rest;
  }

  lemma {:induction false} ReadEndsOnce(s: seq<CodeUnit>)
    requires ReadChunks(s).Some?
    ensures Ends(s) == 1 + Ends(ReadChunks(s).value.1)
  {
    if s[0] as int - 63 >= 0x20 {
      ReadEndsOnce(s[1..]);
    }
  }

  lemma {:induction false} PathEndsTwicePerPoint(s: seq<CodeUnit>, lat: int, lng: int)
    requires ReadPath(s, lat, lng).Some?
    ensures Ends(s) == 2 * |ReadPath(s, lat, lng).value|
    decreases |s|
  {
    if s != [] {
      ReadEndsOnce(s);
      var (dLat, s') := ReadDelta(s).value;
      ReadEndsOnce(s');
      var (dLng, s'') := ReadDelta(s').value;
      PathEndsTwicePerPoint(s'', lat + dLat, lng + dLng);
    }
  }

  lemma ZigZagIsSmall(d: int)
    ensures ZigZag(d) < 0x1_0000_0000
  {
    ToInt32IsCongruent(2 * d);
  }

  lemma {:induction false} PathEndsAtMost(poly: Polygon, i: nat)
    requires i <= |poly|
    ensures Ends(PathFrom(poly, i)) <= 2 * (|poly| - i)
    decreases |poly| - i
  {
    if i < |poly| {
      var (dLat, dLng) := DeltaAt(poly, i);
      PathEndsAtMost(poly, i + 1);
      PointEndsAtMost(dLat, dLng, PathFrom(poly, i + 1));
    }
  }

  lemma PointEndsAtMost(dLat: int, dLng: int, rest: seq<CodeUnit>)
    ensures Ends(Chunks(ZigZag(dLat)) + (Chunks(ZigZag(dLng)) + rest))
            == Ends(Chunks(ZigZag(dLat))) + Ends(Chunks(ZigZag(dLng))) + Ends(rest)
    ensures Ends(Chunks(ZigZag(dLat))) <= 1 && Ends(Chunks(ZigZag(dLng))) <= 1
  {
    ZigZagIsSmall(dLat);
    ZigZagIsSmall(dLng);
    EndsOfChunks(ZigZag(dLat));
    EndsOfChunks(ZigZag(dLng));
    EndsOfConcat(Chunks(ZigZag(dLng)), rest);
    EndsOfConcat(Chunks(ZigZag(dLat)), Chunks(ZigZag(dLng)) + rest);
  }

  /** A number that ends is read up to its end; if it is the right one, it was encodable. */
  lemma EndedDelta(d: int, rest: seq<CodeUnit>)
    requires Ends(Chunks(ZigZag(d))) == 1
    ensures ReadDelta(Chunks(ZigZag(d)) + rest).Some?
    ensures var r := ReadDelta(Chunks(ZigZag(d)) + rest).value; r.1 == rest && (r.0 == d <==> Encodable(d))
  {
    if Encodable(d) {
      DeltaIsRead(d, rest);
    } else {
      ToInt32IsCongruent(2 * d);
      var v := ZigZag(d);
      if v >= 0 {
        ChunksAreRead(v, rest);
        assert -0x4000_0000 <= UnZigZag(v) < 0x4000_0000;
      } else {
        var s := Chunks(v) + rest;
        assert Chunks(v)[1..] == [] && s[0] == FromCharCode(v + 63) && s[1..] == rest;
      }
    }
  }

  lemma PointRead(lat: int, lng: int, dLat: int, dLng: int, rest: seq<CodeUnit>, tail: seq<(int, int)>)
    requires Ends(Chunks(ZigZag(dLat))) == 1 && Ends(Chunks(ZigZag(dLng))) == 1
    requires ReadPath(Chunks(ZigZag(dLat)) + (Chunks(ZigZag(dLng)) + rest), lat, lng) == Some([(lat + dLat, lng + dLng)] + tail)
    ensures Encodable(dLat) && Encodable(dLng) && ReadPath(rest, lat + dLat, lng + dLng) == Some(tail)
  {
    var s := Chunks(ZigZag(dLat)) + (Chunks(ZigZag(dLng)) + rest);
    EndedDelta(dLat, Chunks(ZigZag(dLng)) + rest);
    EndedDelta(dLng, rest);
    var (eLat, s') := ReadDelta(s).value;
    var (eLng, s'') := ReadDelta(s').value;
    var points := ReadPath(s'', lat + eLat, lng + eLng).value;
    assert ([(lat + eLat, lng + eLng)] + points)[0] == ([(lat + dLat, lng + dLng)] + tail)[0];
    assert ([(lat + eLat, lng + eLng)] + points)[1..] == points && ([(lat + dLat, lng + dLng)] + tail)[1..] == tail;
  }

  lemma {:induction false} RoundedLength(poly: Polygon, i: nat)
    requires i <= |poly|
    ensures |Rounded(poly, i)| == |poly| - i
    decreases |poly| - i
  {
    if i < |poly| {
      RoundedLength(poly, i + 1);
    }
  }

  lemma BothNumbersEnd(poly: Polygon, i: nat)
    requires i < |poly| && ReadRight(poly, i)
    ensures Ends(Chunks(ZigZag(DeltaAt(poly, i).0))) == 1 && Ends(Chunks(ZigZag(DeltaAt(poly, i).1))) == 1
  {
    hide Chunks, ZigZag, ReadPath, Ends, Scaled;
    var (dLat, dLng) := DeltaAt(poly, i);
    PathEndsTwicePerPoint(PathFrom(poly, i), ScaledLatBefore(poly, i), ScaledLngBefore(poly, i));
    RoundedLength(poly, i);
    PathEndsAtMost(poly, i + 1);
    PointEndsAtMost(dLat, dLng, PathFrom(poly, i + 1));
  }

  lemma FirstPointRead(poly: Polygon, i: nat)
    requires i < |poly| && ReadRight(poly, i)
    ensures EncodableAt(poly, i) && ReadRight(poly, i + 1)
  {
    hide Chunks, ZigZag, ReadPath, Ends, Scaled, Encodable;
    BothNumbersEnd(poly, i);
    var (dLat, dLng) := DeltaAt(poly, i);
    PointRead(ScaledLatBefore(poly, i), ScaledLngBefore(poly, i), dLat, dLng, PathFrom(poly, i + 1), Rounded(poly, i + 1));
  }

  /** A path read back right has no difference out of range: each number must end, so none runs into the next. */
  lemma {:induction false} SuffixNeedsRange(poly: Polygon, i: nat)
    requires i <= |poly| && ReadRight(poly, i)
    ensures forall k :: i <= k < |poly| ==> EncodableAt(poly, k)
    decreases |poly| - i
  {
    hide EncodableAt, ReadRight;
    if i < |poly| {
      FirstPointRead(poly, i);
      SuffixNeedsRange(poly, i + 1);
    }
  }

  /** Reading a printed path gives back the rounded points exactly when every difference is in range. */
  lemma PathRoundTrip(poly: Polygon)
    ensures ReadPath(PathFrom(poly, 0), 0, 0) == Some(Rounded(poly, 0)) <==> AllEncodable(poly)
  {
    if AllEncodable(poly) {
      SuffixRoundTrip(poly, 0);
    } else if ReadPath(PathFrom(poly, 0), 0, 0) == Some(Rounded(poly, 0)) {
      SuffixNeedsRange(poly, 0);
      assert false;
    }
  }

  /** Within half a unit of the fifth decimal, as `Math.round` has it. */
  predicate AtFiveDecimals(n: int, x: real) {
    n as real - 0.5 <= x * 100000.0 < n as real + 0.5
  }

  /** What is read back are the polygon's own points, latitude first, to five decimals. */
  lemma {:induction false} RoundedAreThePoints(poly: Polygon, i: nat, k: nat)
    requires i <= k < |poly|
    ensures |Rounded(poly, i)| == |poly| - i
    ensures AtFiveDecimals(Rounded(poly, i)[k - i].0, poly[k].lat) && AtFiveDecimals(Rounded(poly, i)[k - i].1, poly[k].lon)
    decreases |poly| - i
  {
    RoundedLength(poly, i);
    if i < k {
      RoundedAreThePoints(poly, i + 1, k);
      assert Rounded(poly, i)[k - i] == Rounded(poly, i + 1)[k - i - 1];
    }
  }

  /** A point out of range: far enough off the globe the path reads back as another one. */
  lemma FarPointIsMisread()
    ensures var poly := [Point(0.0, 10738.0)]; ReadPath(PathFrom(poly, 0), 0, 0) != Some(Rounded(poly, 0))
  {
    var poly := [Point(0.0, 10738.0)];
    hide ReadPath, PathFrom, Rounded;
    PathRoundTrip(poly);
    assert !EncodableAt(poly, 0);
  }

  /** Every polygon on the globe is within the encoder's range. */
  lemma GlobeIsEncodable(poly: Polygon)
    requires forall i :: 0 <= i < |poly| ==> -90.0 <= poly[i].lat <= 90.0 && -180.0 <= poly[i].lon <= 180.0
    ensures AllEncodable(poly)
  {
    forall i | 0 <= i < |poly|
      ensures -9_000_000 <= Scaled(poly[i].lat) <= 9_000_000 && -18_000_000 <= Scaled(poly[i].lon) <= 18_000_000
    {
    }
  }
}
