/**
 * Clipping a polyline into pieces, and a feature collection (clip.ts:59-139).
 *
 * The specification groups the non-degenerate segment clips: two in a row
 * belong to one piece exactly when the line stays in the box between them.
 */
module ClipLines {
  import opened Common
  import opened ClipSegments

  /** A non-degenerate clip of the segment that starts at vertex `index`. */
  datatype Edge = Edge(from: Point, to: Point, index: nat)

  /** The non-degenerate clips of the first `n` segments, in order. */
  ghost function Edges(line: seq<Point>, box: Bbox, n: nat): seq<Edge>
    requires n == 0 || n < |line|
  {
    if n == 0 then []
    else
      var before, clip := Edges(line, box, n - 1), ClipOf(line[n - 1], line[n], box);
      if clip.Some? && clip.value.0 != clip.value.1 then before + [Edge(clip.value.0, clip.value.1, n - 1)] else before
  }

  /** Every vertex after `first` up to `last` is in the box. */
  ghost predicate StaysInside(line: seq<Point>, box: Bbox, first: nat, last: nat) {
    forall k :: first < k <= last && k < |line| ==> Inside(line[k], box)
  }

  /** Edges in a row share a piece when the line stays inside between them. */
  ghost function Group(line: seq<Point>, box: Bbox, es: seq<Edge>): (pieces: seq<seq<Point>>)
    ensures es != [] ==> pieces != []
  {
    if es == [] then []
    else
      var front, e := es[..|es| - 1], es[|es| - 1];
      var pieces := Group(line, box, front);
      if front != [] && StaysInside(line, box, front[|front| - 1].index, e.index)
      then pieces[..|pieces| - 1] + [pieces[|pieces| - 1] + [e.to]]
      else pieces + [[e.from, e.to]]
  }

  ghost function Segments(line: seq<Point>): nat {
    if line == [] then 0 else |line| - 1
  }

  /** The pieces of a line inside the box. */
  ghost function Pieces(line: seq<Point>, box: Bbox): seq<seq<Point>> {
    Group(line, box, Edges(line, box, Segments(line)))
  }

  // ---- The loop ----

  /** `flush`: a piece of fewer than two points is dropped. */
  function Flushed(pieces: seq<seq<Point>>, current: seq<Point>): seq<seq<Point>> {
    if |current| >= 2 then pieces + [current] else pieces
  }

  /** Where the loop stands after `i` segments. */
  ghost predicate Drawn(line: seq<Point>, box: Bbox, i: nat, pieces: seq<seq<Point>>, current: seq<Point>)
    requires i == 0 || i < |line|
  {
    var es := Edges(line, box, i);
    && Group(line, box, es) == Flushed(pieces, current)
    && (es != [] ==> es[|es| - 1].index < i)
    && (current != [] ==> i < |line| && Inside(line[i], box) && current[|current| - 1] == line[i])
    && (current == [] ==> i == 0 || !Inside(line[i], box))
    && (|current| >= 2 ==> es != [] && StaysInside(line, box, es[|es| - 1].index, i))
    && (|current| < 2 && es != [] ==> !StaysInside(line, box, es[|es| - 1].index, i))
  }

  lemma StaysOneMore(line: seq<Point>, box: Bbox, first: nat, last: nat)
    requires first <= last && last + 1 < |line|
    ensures StaysInside(line, box, first, last + 1) <==> StaysInside(line, box, first, last) && Inside(line[last + 1], box)
  {
  }

  /** No clip: the line is outside at both ends of the segment. */
  lemma DrawnPastGap(line: seq<Point>, box: Bbox, i: nat, pieces: seq<seq<Point>>, current: seq<Point>)
    requires i + 1 < |line| && Drawn(line, box, i, pieces, current)
    requires ClipOf(line[i], line[i + 1], box) == None
    ensures Drawn(line, box, i + 1, Flushed(pieces, current), [])
  {
    ClipEnds(line[i], line[i + 1], box);
    var es := Edges(line, box, i);
    if es != [] {
      StaysOneMore(line, box, es[|es| - 1].index, i);
    }
  }

  /** The piece under way after a segment's clip, before the closing test. */
  function Extended(current: seq<Point>, from: Point, to: Point): seq<Point> {
    var head := if current == [] || current[|current| - 1] != from then [from] else current;
    if from != to then head + [to] else head
  }

  lemma GroupOneMore(line: seq<Point>, box: Bbox, es: seq<Edge>, e: Edge)
    ensures var pieces := Group(line, box, es);
            Group(line, box, es + [e]) ==
            if es != [] && StaysInside(line, box, es[|es| - 1].index, e.index)
            then pieces[..|pieces| - 1] + [pieces[|pieces| - 1] + [e.to]]
            else pieces + [[e.from, e.to]]
  {
    assert (es + [e])[..|es|] == es;
  }

  /** What one more edge makes of the pieces: it lengthens the piece under way, or begins one. */
  lemma GroupedPastClip(line: seq<Point>, box: Bbox, i: nat, pieces: seq<seq<Point>>, current: seq<Point>, e: Edge)
    requires i + 1 < |line| && Drawn(line, box, i, pieces, current)
    requires e.index == i && e.from != e.to && (current != [] ==> current[|current| - 1] == e.from)
    ensures Group(line, box, Edges(line, box, i) + [e]) == pieces + [Extended(current, e.from, e.to)]
    ensures |Extended(current, e.from, e.to)| >= 2
  {
    GroupOneMore(line, box, Edges(line, box, i), e);
    if |current| >= 2 {
      assert (pieces + [current])[..|pieces|] == pieces;
    } else {
      assert Extended(current, e.from, e.to) == [e.from, e.to];
    }
  }

  /** A clip: the piece under way is extended, or a new one begins, and it ends where the line leaves. */
  lemma DrawnPastClip(line: seq<Point>, box: Bbox, i: nat, pieces: seq<seq<Point>>, current: seq<Point>, from: Point, to: Point)
    requires i + 1 < |line| && Drawn(line, box, i, pieces, current)
    requires ClipOf(line[i], line[i + 1], box) == Some((from, to))
    ensures current == [] || current[|current| - 1] == from
    ensures to != line[i + 1] ==> Drawn(line, box, i + 1, Flushed(pieces, Extended(current, from, to)), [])
    ensures to == line[i + 1] ==> Drawn(line, box, i + 1, pieces, Extended(current, from, to))
  {
    hide ClipOf, Group;
    ClipEnds(line[i], line[i + 1], box);
    var es := Edges(line, box, i);
    if es != [] {
      StaysOneMore(line, box, es[|es| - 1].index, i);
    }
    if from != to {
      GroupedPastClip(line, box, i, pieces, current, Edge(from, to, i));
      StaysOneMore(line, box, i, i);
    }
  }

  /** One turn of the loop. */
  method DrawSegment(line: seq<Point>, box: Bbox, i: nat, pieces0: seq<seq<Point>>, current0: seq<Point>)
    returns (pieces: seq<seq<Point>>, current: seq<Point>)
    requires i + 1 < |line| && Drawn(line, box, i, pieces0, current0)
    ensures Drawn(line, box, i + 1, pieces, current)
  {
    var clipped := ClipSegment(line[i], line[i + 1], box);
    if clipped.None? {
      DrawnPastGap(line, box, i, pieces0, current0);
      return Flushed(pieces0, current0), [];
    }
    var (from, to) := clipped.value;
    DrawnPastClip(line, box, i, pieces0, current0, from, to);
    pieces, current := pieces0, current0;
    if current == [] || current[|current| - 1] != from {
      pieces, current := Flushed(pieces, current), [];
      current := current + [from];
    }
    if from != to {
      current := current + [to];
    }
    assert pieces == pieces0 && current == Extended(current0, from, to);
    if to != line[i + 1] {
      pieces, current := Flushed(pieces, current), [];
    }
  }

  method ClipLine(line: seq<Point>, box: Bbox) returns (pieces: seq<seq<Point>>)
    ensures pieces == Pieces(line, box)
  {
    pieces := [];
    var current: seq<Point> := [];
    var i := 0;
    while i + 1 < |line|
      invariant i == 0 || i < |line|
      invariant Drawn(line, box, i, pieces, current)
    {
      pieces, current := DrawSegment(line, box, i, pieces, current);
      i := i + 1;
    }
    pieces := Flushed(pieces, current);
  }

  // ---- Nothing lost, nothing added ----

  /** The steps of a piece: its consecutive pairs of points. */
  function Steps(piece: seq<Point>): seq<(Point, Point)> {
    if |piece| < 2 then [] else Steps(piece[..|piece| - 1]) + [(piece[|piece| - 2], piece[|piece| - 1])]
  }

  function AllSteps(pieces: seq<seq<Point>>): seq<(Point, Point)> {
    if pieces == [] then [] else AllSteps(pieces[..|pieces| - 1]) + Steps(pieces[|pieces| - 1])
  }

  function EdgeSteps(es: seq<Edge>): seq<(Point, Point)> {
    if es == [] then [] else EdgeSteps(es[..|es| - 1]) + [(es[|es| - 1].from, es[|es| - 1].to)]
  }

  /** While the line stays inside after an edge, it stands where the edge ended. */
  lemma {:induction false} EdgeLeadsOn(line: seq<Point>, box: Bbox, n: nat)
    requires n == 0 || n < |line|
    ensures var es := Edges(line, box, n);
            && (forall i :: 0 <= i < |es| ==>
                  es[i].index < n && es[i].from != es[i].to && Inside(es[i].from, box) && Inside(es[i].to, box))
            && (es != [] && StaysInside(line, box, es[|es| - 1].index, n) ==> es[|es| - 1].to == line[n])
  {
    if n > 0 {
      EdgeLeadsOn(line, box, n - 1);
      ClipEnds(line[n - 1], line[n], box);
      var before := Edges(line, box, n - 1);
      if before != [] {
        StaysOneMore(line, box, before[|before| - 1].index, n - 1);
      }
    }
  }

  /** The last point of the last piece is where the last edge ends. */
  ghost predicate Grouped(pieces: seq<seq<Point>>, es: seq<Edge>, box: Bbox) {
    && AllSteps(pieces) == EdgeSteps(es)
    && (es != [] ==> pieces != [] && pieces[|pieces| - 1] != [] &&
                     pieces[|pieces| - 1][|pieces[|pieces| - 1]| - 1] == es[|es| - 1].to)
    && forall i :: 0 <= i < |pieces| ==> WellFormed(pieces[i], box)
  }

  /** Two points or more, all in the box, no neighbours equal (section 3.1.4 of RFC 7946). */
  predicate WellFormed(piece: seq<Point>, box: Bbox) {
    && |piece| >= 2
    && (forall k :: 0 <= k < |piece| ==> Inside(piece[k], box))
    && forall k :: 0 < k < |piece| ==> piece[k - 1] != piece[k]
  }

  lemma AppendToLast(pieces: seq<seq<Point>>, es: seq<Edge>, e: Edge, box: Bbox)
    requires Grouped(pieces, es, box) && es != [] && es[|es| - 1].to == e.from
    requires e.from != e.to && Inside(e.to, box)
    ensures Grouped(pieces[..|pieces| - 1] + [pieces[|pieces| - 1] + [e.to]], es + [e], box)
  {
    var n := |pieces| - 1;
    var last := pieces[n];
    var longer := last + [e.to];
    var grown := pieces[..n] + [longer];
    assert longer[..|longer| - 1] == last;
    assert Steps(longer) == Steps(last) + [(e.from, e.to)];
    assert grown[..n] == pieces[..n];
    assert AllSteps(grown) == AllSteps(pieces[..n]) + (Steps(last) + [(e.from, e.to)]);
    assert (es + [e])[..|es|] == es;
  }

  lemma AppendNew(pieces: seq<seq<Point>>, es: seq<Edge>, e: Edge, box: Bbox)
    requires Grouped(pieces, es, box) && e.from != e.to && Inside(e.from, box) && Inside(e.to, box)
    ensures Grouped(pieces + [[e.from, e.to]], es + [e], box)
  {
    var begun := [e.from, e.to];
    assert begun[..1] == [e.from];
    assert Steps(begun) == [(e.from, e.to)];
    assert (pieces + [begun])[..|pieces|] == pieces;
    assert (es + [e])[..|es|] == es;
  }

  lemma GroupKeepsOneMore(line: seq<Point>, box: Bbox, es: seq<Edge>, e: Edge)
    requires Grouped(Group(line, box, es), es, box)
    requires e.from != e.to && Inside(e.from, box) && Inside(e.to, box)
    requires es != [] && StaysInside(line, box, es[|es| - 1].index, e.index) ==> es[|es| - 1].to == e.from
    ensures Grouped(Group(line, box, es + [e]), es + [e], box)
  {
    var pieces := Group(line, box, es);
    GroupOneMore(line, box, es, e);
    if es != [] && StaysInside(line, box, es[|es| - 1].index, e.index) {
      AppendToLast(pieces, es, e, box);
    } else {
      AppendNew(pieces, es, e, box);
    }
  }

  lemma StaysInsideAt(line: seq<Point>, box: Bbox, first: nat, last: nat)
    requires StaysInside(line, box, first, last) && first < last < |line|
    ensures Inside(line[last], box)
  {
  }

  /** One more edge, which begins where the line stands if the line has stayed inside since the edge before. */
  lemma {:induction false} GroupKeepsEdge(line: seq<Point>, box: Bbox, n: nat, es: seq<Edge>, e: Edge)
    requires n < |line| && Grouped(Group(line, box, es), es, box)
    requires e.index == n && e.from != e.to && Inside(e.from, box) && Inside(e.to, box)
    requires Inside(line[n], box) ==> e.from == line[n]
    requires es != [] ==> es[|es| - 1].index < n
    requires es != [] && StaysInside(line, box, es[|es| - 1].index, n) ==> es[|es| - 1].to == line[n]
    ensures Grouped(Group(line, box, es + [e]), es + [e], box)
  {
    hide Group, Grouped, Inside, StaysInside;
    if es != [] && StaysInside(line, box, es[|es| - 1].index, n) {
      StaysInsideAt(line, box, es[|es| - 1].index, n);
    }
    GroupKeepsOneMore(line, box, es, e);
  }

  /** The clip of one segment, as an edge, if it is not degenerate. */
  ghost function EdgeOf(line: seq<Point>, box: Bbox, n: nat): (e: Option<Edge>)
    requires n + 1 < |line|
    ensures e.Some? ==> e.value.index == n && e.value.from != e.value.to
  {
    var clip := ClipOf(line[n], line[n + 1], box);
    if clip.Some? && clip.value.0 != clip.value.1 then Some(Edge(clip.value.0, clip.value.1, n)) else None
  }

  lemma {:induction false} EdgeOfEnds(line: seq<Point>, box: Bbox, n: nat)
    requires n + 1 < |line| && EdgeOf(line, box, n).Some?
    ensures var e := EdgeOf(line, box, n).value;
            && Inside(e.from, box) && Inside(e.to, box)
            && (Inside(line[n], box) ==> e.from == line[n])
  {
    hide ClipOf;
    ClipEnds(line[n], line[n + 1], box);
  }

  lemma {:induction false} EdgesOneMore(line: seq<Point>, box: Bbox, n: nat)
    requires n + 1 < |line|
    ensures Edges(line, box, n + 1) ==
            Edges(line, box, n) + if EdgeOf(line, box, n).Some? then [EdgeOf(line, box, n).value] else []
  {
    hide ClipOf;
    assert Edges(line, box, n) + [] == Edges(line, box, n);
  }

  /** The edges of the first `n` segments make proper pieces. */
  ghost predicate GroupedUpTo(line: seq<Point>, box: Bbox, n: nat)
    requires n == 0 || n < |line|
  {
    Grouped(Group(line, box, Edges(line, box, n)), Edges(line, box, n), box)
  }

  /** A line that stays inside up to a segment's start is clipped there at the start itself. */
  lemma {:induction false} GroupedOneMore(line: seq<Point>, box: Bbox, n: nat)
    requires n + 1 < |line| && GroupedUpTo(line, box, n)
    ensures GroupedUpTo(line, box, n + 1)
  {
    var es, e := Edges(line, box, n), EdgeOf(line, box, n);
    EdgesOneMore(line, box, n);
    hide Edges, Group, Grouped, ClipOf, Inside, StaysInside;
    if e.Some? {
      EdgeOfEnds(line, box, n);
      EdgeLeadsOn(line, box, n);
      GroupKeepsEdge(line, box, n, es, e.value);
    } else {
      assert es + [] == es;
    }
  }

  lemma {:induction false} GroupKeepsEdges(line: seq<Point>, box: Bbox, n: nat)
    requires n == 0 || n < |line|
    ensures GroupedUpTo(line, box, n)
  {
    hide GroupedUpTo;
    if n > 0 {
      GroupKeepsEdges(line, box, n - 1);
      GroupedOneMore(line, box, n - 1);
    } else {
      NothingGrouped(line, box);
    }
  }

  lemma NothingGrouped(line: seq<Point>, box: Bbox)
    ensures GroupedUpTo(line, box, 0)
  {
  }

  /**
   * The steps of the pieces, read in order, are exactly the non-degenerate
   * segment clips in order, and every piece is a proper line in the box.
   */
  lemma PiecesAreTheClips(line: seq<Point>, box: Bbox)
    ensures AllSteps(Pieces(line, box)) == EdgeSteps(Edges(line, box, Segments(line)))
    ensures forall i :: 0 <= i < |Pieces(line, box)| ==> WellFormed(Pieces(line, box)[i], box)
  {
    GroupKeepsEdges(line, box, Segments(line));
  }

  // ---- Clipping again changes nothing ----

  lemma {:induction false} InsideLineIsItsEdges(p: seq<Point>, box: Bbox, n: nat)
    requires WellFormed(p, box) && 0 < n < |p|
    ensures var es := Edges(p, box, n);
            && es != [] && es[|es| - 1] == Edge(p[n - 1], p[n], n - 1)
            && Group(p, box, es) == [p[..n + 1]]
  {
    hide ClipOf;
    ClipEnds(p[n - 1], p[n], box);
    var before := Edges(p, box, n - 1);
    var e := Edge(p[n - 1], p[n], n - 1);
    assert Edges(p, box, n) == before + [e];
    assert (before + [e])[..|before|] == before;
    if n == 1 {
      assert p[..2] == [p[0], p[1]];
    } else {
      InsideLineIsItsEdges(p, box, n - 1);
      assert p[..n + 1] == p[..n] + [p[n]];
    }
  }

  /** A piece, clipped again to the same box, is one piece: itself. */
  lemma PieceIsStable(p: seq<Point>, box: Bbox)
    requires WellFormed(p, box)
    ensures Pieces(p, box) == [p]
  {
    hide ClipOf;
    InsideLineIsItsEdges(p, box, |p| - 1);
    assert p[..|p|] == p;
  }

  // ---- Features ----

  datatype Geometry =
    | PointOf(point: Point)
    | MultiPoint(points: seq<Point>)
    | LineString(line: seq<Point>)
    | MultiLineString(lines: seq<seq<Point>>)
    | Other

  /** `props` stands for all the feature carries besides its geometry. */
  datatype Feature = Feature(geometry: Option<Geometry>, props: string)

  function KeepInside(ps: seq<Point>, box: Bbox): seq<Point> {
    if ps == [] then []
    else
      var front, p := KeepInside(ps[..|ps| - 1], box), ps[|ps| - 1];
      if Inside(p, box) then front + [p] else front
  }

  ghost function PiecesOfAll(lines: seq<seq<Point>>, box: Bbox): seq<seq<Point>> {
    if lines == [] then [] else PiecesOfAll(lines[..|lines| - 1], box) + Pieces(lines[|lines| - 1], box)
  }

  /** What of a geometry is in the box, as a list of geometries. */
  ghost function ClippedGeometry(g: Geometry, box: Bbox): seq<Geometry> {
    match g
    case PointOf(p) => if Inside(p, box) then [g] else []
    case MultiPoint(ps) => if KeepInside(ps, box) == [] then [] else [MultiPoint(KeepInside(ps, box))]
    case LineString(line) => AsLines(Pieces(line, box))
    case MultiLineString(lines) => if PiecesOfAll(lines, box) == [] then [] else [MultiLineString(PiecesOfAll(lines, box))]
    case Other => []
  }

  function AsLines(pieces: seq<seq<Point>>): seq<Geometry> {
    seq(|pieces|, i requires 0 <= i < |pieces| => LineString(pieces[i]))
  }

  function WithProps(gs: seq<Geometry>, props: string): seq<Feature> {
    seq(|gs|, i requires 0 <= i < |gs| => Feature(Some(gs[i]), props))
  }

  ghost function ClippedFeature(f: Feature, box: Bbox): seq<Feature> {
    if f.geometry.None? then [] else WithProps(ClippedGeometry(f.geometry.value, box), f.props)
  }

  ghost function Clipped(fs: seq<Feature>, box: Bbox): seq<Feature> {
    if fs == [] then [] else Clipped(fs[..|fs| - 1], box) + ClippedFeature(fs[|fs| - 1], box)
  }

  method FilterPoints(ps: seq<Point>, box: Bbox) returns (kept: seq<Point>)
    ensures kept == KeepInside(ps, box)
  {
    kept := [];
    var i := 0;
    while i < |ps|
      invariant 0 <= i <= |ps| && kept == KeepInside(ps[..i], box)
    {
      assert ps[..i + 1][..i] == ps[..i];
      if Inside(ps[i], box) {
        kept := kept + [ps[i]];
      }
      i := i + 1;
    }
    assert ps[..i] == ps;
  }

  method ClipLinesOf(lines: seq<seq<Point>>, box: Bbox) returns (pieces: seq<seq<Point>>)
    ensures pieces == PiecesOfAll(lines, box)
  {
    pieces := [];
    var i := 0;
    while i < |lines|
      invariant 0 <= i <= |lines| && pieces == PiecesOfAll(lines[..i], box)
    {
      assert lines[..i + 1][..i] == lines[..i];
      var more := ClipLine(lines[i], box);
      pieces := pieces + more;
      i := i + 1;
    }
    assert lines[..i] == lines;
  }

  /** `clipGeometry`: a line in several pieces comes back as one multi-line. */
  method ClipGeometry(g: Geometry, box: Bbox) returns (r: Option<Geometry>)
    ensures r.None? <==> ClippedGeometry(g, box) == []
    ensures r.Some? && g.LineString? && r.value.MultiLineString? ==> ClippedGeometry(g, box) == AsLines(r.value.lines)
    ensures r.Some? && !(g.LineString? && r.value.MultiLineString?) ==> ClippedGeometry(g, box) == [r.value]
  {
    match g {
      case PointOf(p) =>
        return if Inside(p, box) then Some(g) else None;
      case MultiPoint(ps) =>
        var kept := FilterPoints(ps, box);
        return if kept != [] then Some(MultiPoint(kept)) else None;
      case LineString(line) =>
        var pieces := ClipLine(line, box);
        if pieces == [] {
          return None;
        }
        return if |pieces| == 1 then Some(LineString(pieces[0])) else Some(MultiLineString(pieces));
      case MultiLineString(lines) =>
        var pieces := ClipLinesOf(lines, box);
        return if pieces != [] then Some(MultiLineString(pieces)) else None;
      case Other =>
        return None;
    }
  }

  method ClipFeatures(fs: seq<Feature>, box: Bbox) returns (features: seq<Feature>)
    ensures features == Clipped(fs, box)
  {
    hide ClippedGeometry;
    features := [];
    var i := 0;
    while i < |fs|
      invariant 0 <= i <= |fs| && features == Clipped(fs[..i], box)
    {
      assert fs[..i + 1][..i] == fs[..i];
      var f := fs[i];
      i := i + 1;
      if f.geometry.None? {
        continue;
      }
      var geometry := ClipGeometry(f.geometry.value, box);
      if geometry.None? {
        continue;
      }
      if geometry.value.MultiLineString? && f.geometry.value.LineString? {
        features := features + WithProps(AsLines(geometry.value.lines), f.props);
      } else {
        features := features + [Feature(geometry, f.props)];
        assert WithProps([geometry.value], f.props) == [Feature(geometry, f.props)];
      }
    }
    assert fs[..i] == fs;
  }

  // ---- Clipping a collection again changes nothing ----

  lemma {:induction false} KeepInsideTwice(ps: seq<Point>, box: Bbox)
    ensures KeepInside(KeepInside(ps, box), box) == KeepInside(ps, box)
  {
    if ps != [] {
      var front, p := ps[..|ps| - 1], ps[|ps| - 1];
      KeepInsideTwice(front, box);
      assert (KeepInside(front, box) + [p])[..|KeepInside(front, box)|] == KeepInside(front, box);
    }
  }

  lemma {:induction false} StableLines(pieces: seq<seq<Point>>, box: Bbox)
    requires forall i :: 0 <= i < |pieces| ==> WellFormed(pieces[i], box)
    ensures PiecesOfAll(pieces, box) == pieces
  {
    if pieces != [] {
      StableLines(pieces[..|pieces| - 1], box);
      PieceIsStable(pieces[|pieces| - 1], box);
    }
  }

  lemma {:induction false} AllPiecesWellFormed(lines: seq<seq<Point>>, box: Bbox)
    ensures forall i :: 0 <= i < |PiecesOfAll(lines, box)| ==> WellFormed(PiecesOfAll(lines, box)[i], box)
  {
    if lines != [] {
      AllPiecesWellFormed(lines[..|lines| - 1], box);
      PiecesAreTheClips(lines[|lines| - 1], box);
    }
  }

  /** Everything a clip leaves is left alone by the next clip. */
  lemma ClippedGeometryIsStable(g: Geometry, box: Bbox, i: nat)
    requires i < |ClippedGeometry(g, box)|
    ensures ClippedGeometry(ClippedGeometry(g, box)[i], box) == [ClippedGeometry(g, box)[i]]
  {
    match g {
      case PointOf(p) =>
      case MultiPoint(ps) =>
        KeepInsideTwice(ps, box);
      case LineString(line) =>
        PiecesAreTheClips(line, box);
        PieceIsStable(Pieces(line, box)[i], box);
      case MultiLineString(lines) =>
        AllPiecesWellFormed(lines, box);
        StableLines(PiecesOfAll(lines, box), box);
      case Other =>
    }
  }

  lemma {:induction false} StableFeatures(fs: seq<Feature>, box: Bbox)
    requires forall i :: 0 <= i < |fs| ==> ClippedFeature(fs[i], box) == [fs[i]]
    ensures Clipped(fs, box) == fs
  {
    if fs != [] {
      StableFeatures(fs[..|fs| - 1], box);
      assert ClippedFeature(fs[|fs| - 1], box) == [fs[|fs| - 1]];
    }
  }

  lemma {:induction false} ClippedFeaturesAreStable(fs: seq<Feature>, box: Bbox, i: nat)
    requires i < |Clipped(fs, box)|
    ensures ClippedFeature(Clipped(fs, box)[i], box) == [Clipped(fs, box)[i]]
  {
    var front, f := fs[..|fs| - 1], fs[|fs| - 1];
    var n := |Clipped(front, box)|;
    if i < n {
      ClippedFeaturesAreStable(front, box, i);
    } else {
      var gs := ClippedGeometry(f.geometry.value, box);
      ClippedGeometryIsStable(f.geometry.value, box, i - n);
      assert Clipped(fs, box)[i] == Feature(Some(gs[i - n]), f.props);
      assert WithProps([gs[i - n]], f.props) == [Feature(Some(gs[i - n]), f.props)];
    }
  }

  /** Clipping a clipped network to the same box returns it unchanged. */
  lemma ClipIsIdempotent(fs: seq<Feature>, box: Bbox)
    ensures Clipped(Clipped(fs, box), box) == Clipped(fs, box)
  {
    forall i | 0 <= i < |Clipped(fs, box)|
      ensures ClippedFeature(Clipped(fs, box)[i], box) == [Clipped(fs, box)[i]]
    {
      ClippedFeaturesAreStable(fs, box, i);
    }
    StableFeatures(Clipped(fs, box), box);
  }

  // ---- What is left of a collection ----

  /** Points are kept one by one, in order: exactly those within the box's four sides. */
  lemma {:induction false} PointsAreKept(ps: seq<Point>, p: Point, box: Bbox)
    ensures KeepInside([], box) == []
    ensures KeepInside(ps + [p], box) ==
            KeepInside(ps, box) + if box.w <= p.x <= box.e && box.s <= p.y <= box.n then [p] else []
  {
    assert (ps + [p])[..|ps|] == ps;
  }

  lemma {:induction false} KeptIff(ps: seq<Point>, q: Point, box: Bbox)
    ensures q in KeepInside(ps, box) <==> q in ps && box.w <= q.x <= box.e && box.s <= q.y <= box.n
  {
    if ps != [] {
      KeptIff(ps[..|ps| - 1], q, box);
      assert ps == ps[..|ps| - 1] + [ps[|ps| - 1]];
    }
  }

  /** Some piece has a segment through the point. */
  ghost predicate OnSteps(steps: seq<(Point, Point)>, q: Point) {
    exists i :: 0 <= i < |steps| && OnSegment(steps[i].0, steps[i].1, q)
  }

  /** A segment of the line runs through the point, and it has more than one point in the box. */
  ghost predicate OnLineInside(line: seq<Point>, box: Bbox, n: nat, q: Point)
    requires n == 0 || n < |line|
  {
    exists k :: 0 <= k < n && PassesInside(line[k], line[k + 1], box, q)
  }

  ghost predicate PassesInside(a: Point, b: Point, box: Bbox, q: Point) {
    && OnSegment(a, b, q) && Inside(q, box)
    && exists r :: OnSegment(a, b, r) && Inside(r, box) && r != q
  }

  lemma OnStepsOneMore(steps: seq<(Point, Point)>, a: Point, b: Point, q: Point)
    ensures OnSteps(steps + [(a, b)], q) <==> OnSteps(steps, q) || OnSegment(a, b, q)
  {
    var all := steps + [(a, b)];
    hide OnSegment;
    assert all[|steps|] == (a, b);
    assert forall i :: 0 <= i < |steps| ==> all[i] == steps[i];
  }

  lemma EndsAreOn(a: Point, b: Point)
    ensures OnSegment(a, b, a) && OnSegment(a, b, b)
  {
    assert At(a, b, 0.0) == a && At(a, b, 1.0) == b;
  }

  /** On one point there is only that point. */
  lemma OnPoint(a: Point, q: Point)
    requires OnSegment(a, a, q)
    ensures q == a
  {
  }

  /** What of one segment is drawn: its part in the box, unless that is a single point. */
  lemma {:induction false} DrawnOfSegment(a: Point, b: Point, box: Bbox, q: Point)
    ensures PassesInside(a, b, box, q) <==>
            var clip := ClipOf(a, b, box);
            clip.Some? && clip.value.0 != clip.value.1 && OnSegment(clip.value.0, clip.value.1, q)
  {
    var clip := ClipOf(a, b, box);
    if clip.Some? {
      var (from, to) := clip.value;
      ClipIsIntersection(a, b, box, q);
      ClipIsIntersection(a, b, box, from);
      ClipIsIntersection(a, b, box, to);
      EndsAreOn(from, to);
      forall r | OnSegment(a, b, r) && Inside(r, box) && from == to
        ensures r == from
      {
        ClipIsIntersection(a, b, box, r);
        OnPoint(from, r);
      }
    } else {
      NoClipMeansOutside(a, b, box);
    }
  }

  lemma {:induction false} EdgesCover(line: seq<Point>, box: Bbox, n: nat, q: Point)
    requires n == 0 || n < |line|
    ensures OnSteps(EdgeSteps(Edges(line, box, n)), q) <==> OnLineInside(line, box, n, q)
  {
    if n > 0 {
      hide OnSteps, ClipOf, PassesInside;
      EdgesCover(line, box, n - 1, q);
      DrawnOfSegment(line[n - 1], line[n], box, q);
      var es, clip := Edges(line, box, n - 1), ClipOf(line[n - 1], line[n], box);
      if clip.Some? && clip.value.0 != clip.value.1 {
        assert (es + [Edge(clip.value.0, clip.value.1, n - 1)])[..|es|] == es;
        OnStepsOneMore(EdgeSteps(es), clip.value.0, clip.value.1, q);
      }
      assert OnLineInside(line, box, n, q) <==> OnLineInside(line, box, n - 1, q) || PassesInside(line[n - 1], line[n], box, q);
    } else {
      assert EdgeSteps(Edges(line, box, 0)) == [];
    }
  }

  /**
   * The pieces of a line, as a set of points: the line's points in the box, but
   * for segments that only touch it.
   */
  lemma {:induction false} PiecesCover(line: seq<Point>, box: Bbox, q: Point)
    ensures OnSteps(AllSteps(Pieces(line, box)), q) <==> OnLineInside(line, box, Segments(line), q)
  {
    hide OnSteps, OnLineInside, EdgeSteps, AllSteps, Edges, Group;
    PiecesAreTheClips(line, box);
    EdgesCover(line, box, Segments(line), q);
  }

  /** A feature leaves one feature for each geometry left of it, with its own properties, in its place. */
  lemma {:induction false} FeaturesAreClipped(fs: seq<Feature>, f: Feature, box: Bbox)
    ensures Clipped([], box) == []
    ensures var before, all := Clipped(fs, box), Clipped(fs + [f], box);
            && before <= all
            && |all| == |before| + (if f.geometry.Some? then |ClippedGeometry(f.geometry.value, box)| else 0)
            && forall i :: |before| <= i < |all| ==>
                 && all[i].props == f.props
                 && f.geometry.Some? && all[i].geometry == Some(ClippedGeometry(f.geometry.value, box)[i - |before|])
  {
    assert (fs + [f])[..|fs|] == fs;
    hide ClippedGeometry;
  }

  /** A geometry keeps its type, but a line in several pieces; what has nothing in the box is dropped. */
  lemma GeometryIsClipped(g: Geometry, box: Bbox)
    ensures g.PointOf? ==>
              ClippedGeometry(g, box) == if box.w <= g.point.x <= box.e && box.s <= g.point.y <= box.n then [g] else []
    ensures g.MultiPoint? ==>
              if forall p :: p in g.points ==> !(box.w <= p.x <= box.e && box.s <= p.y <= box.n)
              then ClippedGeometry(g, box) == []
              else ClippedGeometry(g, box) == [MultiPoint(KeepInside(g.points, box))]
    ensures g.LineString? ==>
              && |ClippedGeometry(g, box)| == |Pieces(g.line, box)|
              && forall i :: 0 <= i < |Pieces(g.line, box)| ==> ClippedGeometry(g, box)[i] == LineString(Pieces(g.line, box)[i])
    ensures g.MultiLineString? ==>
              if forall line :: line in g.lines ==> Pieces(line, box) == []
              then ClippedGeometry(g, box) == []
              else ClippedGeometry(g, box) == [MultiLineString(PiecesOfAll(g.lines, box))]
    ensures g.Other? ==> ClippedGeometry(g, box) == []
  {
    match g {
      case MultiPoint(ps) =>
        forall p
          ensures p in KeepInside(ps, box) <==> p in ps && box.w <= p.x <= box.e && box.s <= p.y <= box.n
        {
          KeptIff(ps, p, box);
        }
        if KeepInside(ps, box) != [] {
          assert KeepInside(ps, box)[0] in KeepInside(ps, box);
        }
      case MultiLineString(lines) =>
        NoPiecesIff(lines, box);
      case PointOf(p) =>
      case LineString(line) =>
      case Other =>
    }
    hide Group, Edges;
  }

  lemma {:induction false} NoPiecesIff(lines: seq<seq<Point>>, box: Bbox)
    ensures PiecesOfAll(lines, box) == [] <==> forall line :: line in lines ==> Pieces(line, box) == []
  {
    if lines != [] {
      var front, last := lines[..|lines| - 1], lines[|lines| - 1];
      NoPiecesIff(front, box);
      assert lines == front + [last];
      hide Pieces;
      assert last in lines;
    }
  }

  /** Of several lines the pieces are put together in order. */
  lemma PiecesOfMore(lines: seq<seq<Point>>, line: seq<Point>, box: Bbox)
    ensures PiecesOfAll([], box) == [] && PiecesOfAll(lines + [line], box) == PiecesOfAll(lines, box) + Pieces(line, box)
  {
    assert (lines + [line])[..|lines|] == lines;
  }
}
