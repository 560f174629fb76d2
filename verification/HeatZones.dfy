/**
 * The heat-zone manager and its grid index (HeatZoneManager.ts:26-560).
 *
 * A zone object sits in the list `zones` and, by reference, in every grid cell
 * its bounding box overlaps.  The class invariant says the grid holds exactly
 * that, after every operation; the two queries, which look in one cell only, are
 * then proved equal to a ray-cast over every zone.
 */
module HeatZones {
  import opened Common
  import opened RayCast

  /** A zone's intensity; the source tolerates values that are no finite number. */
  datatype Intensity = Finite(value: real) | NotFinite

  /** A grid cell: row and column, the two halves of the source's "row,col" key. */
  type Cell = (int, int)

  const CELL_SIZE: real := 0.005
  const MAX_ZONE_CELLS: int := 250_000
  const MAX_TOTAL: nat := 100

  // ---- Which cells a polygon occupies ----

  /** Row or column of a coordinate. */
  function Slot(x: real): int {
    (x / CELL_SIZE).Floor
  }

  function CellOf(p: Point): Cell {
    (Slot(p.lat), Slot(p.lon))
  }

  function CellCount(b: Box): int {
    (Slot(b.maxLat) - Slot(b.minLat) + 1) * (Slot(b.maxLon) - Slot(b.minLon) + 1)
  }

  /** A zone this large is kept in the list but left out of the grid. */
  predicate Indexable(poly: Polygon) {
    |poly| > 0 && CellCount(BBox(poly)) <= MAX_ZONE_CELLS
  }

  predicate BoxOverlaps(b: Box, c: Cell) {
    Slot(b.minLat) <= c.0 <= Slot(b.maxLat) && Slot(b.minLon) <= c.1 <= Slot(b.maxLon)
  }

  predicate Occupies(poly: Polygon, c: Cell) {
    Indexable(poly) && BoxOverlaps(BBox(poly), c)
  }

  lemma SlotIsMonotone(x: real, y: real)
    requires x <= y
    ensures Slot(x) <= Slot(y)
  {
    assert x / CELL_SIZE <= y / CELL_SIZE;
  }

  /** The one cell a query looks in is among the cells of every indexed zone around the point. */
  lemma InsideOccupiesCell(p: Point, poly: Polygon)
    requires Indexable(poly) && Inside(p, poly)
    ensures Occupies(poly, CellOf(p))
  {
    InsideIsInBox(p, poly);
    var b := BBox(poly);
    SlotIsMonotone(b.minLat, p.lat);
    SlotIsMonotone(p.lat, b.maxLat);
    SlotIsMonotone(b.minLon, p.lon);
    SlotIsMonotone(p.lon, b.maxLon);
  }

  lemma BoxIsUpright(poly: Polygon)
    requires |poly| > 0
    ensures var b := BBox(poly); Slot(b.minLat) <= Slot(b.maxLat) && Slot(b.minLon) <= Slot(b.maxLon)
  {
    BBoxIsTight(poly);
    assert InBox(poly[0], BBox(poly));
    SlotIsMonotone(BBox(poly).minLat, BBox(poly).maxLat);
    SlotIsMonotone(BBox(poly).minLon, BBox(poly).maxLon);
  }

  lemma RowMore(rows: int, width: int)
    ensures (rows + 1) * width == rows * width + width
  {
  }

  /** A cell holds the coordinates from its own multiple of the cell size up to the next. */
  lemma SlotHolds(x: real, n: int)
    ensures Slot(x) == n <==> n as real * CELL_SIZE <= x < (n + 1) as real * CELL_SIZE
  {
    var q := x / CELL_SIZE;
    assert q * CELL_SIZE == x;
  }

  /** Somewhere between two coordinates is a coordinate of every slot between theirs. */
  lemma SlotBetween(lo: real, hi: real, n: int) returns (x: real)
    requires lo <= hi && Slot(lo) <= n <= Slot(hi)
    ensures lo <= x <= hi && Slot(x) == n
  {
    x := Max(lo, n as real * CELL_SIZE);
    SlotHolds(lo, Slot(lo));
    SlotHolds(hi, Slot(hi));
    SlotHolds(x, n);
  }

  /** The cells of a box are those of its points. */
  lemma OverlapsIffShares(b: Box, c: Cell)
    requires b.minLat <= b.maxLat && b.minLon <= b.maxLon
    ensures BoxOverlaps(b, c) <==> exists q: Point :: InBox(q, b) && CellOf(q) == c
  {
    if BoxOverlaps(b, c) {
      var lat := SlotBetween(b.minLat, b.maxLat, c.0);
      var lon := SlotBetween(b.minLon, b.maxLon, c.1);
      assert InBox(Point(lon, lat), b) && CellOf(Point(lon, lat)) == c;
    }
    if q: Point :| InBox(q, b) && CellOf(q) == c {
      SlotIsMonotone(b.minLat, q.lat);
      SlotIsMonotone(q.lat, b.maxLat);
      SlotIsMonotone(b.minLon, q.lon);
      SlotIsMonotone(q.lon, b.maxLon);
    }
  }

  /** `forEachZoneCell`: the cells in the order the callback sees them, each once. */
  method ZoneCells(poly: Polygon) returns (cells: seq<Cell>)
    ensures NoDuplicates(cells)
    ensures forall c: Cell :: c in cells <==> Occupies(poly, c)
    ensures Indexable(poly) ==> |cells| == CellCount(BBox(poly))
  {
    cells := [];
    if |poly| == 0 {
      return;
    }
    var b := PolygonBBox(poly);
    var minRow, maxRow := Slot(b.minLat), Slot(b.maxLat);
    var minCol, maxCol := Slot(b.minLon), Slot(b.maxLon);
    var cellCount := (maxRow - minRow + 1) * (maxCol - minCol + 1);
    if cellCount > MAX_ZONE_CELLS {
      return;
    }
    BoxIsUpright(poly);
    var width := maxCol - minCol + 1;
    var row := minRow;
    while row <= maxRow
      invariant minRow <= row <= maxRow + 1
      invariant |cells| == (row - minRow) * width
      invariant NoDuplicates(cells)
      invariant forall c: Cell :: c in cells <==> BoxOverlaps(b, c) && c.0 < row
    {
      RowMore(row - minRow, width);
      var col := minCol;
      while col <= maxCol
        invariant minCol <= col <= maxCol + 1
        invariant |cells| == (row - minRow) * width + (col - minCol)
        invariant NoDuplicates(cells)
        invariant forall c: Cell :: c in cells <==> BoxOverlaps(b, c) && (c.0 < row || (c.0 == row && c.1 < col))
      {
        cells := cells + [(row, col)];
        col := col + 1;
      }
      row := row + 1;
    }
  }

  // ---- Grid lists ----

  /** The first position of `x` in `s`, or `|s|`. */
  function IndexOf<T(==)>(s: seq<T>, x: T): (i: nat)
    ensures i <= |s|
    ensures i < |s| ==> s[i] == x
    ensures forall j :: 0 <= j < i ==> s[j] != x
  {
    if |s| == 0 || s[0] == x then 0 else 1 + IndexOf(s[1..], x)
  }

  /** `s` without the first `x`. */
  function Without<T(==)>(s: seq<T>, x: T): seq<T> {
    var i := IndexOf(s, x);
    if i < |s| then s[..i] + s[i + 1..] else s
  }

  lemma WithoutDropsExactly<T>(s: seq<T>, x: T)
    requires NoDuplicates(s)
    ensures NoDuplicates(Without(s, x))
    ensures forall y :: y in Without(s, x) <==> y in s && y != x
  {
    var i := IndexOf(s, x);
    if i < |s| {
      var w := Without(s, x);
      assert forall k :: 0 <= k < |w| ==> w[k] == if k < i then s[k] else s[k + 1];
      forall y | y in s && y != x
        ensures y in w
      {
        var k :| 0 <= k < |s| && s[k] == y;
        assert w[if k < i then k else k - 1] == y;
      }
    }
  }

  /** What a zone is, apart from its identity as an object. */
  datatype ZoneValue = ZoneValue(id: string, polygon: Polygon, intensity: Intensity)

  /** The first zone with an id, as `find` and `findIndex` pick it. */
  function FirstWithId(zs: seq<ZoneValue>, id: string): (i: nat)
    ensures i <= |zs|
    ensures i < |zs| ==> zs[i].id == id
    ensures forall j :: 0 <= j < i ==> zs[j].id != id
  {
    if |zs| == 0 || zs[0].id == id then 0 else 1 + FirstWithId(zs[1..], id)
  }

  // ---- The answers, without a grid ----

  /** The zone is one the index accepts and the ray-cast puts the point inside. */
  predicate Holds(z: ZoneValue, p: Point) {
    Indexable(z.polygon) && Inside(p, z.polygon)
  }

  predicate InAnyZone(zs: seq<ZoneValue>, p: Point) {
    exists i :: 0 <= i < |zs| && Holds(zs[i], p)
  }

  /** `v` is the finite intensity of some zone around the point, and no such zone is hotter. */
  predicate IsHottest(zs: seq<ZoneValue>, p: Point, v: real) {
    && (exists i :: 0 <= i < |zs| && Holds(zs[i], p) && zs[i].intensity == Finite(v))
    && (forall i :: 0 <= i < |zs| && Holds(zs[i], p) && zs[i].intensity.Finite? ==> zs[i].intensity.value <= v)
  }

  /** When every zone is small enough for the index, the answer is that of a ray-cast over all zones. */
  lemma IndexableZonesAreFound(zs: seq<ZoneValue>, p: Point)
    requires forall i :: 0 <= i < |zs| && zs[i].polygon != [] ==> Indexable(zs[i].polygon)
    ensures InAnyZone(zs, p) <==> exists i :: 0 <= i < |zs| && Inside(p, zs[i].polygon)
  {
    forall i | 0 <= i < |zs| && Inside(p, zs[i].polygon)
      ensures Holds(zs[i], p)
    {
    }
  }

  /** A zone that alone holds a point is found there if and only if it is small enough for the index. */
  lemma FoundAloneIffIndexable(zs: seq<ZoneValue>, p: Point, i: nat)
    requires i < |zs| && Inside(p, zs[i].polygon)
    requires forall j :: 0 <= j < |zs| && j != i ==> !Inside(p, zs[j].polygon)
    ensures InAnyZone(zs, p) <==> Indexable(zs[i].polygon)
  {
    if Indexable(zs[i].polygon) {
      assert Holds(zs[i], p);
    }
  }

  /** The hottest intensity by ray-casting every zone of the list, whatever its size. */
  predicate IsHottestOfAll(zs: seq<ZoneValue>, p: Point, v: real) {
    && (exists i :: 0 <= i < |zs| && Inside(p, zs[i].polygon) && zs[i].intensity == Finite(v))
    && (forall i :: 0 <= i < |zs| && Inside(p, zs[i].polygon) && zs[i].intensity.Finite? ==> zs[i].intensity.value <= v)
  }

  /** When every zone is small enough for the index, the intensity is that of a ray-cast over all zones. */
  lemma IndexableZonesAreMeasured(zs: seq<ZoneValue>, p: Point, v: real)
    requires forall i :: 0 <= i < |zs| && zs[i].polygon != [] ==> Indexable(zs[i].polygon)
    ensures IsHottest(zs, p, v) <==> IsHottestOfAll(zs, p, v)
  {
    forall i | 0 <= i < |zs|
      ensures Holds(zs[i], p) == Inside(p, zs[i].polygon)
    {
    }
  }

  /** The intensity of a zone that alone holds a point is found there if and only if it is small enough for the index. */
  lemma MeasuredAloneIffIndexable(zs: seq<ZoneValue>, p: Point, i: nat, v: real)
    requires i < |zs| && Inside(p, zs[i].polygon) && zs[i].intensity == Finite(v)
    requires forall j :: 0 <= j < |zs| && j != i ==> !Inside(p, zs[j].polygon)
    ensures IsHottestOfAll(zs, p, v)
    ensures IsHottest(zs, p, v) <==> Indexable(zs[i].polygon)
  {
    if Indexable(zs[i].polygon) {
      assert Holds(zs[i], p);
    }
  }

  /** Both queries promise to look at any zone; a zone too large for the index is the exception, for both. */
  lemma OversizedZoneIsMissed()
    ensures var square := [Point(-10.0, -10.0), Point(10.0, -10.0), Point(10.0, 10.0), Point(-10.0, 10.0)];
            var zones, o := [ZoneValue("z", square, Finite(1.0))], Point(0.0, 0.0);
            && Inside(o, square) && IsHottestOfAll(zones, o, 1.0)
            && !InAnyZone(zones, o) && forall v :: !IsHottest(zones, o, v)
  {
    var o := Point(0.0, 0.0);
    var square := [Point(-10.0, -10.0), Point(10.0, -10.0), Point(10.0, 10.0), Point(-10.0, 10.0)];
    assert !Crosses(o, square[0], Prev(square, 0));
    assert !Crosses(o, square[1], Prev(square, 1));
    assert Crosses(o, square[2], Prev(square, 2));
    assert !Crosses(o, square[3], Prev(square, 3));
    assert Crossings(o, square, 1) == 0 && Crossings(o, square, 2) == 0;
    assert Crossings(o, square, 3) == 1 && Crossings(o, square, 4) == 1;
    BBoxIsTight(square);
    var b := BBox(square);
    assert b == Box(-10.0, 10.0, -10.0, 10.0);
    assert Slot(10.0) == 2000 && Slot(-10.0) == -2000;
    assert Inside(o, [ZoneValue("z", square, Finite(1.0))][0].polygon);
  }

  class HeatZone {
    var id: string
    var polygon: Polygon
    var intensity: Intensity

    constructor (id: string, polygon: Polygon, intensity: Intensity)
      ensures Value() == ZoneValue(id, polygon, intensity)
    {
      this.id, this.polygon, this.intensity := id, polygon, intensity;
    }

    function Value(): ZoneValue
      reads this
    {
      ZoneValue(id, polygon, intensity)
    }
  }

  type Grid = map<Cell, seq<HeatZone>>

  /** A cell's list; a missing cell has none. */
  function CellList(g: Grid, c: Cell): seq<HeatZone> {
    if c in g then g[c] else []
  }

  predicate NoEmptyCells(g: Grid) {
    forall c :: c in g ==> g[c] != []
  }

  /** The grid indexes exactly these shapes: each zone once in every cell it occupies, nothing else. */
  ghost predicate Indexes(g: Grid, shapes: map<HeatZone, Polygon>) {
    && NoEmptyCells(g)
    && (forall c: Cell :: NoDuplicates(CellList(g, c)))
    && (forall c: Cell, z :: z in CellList(g, c) ==> z in shapes)
    && (forall c: Cell, z :: z in shapes ==> (z in CellList(g, c) <==> Occupies(shapes[z], c)))
  }

  /** `after` is `before` with `zone` added to every cell it occupies. */
  ghost predicate Added(before: Grid, after: Grid, zone: HeatZone, poly: Polygon) {
    forall c: Cell :: CellList(after, c) == CellList(before, c) + if Occupies(poly, c) then [zone] else []
  }

  /** `after` is `before` with `zone` taken out of every cell it occupies. */
  ghost predicate Dropped(before: Grid, after: Grid, zone: HeatZone, poly: Polygon) {
    forall c: Cell :: CellList(after, c) ==
                      if Occupies(poly, c) then Without(CellList(before, c), zone) else CellList(before, c)
  }

  lemma AddingKeepsIndex(before: Grid, after: Grid, shapes: map<HeatZone, Polygon>, zone: HeatZone, poly: Polygon)
    requires Indexes(before, shapes) && zone !in shapes
    requires NoEmptyCells(after) && Added(before, after, zone, poly)
    ensures Indexes(after, shapes[zone := poly])
  {
    forall c: Cell
      ensures NoDuplicates(CellList(after, c))
      ensures forall z :: z in CellList(after, c) ==> z in shapes[zone := poly]
      ensures forall z :: z in shapes[zone := poly] ==> (z in CellList(after, c) <==> Occupies(shapes[zone := poly][z], c))
    {
      assert zone !in CellList(before, c) && NoDuplicates(CellList(before, c));
    }
  }

  lemma DroppingKeepsIndex(before: Grid, after: Grid, shapes: map<HeatZone, Polygon>, zone: HeatZone)
    requires Indexes(before, shapes) && zone in shapes
    requires NoEmptyCells(after) && Dropped(before, after, zone, shapes[zone])
    ensures Indexes(after, shapes - {zone})
  {
    forall c: Cell
      ensures NoDuplicates(CellList(after, c))
      ensures forall z :: z in CellList(after, c) ==> z in shapes - {zone}
      ensures forall z :: z in shapes - {zone} ==> (z in CellList(after, c) <==> Occupies((shapes - {zone})[z], c))
    {
      assert NoDuplicates(CellList(before, c));
      WithoutDropsExactly(CellList(before, c), zone);
    }
  }

  /** One step of `deindexZone`: the zone leaves one cell, and an emptied cell is deleted. */
  function DropFromCell(g: Grid, key: Cell, zone: HeatZone): Grid {
    if key !in g then g
    else if Without(g[key], zone) == [] then g - {key}
    else g[key := Without(g[key], zone)]
  }

  lemma DropFromCellDrops(g: Grid, key: Cell, zone: HeatZone)
    requires NoEmptyCells(g)
    ensures NoEmptyCells(DropFromCell(g, key, zone))
    ensures forall c: Cell :: CellList(DropFromCell(g, key, zone), c) ==
                              if c == key then Without(CellList(g, c), zone) else CellList(g, c)
  {
  }

  /** `after` is `before` with `zone` taken out of these cells. */
  ghost predicate DroppedFrom(before: Grid, after: Grid, zone: HeatZone, cells: seq<Cell>) {
    forall c: Cell :: CellList(after, c) == if c in cells then Without(CellList(before, c), zone) else CellList(before, c)
  }

  lemma DropOneMore(before: Grid, g: Grid, zone: HeatZone, cells: seq<Cell>, key: Cell)
    requires NoEmptyCells(g) && DroppedFrom(before, g, zone, cells) && key !in cells
    ensures NoEmptyCells(DropFromCell(g, key, zone))
    ensures DroppedFrom(before, DropFromCell(g, key, zone), zone, cells + [key])
  {
    hide DropFromCell, NoEmptyCells;
    DropFromCellDrops(g, key, zone);
  }

  /** Taking one position out of a list without repeats takes out that element only. */
  lemma RemovalDropsExactly(zones: seq<HeatZone>, index: nat)
    requires NoDuplicates(zones) && index < |zones|
    ensures var rest := zones[..index] + zones[index + 1..];
            NoDuplicates(rest) && forall z :: z in rest <==> z in zones && z != zones[index]
  {
    var rest := zones[..index] + zones[index + 1..];
    assert forall i :: 0 <= i < |rest| ==> rest[i] == zones[if i < index then i else i + 1];
    forall z | z in zones && z != zones[index]
      ensures z in rest
    {
      var i :| 0 <= i < |zones| && zones[i] == z;
      assert rest[if i < index then i else i - 1] == z;
    }
    forall z | z in rest
      ensures z in zones && z != zones[index]
    {
      var i :| 0 <= i < |rest| && rest[i] == z;
      assert z == zones[if i < index then i else i + 1];
    }
  }

  class HeatZoneManager {
    var zones: seq<HeatZone>
    var grid: Grid

    /** The shape of each zone in the list. */
    ghost function Shapes(): map<HeatZone, Polygon>
      reads this, zones
    {
      map z | z in zones :: z.polygon
    }

    /** The list has no zone twice, and the grid indexes exactly the list. */
    ghost predicate Valid()
      reads this, zones
    {
      NoDuplicates(zones) && Indexes(grid, Shapes())
    }

    /** The zones as values, in list order. */
    ghost function View(): (v: seq<ZoneValue>)
      reads this, zones
      ensures |v| == |zones|
    {
      seq(|zones|, i requires 0 <= i < |zones| reads this, zones => zones[i].Value())
    }

    constructor ()
      ensures Valid() && zones == [] && View() == []
    {
      zones, grid := [], map[];
    }

    /** `indexZone`. */
    method IndexZone(zone: HeatZone)
      requires NoEmptyCells(grid)
      modifies this`grid
      ensures NoEmptyCells(grid) && Added(old(grid), grid, zone, zone.polygon)
    {
      var cells := ZoneCells(zone.polygon);
      var k := 0;
      while k < |cells|
        invariant 0 <= k <= |cells|
        invariant NoEmptyCells(grid)
        invariant forall c: Cell :: CellList(grid, c) ==
                                    CellList(old(grid), c) + if c in cells[..k] then [zone] else []
      {
        var key := cells[k];
        assert key !in cells[..k];
        grid := grid[key := CellList(grid, key) + [zone]];
        k := k + 1;
      }
      assert cells[..k] == cells;
    }

    /** `deindexZone`: drops the zone from each of its cells, and each cell left empty. */
    method DeindexZone(zone: HeatZone)
      requires NoEmptyCells(grid)
      modifies this`grid
      ensures NoEmptyCells(grid) && Dropped(old(grid), grid, zone, zone.polygon)
    {
      var cells := ZoneCells(zone.polygon);
      var k := 0;
      while k < |cells|
        invariant 0 <= k <= |cells|
        invariant NoEmptyCells(grid)
        invariant DroppedFrom(old(grid), grid, zone, cells[..k])
      {
        var key := cells[k];
        assert key !in cells[..k];
        DropOneMore(old(grid), grid, zone, cells[..k], key);
        grid := DropFromCell(grid, key, zone);
        assert cells[..k + 1] == cells[..k] + [key];
        k := k + 1;
      }
      assert cells[..k] == cells;
    }

    /** Appending a zone that is not in the list, and indexing it. */
    method Append(zone: HeatZone)
      requires Valid() && zone !in zones
      modifies this
      ensures Valid() && zones == old(zones) + [zone]
    {
      ghost var shapes := Shapes();
      zones := zones + [zone];
      IndexZone(zone);
      AddingKeepsIndex(old(grid), grid, shapes, zone, zone.polygon);
      assert Shapes() == shapes[zone := zone.polygon];
    }

    /** `addZone`: refused when the list is full. */
    method AddZone(id: string, polygon: Polygon, intensity: Intensity) returns (added: bool)
      requires Valid()
      modifies this
      ensures Valid()
      ensures added == (|old(View())| < MAX_TOTAL)
      ensures View() == if added then old(View()) + [ZoneValue(id, polygon, intensity)] else old(View())
    {
      if |zones| >= MAX_TOTAL {
        return false;
      }
      var zone := new HeatZone(id, polygon, intensity);
      Append(zone);
      return true;
    }

    /**
     * The appending half of `generateHeatedZones`: of the zones the random
     * placement produced, those that fit under the cap are added in order.
     */
    method AppendGenerated(generated: seq<ZoneValue>, count: nat)
      requires Valid()
      modifies this
      ensures Valid()
      ensures var room := if |old(View())| < MAX_TOTAL then MAX_TOTAL - |old(View())| else 0;
              var taken := if count < room then count else room;
              View() == old(View()) + generated[..if taken < |generated| then taken else |generated|]
    {
      var capacity := if |zones| < MAX_TOTAL then MAX_TOTAL - |zones| else 0;
      var target := if count < capacity then count else capacity;
      if |generated| < target {
        target := |generated|;
      }
      var k := 0;
      while k < target
        invariant 0 <= k <= target <= |generated|
        invariant Valid()
        invariant forall i :: 0 <= i < |zones| ==> zones[i] in old(zones) || fresh(zones[i])
        invariant View() == old(View()) + generated[..k]
      {
        ghost var before := View();
        var zone := new HeatZone(generated[k].id, generated[k].polygon, generated[k].intensity);
        assert View() == before;
        Append(zone);
        assert View() == before + [generated[k]];
        k := k + 1;
      }
    }

    /** `getZoneById`: position of the first zone with the id, or `|zones|`. */
    method FindById(id: string) returns (i: nat)
      ensures i == FirstWithId(View(), id)
    {
      i := 0;
      while i < |zones| && zones[i].id != id
        invariant i <= |zones|
        invariant forall j :: 0 <= j < i ==> zones[j].id != id
      {
        i := i + 1;
      }
      assert forall j :: 0 <= j < |zones| ==> View()[j].id == zones[j].id;
    }

    /** The geometry half of `updateZone`: out of the old cells, new shape, into the new cells. */
    method Reshape(zone: HeatZone, polygon: Polygon)
      requires Valid() && zone in zones
      modifies this`grid, zone`polygon
      ensures Valid() && zone.polygon == polygon
      ensures zones == old(zones)
    {
      ghost var shapes := Shapes();
      DeindexZone(zone);
      DroppingKeepsIndex(old(grid), grid, shapes, zone);
      zone.polygon := polygon;
      ghost var without := grid;
      IndexZone(zone);
      AddingKeepsIndex(without, grid, shapes - {zone}, zone, polygon);
      assert Shapes() == (shapes - {zone})[zone := polygon];
    }

    /** The intensity half of `updateZone`. */
    method Recolour(zone: HeatZone, intensity: Intensity)
      requires Valid() && zone in zones
      modifies zone`intensity
      ensures Valid() && zone.intensity == intensity
    {
      zone.intensity := intensity;
      assert Shapes() == old(Shapes());
    }

    /** `updateZone`: the first zone with the id takes the patch; a new shape re-indexes it. */
    method UpdateZone(id: string, polygon: Option<Polygon>, intensity: Option<Intensity>) returns (found: bool)
      requires Valid()
      modifies this`grid, zones
      ensures Valid() && zones == old(zones)
      ensures found == (FirstWithId(old(View()), id) < |old(View())|)
      ensures !found ==> View() == old(View())
      ensures found ==>
                var i := FirstWithId(old(View()), id);
                var was := old(View())[i];
                View() == old(View())[i := ZoneValue(was.id,
                                                     if polygon.Some? then polygon.value else was.polygon,
                                                     if intensity.Some? then intensity.value else was.intensity)]
    {
      hide Indexes;
      var i := FindById(id);
      if i == |zones| {
        return false;
      }
      var zone := zones[i];
      if polygon.Some? {
        Reshape(zone, polygon.value);
      }
      if intensity.Some? {
        Recolour(zone, intensity.value);
      }
      forall j | 0 <= j < |zones|
        ensures View()[j] == if j == i then zone.Value() else old(View()[j])
      {
        assert j != i ==> zones[j] != zone;
      }
      return true;
    }

    /** `removeZone`. */
    method RemoveZone(id: string) returns (found: bool)
      requires Valid()
      modifies this
      ensures Valid()
      ensures found == (FirstWithId(old(View()), id) < |old(View())|)
      ensures !found ==> View() == old(View())
      ensures found ==>
                var i := FirstWithId(old(View()), id);
                View() == old(View())[..i] + old(View())[i + 1..]
    {
      var index := FindById(id);
      if index == |zones| {
        return false;
      }
      TakeOut(index);
      return true;
    }

    /** The zone leaves the list and the grid. */
    method TakeOut(index: nat)
      requires Valid() && index < |zones|
      modifies this
      ensures Valid() && zones == old(zones)[..index] + old(zones)[index + 1..]
    {
      assert NoEmptyCells(grid);
      hide Indexes, Dropped, NoEmptyCells;
      var zone := zones[index];
      ghost var shapes := Shapes();
      RemovalDropsExactly(zones, index);
      zones := zones[..index] + zones[index + 1..];
      DeindexZone(zone);
      DroppingKeepsIndex(old(grid), grid, shapes, zone);
      assert Shapes() == shapes - {zone};
    }

    /** `clearZones`. */
    method ClearZones()
      modifies this
      ensures Valid() && View() == []
    {
      zones := [];
      grid := map[];
    }

    /** `isPositionInHeatZone`: one cell answers for the whole list. */
    method IsPositionInHeatZone(p: Point) returns (r: bool)
      requires Valid()
      ensures r == InAnyZone(View(), p)
    {
      var candidates := CellList(grid, CellOf(p));
      r := false;
      var k := 0;
      while k < |candidates| && !r
        invariant 0 <= k <= |candidates|
        invariant r ==> k > 0 && Inside(p, candidates[k - 1].polygon)
        invariant !r ==> forall j :: 0 <= j < k ==> !Inside(p, candidates[j].polygon)
      {
        r := RaycastPIP(p, candidates[k].polygon);
        k := k + 1;
      }
      if r {
        var i := CandidateIsZone(p, k - 1);
        assert Holds(View()[i], p);
      } else if InAnyZone(View(), p) {
        var i :| 0 <= i < |View()| && Holds(View()[i], p);
        var j := ZoneIsCandidate(p, i);
        assert false;
      }
    }

    /** `getIntensityAt`: the hottest zone around the point with a usable intensity. */
    method GetIntensityAt(p: Point) returns (hottest: Option<real>)
      requires Valid()
      ensures hottest.Some? ==> IsHottest(View(), p, hottest.value)
      ensures hottest.None? ==> forall i :: 0 <= i < |View()| && Holds(View()[i], p) ==> View()[i].intensity.NotFinite?
    {
      var candidates := CellList(grid, CellOf(p));
      hottest := None;
      ghost var at := 0;
      var k := 0;
      while k < |candidates|
        invariant 0 <= k <= |candidates|
        invariant hottest.Some? ==>
                    0 <= at < k && Inside(p, candidates[at].polygon) && candidates[at].intensity == Finite(hottest.value)
        invariant forall j :: 0 <= j < k && Inside(p, candidates[j].polygon) && candidates[j].intensity.Finite? ==>
                    hottest.Some? && candidates[j].intensity.value <= hottest.value
      {
        var zone := candidates[k];
        var inside := RaycastPIP(p, zone.polygon);
        if inside && zone.intensity.Finite? {
          if hottest.None? || zone.intensity.value > hottest.value {
            hottest := Some(zone.intensity.value);
            at := k;
          }
        }
        k := k + 1;
      }
      if hottest.Some? {
        var i := CandidateIsZone(p, at);
        assert Holds(View()[i], p);
      }
      forall i | 0 <= i < |View()| && Holds(View()[i], p) && View()[i].intensity.Finite?
        ensures hottest.Some? && View()[i].intensity.value <= hottest.value
      {
        var j := ZoneIsCandidate(p, i);
      }
    }

    /** A zone found in the query's cell is in the list, and small enough to be indexed. */
    lemma CandidateIsZone(p: Point, j: nat) returns (i: nat)
      requires Valid() && j < |CellList(grid, CellOf(p))|
      ensures i < |zones| && zones[i] == CellList(grid, CellOf(p))[j] && Indexable(zones[i].polygon)
    {
      var z := CellList(grid, CellOf(p))[j];
      assert z in Shapes() && Shapes()[z] == z.polygon;
      i :| 0 <= i < |zones| && zones[i] == z;
    }

    /** A zone around the point is found in the query's cell. */
    lemma ZoneIsCandidate(p: Point, i: nat) returns (j: nat)
      requires Valid() && i < |zones| && Holds(zones[i].Value(), p)
      ensures j < |CellList(grid, CellOf(p))| && CellList(grid, CellOf(p))[j] == zones[i]
    {
      InsideOccupiesCell(p, zones[i].polygon);
      var cell := CellList(grid, CellOf(p));
      assert zones[i] in Shapes() && Shapes()[zones[i]] == zones[i].polygon;
      assert zones[i] in cell;
      j :| 0 <= j < |cell| && cell[j] == zones[i];
    }
  }
}
