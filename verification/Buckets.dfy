/**
 * The downsampled analytics read (StateStore.ts:183-305, 663-761): rows stream
 * newest-first into time buckets, and the read stops when enough buckets are
 * complete.  It is proved to equal a group-by of the window.
 */
module Buckets {
  import opened Common

  /** `rest` stands for the fields a bucket takes from its newest sample. */
  datatype Fleet = Fleet(
    id: string,
    activeCount: Option<real>,
    avgSpeed: Option<real>,
    routeEfficiency: Option<real>,
    rest: string)

  /** A stored row; `timestamp` is in milliseconds. */
  datatype Row = Row(
    id: int,
    timestamp: int,
    activeVehicles: Option<real>,
    avgSpeed: Option<real>,
    avgRouteEfficiency: Option<real>,
    fleets: seq<Fleet>,
    rest: string)

  const MAX_BUCKET_SCAN_ROWS: nat := 250_000

  function OrZero(x: Option<real>): real {
    if x.Some? then x.value else 0.0
  }

  /** Rows come newest first. */
  predicate NewestFirst(rows: seq<Row>) {
    forall i, j :: 0 <= i < j < |rows| ==> rows[i].timestamp >= rows[j].timestamp
  }

  /** The start of the bucket a row falls in: `Math.floor(ts / durationMs) * durationMs`. */
  function KeyOf(row: Row, durationMs: nat): int
    requires durationMs > 0
  {
    row.timestamp / durationMs * durationMs
  }

  function Keying(durationMs: nat): Row -> int
    requires durationMs > 0
  {
    row => KeyOf(row, durationMs)
  }

  lemma BucketSpan(row: Row, durationMs: nat) returns (q: int)
    requires durationMs > 0
    ensures KeyOf(row, durationMs) == q * durationMs
    ensures KeyOf(row, durationMs) <= row.timestamp < KeyOf(row, durationMs) + durationMs
  {
    q := row.timestamp / durationMs;
  }

  lemma DifferenceTimes(p: int, q: int, d: int)
    ensures (p - q) * d == p * d - q * d
  {
  }

  lemma NaturalProduct(k: nat, d: nat)
    ensures k * d >= 0
  {
  }

  lemma MultiplesApart(p: int, q: int, d: nat)
    requires d > 0 && p * d > q * d
    ensures p * d - q * d >= d
  {
    if p <= q {
      DifferenceTimes(q, p, d);
      NaturalProduct(q - p, d);
    } else {
      DifferenceTimes(p, q, d);
      DifferenceTimes(p - q, 1, d);
      NaturalProduct(p - q - 1, d);
    }
  }

  /** Newest-first rows have falling keys. */
  lemma KeyingFalls(rows: seq<Row>, durationMs: nat)
    requires durationMs > 0 && NewestFirst(rows)
    ensures KeysFall(rows, Keying(durationMs))
  {
    forall i, j | 0 <= i < j < |rows|
      ensures KeyOf(rows[i], durationMs) >= KeyOf(rows[j], durationMs)
    {
      var p := BucketSpan(rows[i], durationMs);
      var q := BucketSpan(rows[j], durationMs);
      if q * durationMs > p * durationMs {
        MultiplesApart(q, p, durationMs);
      }
    }
  }

  // ---- Totals, by definition ----

  datatype FleetTotal = FleetTotal(latest: Fleet, samples: nat, activeCount: real, avgSpeed: real, routeEfficiency: real)

  datatype Bucket = Bucket(
    key: int,
    latest: Row,
    oldestTimestamp: int,
    sampleCount: nat,
    activeVehicles: real,
    avgSpeed: real,
    avgRouteEfficiency: real,
    fleets: seq<FleetTotal>)

  function Sum<T>(xs: seq<T>, f: T -> real): real {
    if xs == [] then 0.0 else Sum(xs[..|xs| - 1], f) + f(xs[|xs| - 1])
  }

  function RowActive(r: Row): real { OrZero(r.activeVehicles) }
  function RowSpeed(r: Row): real { OrZero(r.avgSpeed) }
  function RowEfficiency(r: Row): real { OrZero(r.avgRouteEfficiency) }
  function FleetActive(f: Fleet): real { OrZero(f.activeCount) }
  function FleetSpeed(f: Fleet): real { OrZero(f.avgSpeed) }
  function FleetEfficiency(f: Fleet): real { OrZero(f.routeEfficiency) }

  function SamplesOf(samples: seq<Fleet>, id: string): seq<Fleet> {
    if samples == [] then []
    else
      var front, last := SamplesOf(samples[..|samples| - 1], id), samples[|samples| - 1];
      if last.id == id then front + [last] else front
  }

  /** What a bucket says of one fleet: its newest sample, and sums over all its samples. */
  function TotalOf(samples: seq<Fleet>): FleetTotal
    requires samples != []
  {
    FleetTotal(samples[0], |samples|,
               Sum(samples, FleetActive), Sum(samples, FleetSpeed), Sum(samples, FleetEfficiency))
  }

  /** The fleets sampled, in order of their first sighting. */
  function FleetIds(samples: seq<Fleet>): seq<string> {
    if samples == [] then []
    else
      var front, id := FleetIds(samples[..|samples| - 1]), samples[|samples| - 1].id;
      if id in front then front else front + [id]
  }

  /** The total of the fleet's samples, of which there are some. */
  ghost predicate Totals(t: FleetTotal, samples: seq<Fleet>, id: string) {
    var mine := SamplesOf(samples, id);
    mine != [] && mine[0].id == id && t == TotalOf(mine)
  }

  /** One total per fleet, in order of first sighting. */
  ghost predicate TotalsOf(totals: seq<FleetTotal>, samples: seq<Fleet>) {
    && |totals| == |FleetIds(samples)|
    && forall i :: 0 <= i < |totals| ==> Totals(totals[i], samples, FleetIds(samples)[i])
  }

  function AllFleets(rows: seq<Row>): seq<Fleet> {
    if rows == [] then [] else AllFleets(rows[..|rows| - 1]) + rows[|rows| - 1].fleets
  }

  /** A bucket that holds exactly these rows, newest first. */
  ghost predicate Holds(b: Bucket, key: int, rows: seq<Row>) {
    && rows != []
    && b.key == key && b.latest == rows[0] && b.oldestTimestamp == rows[|rows| - 1].timestamp
    && b.sampleCount == |rows|
    && b.activeVehicles == Sum(rows, RowActive) && b.avgSpeed == Sum(rows, RowSpeed)
    && b.avgRouteEfficiency == Sum(rows, RowEfficiency)
    && TotalsOf(b.fleets, AllFleets(rows))
  }

  // ---- Accumulating ----

  lemma {:induction false} FleetIdsAreSampled(samples: seq<Fleet>, id: string)
    ensures id in FleetIds(samples) <==> SamplesOf(samples, id) != []
    ensures SamplesOf(samples, id) != [] ==> SamplesOf(samples, id)[0].id == id
    ensures forall i, j :: 0 <= i < j < |FleetIds(samples)| ==> FleetIds(samples)[i] != FleetIds(samples)[j]
  {
    if samples != [] {
      FleetIdsAreSampled(samples[..|samples| - 1], id);
    }
  }

  /** The total a further sample makes. */
  function WithSample(t: FleetTotal, f: Fleet): FleetTotal {
    t.(samples := t.samples + 1, activeCount := t.activeCount + OrZero(f.activeCount),
       avgSpeed := t.avgSpeed + OrZero(f.avgSpeed), routeEfficiency := t.routeEfficiency + OrZero(f.routeEfficiency))
  }

  function FirstSample(f: Fleet): FleetTotal {
    FleetTotal(f, 1, OrZero(f.activeCount), OrZero(f.avgSpeed), OrZero(f.routeEfficiency))
  }

  lemma TotalOfOneMore(mine: seq<Fleet>, f: Fleet)
    ensures TotalOf(mine + [f]) == if mine == [] then FirstSample(f) else WithSample(TotalOf(mine), f)
  {
    SumOneMore(mine, f, FleetActive);
    SumOneMore(mine, f, FleetSpeed);
    SumOneMore(mine, f, FleetEfficiency);
  }

  lemma SumOneMore<T>(xs: seq<T>, x: T, f: T -> real)
    ensures Sum(xs + [x], f) == Sum(xs, f) + f(x)
  {
    assert (xs + [x])[..|xs|] == xs;
  }

  /** What one more sample does to the total of each fleet. */
  lemma TotalsOneMore(samples: seq<Fleet>, f: Fleet, t: FleetTotal, id: string)
    requires Totals(t, samples, id)
    ensures Totals(if f.id == id then WithSample(t, f) else t, samples + [f], id)
  {
    assert (samples + [f])[..|samples|] == samples;
    TotalOfOneMore(SamplesOf(samples, id), f);
  }

  lemma TotalsOfNew(samples: seq<Fleet>, f: Fleet)
    requires f.id !in FleetIds(samples)
    ensures Totals(FirstSample(f), samples + [f], f.id)
  {
    FleetIdsAreSampled(samples, f.id);
    assert (samples + [f])[..|samples|] == samples;
    TotalOfOneMore(SamplesOf(samples, f.id), f);
  }

  /** The source's update of its fleet map: a known fleet's entry grows, a new fleet gets one at the end. */
  function WithFleet(totals: seq<FleetTotal>, f: Fleet, at: int): seq<FleetTotal>
    requires -1 <= at < |totals|
  {
    if at < 0 then totals + [FirstSample(f)] else totals[at := WithSample(totals[at], f)]
  }

  lemma TotalsGrow(totals: seq<FleetTotal>, samples: seq<Fleet>, f: Fleet, at: int)
    requires TotalsOf(totals, samples) && -1 <= at < |totals|
    requires if at < 0 then f.id !in FleetIds(samples) else FleetIds(samples)[at] == f.id
    ensures TotalsOf(WithFleet(totals, f, at), samples + [f])
  {
    var ids, after := FleetIds(samples), WithFleet(totals, f, at);
    assert (samples + [f])[..|samples|] == samples;
    assert FleetIds(samples + [f]) == if at < 0 then ids + [f.id] else ids;
    forall i | 0 <= i < |after|
      ensures Totals(after[i], samples + [f], FleetIds(samples + [f])[i])
    {
      if i < |totals| {
        FleetIdsAreSampled(samples, f.id);
        TotalsOneMore(samples, f, totals[i], ids[i]);
      } else {
        TotalsOfNew(samples, f);
      }
    }
  }

  /** Each total is named after its fleet. */
  lemma TotalsAreNamed(totals: seq<FleetTotal>, samples: seq<Fleet>)
    requires TotalsOf(totals, samples)
    ensures |totals| == |FleetIds(samples)|
    ensures forall i :: 0 <= i < |totals| ==> totals[i].latest.id == FleetIds(samples)[i]
  {
    forall i | 0 <= i < |totals|
      ensures totals[i].latest.id == FleetIds(samples)[i]
    {
      assert Totals(totals[i], samples, FleetIds(samples)[i]);
    }
  }

  /** The loop of `accumulate` over a row's fleets. */
  method AccumulateFleets(totals0: seq<FleetTotal>, ghost samples: seq<Fleet>, fleets: seq<Fleet>)
    returns (totals: seq<FleetTotal>)
    requires TotalsOf(totals0, samples)
    ensures TotalsOf(totals, samples + fleets)
  {
    hide TotalsOf, WithFleet;
    totals := totals0;
    var k := 0;
    assert samples + fleets[..0] == samples;
    while k < |fleets|
      invariant 0 <= k <= |fleets|
      invariant TotalsOf(totals, samples + fleets[..k])
    {
      var fleet := fleets[k];
      var at := FindFleet(totals, fleet.id);
      ghost var seen := samples + fleets[..k];
      TotalsAreNamed(totals, seen);
      TotalsGrow(totals, seen, fleet, at);
      totals := WithFleet(totals, fleet, at);
      assert samples + fleets[..k + 1] == seen + [fleet];
      k := k + 1;
    }
    assert fleets[..k] == fleets;
  }

  /** `fleets.get(id)`. */
  method FindFleet(totals: seq<FleetTotal>, id: string) returns (at: int)
    ensures -1 <= at < |totals|
    ensures at >= 0 ==> totals[at].latest.id == id
    ensures at < 0 ==> forall i :: 0 <= i < |totals| ==> totals[i].latest.id != id
  {
    at := 0;
    while at < |totals|
      invariant 0 <= at <= |totals|
      invariant forall i :: 0 <= i < at ==> totals[i].latest.id != id
    {
      if totals[at].latest.id == id {
        return;
      }
      at := at + 1;
    }
    at := -1;
  }

  /** A bucket newly opened for a row, before the row is folded in. */
  function Opened(key: int, row: Row): Bucket {
    Bucket(key, row, row.timestamp, 0, 0.0, 0.0, 0.0, [])
  }

  /** A bucket that has taken these rows; none yet, if it was just opened for `row`. */
  ghost predicate Taken(b: Bucket, key: int, rows: seq<Row>, row: Row) {
    if rows == [] then b == Opened(key, row) else Holds(b, key, rows)
  }

  /** `accumulate`. */
  method Accumulate(b: Bucket, row: Row, ghost key: int, ghost rows: seq<Row>) returns (r: Bucket)
    requires Taken(b, key, rows, row)
    ensures Holds(r, key, rows + [row])
  {
    assert (rows + [row])[..|rows|] == rows;
    var fleets := AccumulateFleets(b.fleets, AllFleets(rows), row.fleets);
    r := b.(sampleCount := b.sampleCount + 1,
            oldestTimestamp := row.timestamp,
            activeVehicles := b.activeVehicles + OrZero(row.activeVehicles),
            avgSpeed := b.avgSpeed + OrZero(row.avgSpeed),
            avgRouteEfficiency := b.avgRouteEfficiency + OrZero(row.avgRouteEfficiency),
            fleets := fleets);
  }

  // ---- Grouping ----

  function RowsWith(rows: seq<Row>, keyOf: Row -> int, key: int): seq<Row>
  {
    if rows == [] then []
    else
      var front, last := RowsWith(rows[..|rows| - 1], keyOf, key), rows[|rows| - 1];
      if keyOf(last) == key then front + [last] else front
  }

  /** The keys of the rows, each once, in order of appearance. */
  function GroupKeys(rows: seq<Row>, keyOf: Row -> int): seq<int>
  {
    if rows == [] then []
    else
      var front, key := GroupKeys(rows[..|rows| - 1], keyOf), keyOf(rows[|rows| - 1]);
      if key in front then front else front + [key]
  }

  /** Newer rows have no smaller keys. */
  ghost predicate KeysFall(rows: seq<Row>, keyOf: Row -> int) {
    forall i, j :: 0 <= i < j < |rows| ==> keyOf(rows[i]) >= keyOf(rows[j])
  }

  /** The keys fall strictly, they are those of the rows, and the last is that of the last row. */
  lemma {:induction false} GroupKeysFall(rows: seq<Row>, keyOf: Row -> int)
    requires KeysFall(rows, keyOf)
    ensures var keys := GroupKeys(rows, keyOf);
            && (forall i, j :: 0 <= i < j < |keys| ==> keys[i] > keys[j])
            && (forall i :: 0 <= i < |rows| ==> keyOf(rows[i]) in keys)
            && (rows != [] ==> keys != [] && keys[|keys| - 1] == keyOf(rows[|rows| - 1]))
  {
    if rows != [] {
      var front, last := rows[..|rows| - 1], rows[|rows| - 1];
      assert KeysFall(front, keyOf);
      GroupKeysFall(front, keyOf);
      var before, key := GroupKeys(front, keyOf), keyOf(last);
      if front != [] {
        assert before[|before| - 1] == keyOf(front[|front| - 1]) >= key by {
          assert front[|front| - 1] == rows[|rows| - 2];
        }
      }
      forall i | 0 <= i < |rows|
        ensures keyOf(rows[i]) in GroupKeys(rows, keyOf)
      {
        if i < |front| {
          assert keyOf(front[i]) in before;
        }
      }
    }
  }

  lemma {:induction false} KeyHasRows(rows: seq<Row>, keyOf: Row -> int, key: int)
    ensures key in GroupKeys(rows, keyOf) <==> RowsWith(rows, keyOf, key) != []
  {
    if rows != [] {
      KeyHasRows(rows[..|rows| - 1], keyOf, key);
    }
  }

  /** Rows older than a bucket add nothing to it. */
  lemma {:induction false} OlderRowsAddNothing(rows: seq<Row>, keyOf: Row -> int, key: int, n: nat)
    requires KeysFall(rows, keyOf) && n < |rows|
    requires keyOf(rows[n]) < key
    ensures RowsWith(rows, keyOf, key) == RowsWith(rows[..n], keyOf, key)
    decreases |rows|
  {
    var front := rows[..|rows| - 1];
    if n < |front| {
      OlderRowsAddNothing(front, keyOf, key, n);
      assert front[..n] == rows[..n];
    }
  }

  lemma {:induction false} KeysOfPrefix(rows: seq<Row>, keyOf: Row -> int, n: nat)
    requires n <= |rows|
    ensures GroupKeys(rows[..n], keyOf) <= GroupKeys(rows, keyOf)
    decreases |rows|
  {
    if n < |rows| {
      KeysOfPrefix(rows[..|rows| - 1], keyOf, n);
      assert rows[..|rows| - 1][..n] == rows[..n];
    } else {
      assert rows[..n] == rows;
    }
  }

  // ---- The streaming read ----

  /** Bucket `j` holds all of the rows with the `j`-th key. */
  ghost predicate Grouped(buckets: seq<Bucket>, rows: seq<Row>, keyOf: Row -> int)
  {
    && |buckets| <= |GroupKeys(rows, keyOf)|
    && forall j :: 0 <= j < |buckets| ==>
         Holds(buckets[j], GroupKeys(rows, keyOf)[j], RowsWith(rows, keyOf, GroupKeys(rows, keyOf)[j]))
  }

  datatype Read = Read(buckets: seq<Bucket>, scanned: nat, omitted: int, truncated: bool)

  /** The rows the statement returns: at most the scan cap, from the newest. */
  function Fetched(window: seq<Row>): seq<Row> {
    if |window| <= MAX_BUCKET_SCAN_ROWS then window else window[..MAX_BUCKET_SCAN_ROWS]
  }

  /** As many rows as the cap lets through, and no row left out is newer than one of them. */
  lemma FetchedAreNewest(window: seq<Row>)
    requires NewestFirst(window)
    ensures multiset(Fetched(window)) <= multiset(window) && |Fetched(window)| == Lesser(|window|, 250_000)
    ensures forall i, j :: 0 <= i < |Fetched(window)| <= j < |window| ==> Fetched(window)[i].timestamp >= window[j].timestamp
  {
    assert window == Fetched(window) + window[|Fetched(window)|..];
  }

  lemma RowsWithOneMore(rows: seq<Row>, n: nat, keyOf: Row -> int, key: int)
    requires n < |rows|
    ensures RowsWith(rows[..n + 1], keyOf, key) ==
            RowsWith(rows[..n], keyOf, key) + if keyOf(rows[n]) == key then [rows[n]] else []
    ensures GroupKeys(rows[..n + 1], keyOf) ==
            if keyOf(rows[n]) in GroupKeys(rows[..n], keyOf) then GroupKeys(rows[..n], keyOf)
            else GroupKeys(rows[..n], keyOf) + [keyOf(rows[n])]
  {
    assert rows[..n + 1][..n] == rows[..n];
  }

  /** Where the loop stands after `n` rows: one bucket per key so far. */
  ghost predicate Streamed(buckets: seq<Bucket>, rows: seq<Row>, n: nat, keyOf: Row -> int)
    requires n <= |rows|
  {
    Grouped(buckets, rows[..n], keyOf) && |buckets| == |GroupKeys(rows[..n], keyOf)|
  }

  lemma BucketKeys(buckets: seq<Bucket>, rows: seq<Row>, n: nat, keyOf: Row -> int)
    requires n <= |rows| && Streamed(buckets, rows, n, keyOf)
    ensures forall j :: 0 <= j < |buckets| ==> buckets[j].key == GroupKeys(rows[..n], keyOf)[j]
  {
  }

  /** The next row's key is the last bucket's, or new and older than every bucket's. */
  lemma NextKey(rows: seq<Row>, n: nat, keyOf: Row -> int)
    requires KeysFall(rows, keyOf) && n < |rows|
    ensures var keys, key := GroupKeys(rows[..n], keyOf), keyOf(rows[n]);
            && (key in keys <==> keys != [] && keys[|keys| - 1] == key)
            && (key !in keys ==> forall j :: 0 <= j < |keys| ==> keys[j] > key)
            && forall j :: 0 <= j < |keys| - 1 ==> keys[j] != key
  {
    GroupKeysFall(rows[..n], keyOf);
    var keys, key := GroupKeys(rows[..n], keyOf), keyOf(rows[n]);
  }

  /** A row leaves the buckets of other keys as they are. */
  lemma OtherBucketsStand(buckets: seq<Bucket>, rows: seq<Row>, n: nat, keyOf: Row -> int, j: nat)
    requires n < |rows| && Streamed(buckets, rows, n, keyOf) && j < |buckets|
    requires GroupKeys(rows[..n], keyOf)[j] != keyOf(rows[n])
    ensures j < |GroupKeys(rows[..n + 1], keyOf)| && GroupKeys(rows[..n + 1], keyOf)[j] == GroupKeys(rows[..n], keyOf)[j]
    ensures Holds(buckets[j], GroupKeys(rows[..n + 1], keyOf)[j],
                  RowsWith(rows[..n + 1], keyOf, GroupKeys(rows[..n + 1], keyOf)[j]))
  {
    var keys, later := GroupKeys(rows[..n], keyOf), GroupKeys(rows[..n + 1], keyOf);
    RowsWithOneMore(rows, n, keyOf, keys[j]);
    assert later[j] == keys[j];
    var mine := RowsWith(rows[..n], keyOf, keys[j]);
    assert mine + [] == mine;
    assert Holds(buckets[j], keys[j], mine);
  }

  /** The last bucket, once it has taken the row, is complete as far as the rows go. */
  lemma RowTaken(before: seq<Bucket>, after: seq<Bucket>, rows: seq<Row>, n: nat, keyOf: Row -> int)
    requires n < |rows| && KeysFall(rows, keyOf) && Streamed(before, rows, n, keyOf)
    requires var isNew := keyOf(rows[n]) !in GroupKeys(rows[..n], keyOf);
             && |after| == |before| + (if isNew then 1 else 0) && after != []
             && (forall j :: 0 <= j < |after| - 1 ==> after[j] == before[j])
             && Holds(after[|after| - 1], keyOf(rows[n]), RowsWith(rows[..n], keyOf, keyOf(rows[n])) + [rows[n]])
    ensures Streamed(after, rows, n + 1, keyOf)
  {
    hide Holds, KeysFall;
    var key, keys := keyOf(rows[n]), GroupKeys(rows[..n], keyOf);
    RowsWithOneMore(rows, n, keyOf, key);
    NextKey(rows, n, keyOf);
    forall j | 0 <= j < |after|
      ensures Holds(after[j], GroupKeys(rows[..n + 1], keyOf)[j],
                    RowsWith(rows[..n + 1], keyOf, GroupKeys(rows[..n + 1], keyOf)[j]))
    {
      if j < |after| - 1 {
        OtherBucketsStand(before, rows, n, keyOf, j);
      }
    }
  }

  /** Folding one row into its bucket. */
  method TakeRow(buckets0: seq<Bucket>, rows: seq<Row>, n: nat, keyOf: Row -> int) returns (buckets: seq<Bucket>)
    requires KeysFall(rows, keyOf) && n < |rows| && Streamed(buckets0, rows, n, keyOf)
    ensures Streamed(buckets, rows, n + 1, keyOf)
    ensures |buckets| == |buckets0| + if buckets0 == [] || buckets0[|buckets0| - 1].key != keyOf(rows[n]) then 1 else 0
  {
    var row := rows[n];
    var key := keyOf(row);
    NextKey(rows, n, keyOf);
    KeyHasRows(rows[..n], keyOf, key);
    buckets := buckets0;
    if buckets == [] || buckets[|buckets| - 1].key != key {
      buckets := buckets + [Opened(key, row)];
    }
    var last := |buckets| - 1;
    assert Taken(buckets[last], key, RowsWith(rows[..n], keyOf, key), row);
    var current := Accumulate(buckets[last], row, key, RowsWith(rows[..n], keyOf, key));
    buckets := buckets[last := current];
    RowTaken(buckets0, buckets, rows, n, keyOf);
  }

  /** Row `i` is in one of the buckets. */
  ghost predicate Covered(buckets: seq<Bucket>, row: Row, keyOf: Row -> int)
  {
    exists j :: 0 <= j < |buckets| && buckets[j].key == keyOf(row)
  }

  /** Stopping before a row of a new key leaves the buckets so far complete. */
  lemma StoppedIsComplete(buckets: seq<Bucket>, rows: seq<Row>, n: nat, keyOf: Row -> int)
    requires KeysFall(rows, keyOf) && n < |rows| && Streamed(buckets, rows, n, keyOf)
    requires keyOf(rows[n]) !in GroupKeys(rows[..n], keyOf)
    ensures Grouped(buckets, rows, keyOf)
  {
    var keys := GroupKeys(rows[..n], keyOf);
    KeysOfPrefix(rows, keyOf, n);
    NextKey(rows, n, keyOf);
    forall j | 0 <= j < |buckets|
      ensures RowsWith(rows, keyOf, keys[j]) == RowsWith(rows[..n], keyOf, keys[j])
    {
      OlderRowsAddNothing(rows, keyOf, keys[j], n);
    }
  }

  /** The rows read before such a stop, and no others, are in the buckets. */
  lemma ScannedAreCovered(buckets: seq<Bucket>, rows: seq<Row>, n: nat, keyOf: Row -> int, i: nat)
    requires KeysFall(rows, keyOf) && n <= |rows| && i < |rows| && Streamed(buckets, rows, n, keyOf)
    requires n < |rows| ==> keyOf(rows[n]) !in GroupKeys(rows[..n], keyOf)
    ensures i < n <==> Covered(buckets, rows[i], keyOf)
  {
    hide Holds;
    var keys := GroupKeys(rows[..n], keyOf);
    GroupKeysFall(rows[..n], keyOf);
    BucketKeys(buckets, rows, n, keyOf);
    if i < n {
      assert rows[..n][i] == rows[i];
      var j :| 0 <= j < |keys| && keys[j] == keyOf(rows[i]);
      assert buckets[j].key == keys[j];
    } else {
      NextKey(rows, n, keyOf);
      forall j | 0 <= j < |buckets|
        ensures buckets[j].key != keyOf(rows[i])
      {
        assert buckets[j].key == keys[j] > keyOf(rows[n]) >= keyOf(rows[i]);
      }
    }
  }

  lemma StreamEnds(buckets: seq<Bucket>, rows: seq<Row>, n: nat, keyOf: Row -> int)
    requires KeysFall(rows, keyOf) && n <= |rows| && Streamed(buckets, rows, n, keyOf)
    requires n < |rows| ==> keyOf(rows[n]) !in GroupKeys(rows[..n], keyOf)
    ensures Grouped(buckets, rows, keyOf)
    ensures n == |rows| ==> |buckets| == |GroupKeys(rows, keyOf)|
    ensures forall i :: 0 <= i < |rows| ==> (i < n <==> Covered(buckets, rows[i], keyOf))
  {
    if n < |rows| {
      StoppedIsComplete(buckets, rows, n, keyOf);
    } else {
      assert rows[..n] == rows;
    }
    forall i | 0 <= i < |rows|
      ensures i < n <==> Covered(buckets, rows[i], keyOf)
    {
      ScannedAreCovered(buckets, rows, n, keyOf, i);
    }
  }

  /** Every row is in a bucket exactly when there are no more keys than buckets allowed. */
  lemma AllCoveredIffFewKeys(buckets: seq<Bucket>, rows: seq<Row>, keyOf: Row -> int, limit: nat)
    requires KeysFall(rows, keyOf) && Grouped(buckets, rows, keyOf)
    requires |buckets| == Lesser(|GroupKeys(rows, keyOf)|, limit)
    ensures (forall i :: 0 <= i < |rows| ==> Covered(buckets, rows[i], keyOf)) <==> |GroupKeys(rows, keyOf)| <= limit
  {
    hide KeysFall;
    var keys := GroupKeys(rows, keyOf);
    assert forall j :: 0 <= j < |buckets| ==> buckets[j].key == keys[j];
    hide Holds;
    GroupKeysFall(rows, keyOf);
    if |keys| <= limit {
      forall i | 0 <= i < |rows|
        ensures Covered(buckets, rows[i], keyOf)
      {
        var j :| 0 <= j < |keys| && keys[j] == keyOf(rows[i]);
        assert buckets[j].key == keyOf(rows[i]);
      }
    } else {
      var i := RowOfKey(rows, keyOf, keys[limit]);
      assert !Covered(buckets, rows[i], keyOf);
    }
  }

  lemma RowOfKey(rows: seq<Row>, keyOf: Row -> int, key: int) returns (i: nat)
    requires key in GroupKeys(rows, keyOf)
    ensures i < |rows| && keyOf(rows[i]) == key
  {
    KeyHasRows(rows, keyOf, key);
    RowsWithMembers(rows, keyOf, key);
    var mine := RowsWith(rows, keyOf, key);
    assert mine[0] in rows;
    i :| 0 <= i < |rows| && rows[i] == mine[0];
  }

  /**
   * `readBucketed`, up to the order of the payload.  The buckets are the group-by
   * of the fetched rows cut to the newest `limit` keys, each with all its rows;
   * the rows read are exactly those in the buckets.
   */
  method ReadBucketed(window: seq<Row>, durationMs: nat, limit: nat) returns (r: Read)
    requires durationMs > 0 && NewestFirst(window)
    ensures Grouped(r.buckets, Fetched(window), Keying(durationMs))
    ensures |r.buckets| == Lesser(|GroupKeys(Fetched(window), Keying(durationMs))|, limit)
    ensures r.scanned + r.omitted == |window| && r.omitted >= 0
    ensures forall i :: 0 <= i < |Fetched(window)| ==>
              (i < r.scanned <==> Covered(r.buckets, Fetched(window)[i], Keying(durationMs)))
    ensures r.truncated <==> r.omitted > 0 || r.scanned == MAX_BUCKET_SCAN_ROWS
    ensures (r.truncated && r.omitted == 0) <==>
            |window| == MAX_BUCKET_SCAN_ROWS && |GroupKeys(window, Keying(durationMs))| <= limit
  {
    KeyingFalls(Fetched(window), durationMs);
    r := StreamRows(window, Keying(durationMs), limit);
    if |window| == MAX_BUCKET_SCAN_ROWS {
      AllCoveredIffFewKeys(r.buckets, window, Keying(durationMs), limit);
    }
  }

  lemma {:induction false} SameRowsOneKey(row: Row, keyOf: Row -> int, n: nat)
    requires n > 0
    ensures GroupKeys(seq(n, _ => row), keyOf) == [keyOf(row)]
  {
    var rows := seq(n, _ => row);
    assert rows[..n - 1] == seq(n - 1, _ => row);
    if n > 1 {
      SameRowsOneKey(row, keyOf, n - 1);
    } else {
      assert GroupKeys(rows[..0], keyOf) == [] && [] + [keyOf(row)] == [keyOf(row)];
    }
  }

  /** An input that meets the condition of such a report, for any width and limit: a cap's worth of rows in one bucket. */
  lemma FullScanInOneBucket(row: Row, durationMs: nat, limit: nat) returns (window: seq<Row>)
    requires durationMs > 0 && limit > 0
    ensures NewestFirst(window) && |window| == MAX_BUCKET_SCAN_ROWS && |GroupKeys(window, Keying(durationMs))| <= limit
  {
    window := seq(MAX_BUCKET_SCAN_ROWS, _ => row);
    SameRowsOneKey(row, Keying(durationMs), MAX_BUCKET_SCAN_ROWS);
  }

  /** The loop, for any keys that fall. */
  method StreamRows(window: seq<Row>, keyOf: Row -> int, limit: nat) returns (r: Read)
    requires KeysFall(Fetched(window), keyOf)
    ensures Grouped(r.buckets, Fetched(window), keyOf)
    ensures |r.buckets| == Lesser(|GroupKeys(Fetched(window), keyOf)|, limit)
    ensures r.scanned + r.omitted == |window| && r.omitted >= 0
    ensures forall i :: 0 <= i < |Fetched(window)| ==> (i < r.scanned <==> Covered(r.buckets, Fetched(window)[i], keyOf))
    ensures r.truncated <==> r.omitted > 0 || r.scanned == MAX_BUCKET_SCAN_ROWS
  {
    hide Holds, KeysFall, Covered;
    var rows := Fetched(window);
    var buckets: seq<Bucket> := [];
    var scanned := 0;
    var stoppedEarly := false;
    while scanned < |rows|
      invariant 0 <= scanned <= |rows| && (scanned < MAX_BUCKET_SCAN_ROWS || |rows| == 0)
      invariant Streamed(buckets, rows, scanned, keyOf) && |buckets| <= limit && !stoppedEarly
    {
      NextKey(rows, scanned, keyOf);
      BucketKeys(buckets, rows, scanned, keyOf);
      var key := keyOf(rows[scanned]);
      if (buckets == [] || buckets[|buckets| - 1].key != key) && |buckets| >= limit {
        stoppedEarly := true;
        break;
      }
      buckets := TakeRow(buckets, rows, scanned, keyOf);
      scanned := scanned + 1;
      if scanned >= MAX_BUCKET_SCAN_ROWS {
        stoppedEarly := true;
        break;
      }
    }
    StreamEnds(buckets, rows, scanned, keyOf);
    r := Read(buckets, scanned, |window| - scanned, stoppedEarly || |window| > scanned);
  }

  // ---- The payload ----

  /** The fields of a payload row that are averages or bucket data; `latest` supplies the others. */
  datatype OutRow = OutRow(
    latest: Row,
    activeVehicles: real,
    avgSpeed: real,
    avgRouteEfficiency: real,
    start: int,
    end: int,
    sampleCount: nat,
    firstTimestamp: int,
    fleets: seq<OutFleet>)

  /** A fleet of a finished row: its averages, and all else as of its newest sample. */
  datatype OutFleet = OutFleet(latest: Fleet, activeCount: real, avgSpeed: real, routeEfficiency: real)

  function FinalizedFleet(t: FleetTotal, round: real -> real): OutFleet
    requires t.samples > 0
  {
    var n := t.samples as real;
    OutFleet(t.latest, round(t.activeCount / n), round(t.avgSpeed / n), round(t.routeEfficiency / n))
  }

  /** `finalizeBucket`, for any rounding. */
  function Finalized(b: Bucket, durationMs: nat, round: real -> real): OutRow
    requires b.sampleCount > 0 && forall i :: 0 <= i < |b.fleets| ==> b.fleets[i].samples > 0
  {
    var n := b.sampleCount as real;
    OutRow(b.latest, round(b.activeVehicles / n), round(b.avgSpeed / n), round(b.avgRouteEfficiency / n),
           b.key, b.key + durationMs, b.sampleCount, b.oldestTimestamp,
           seq(|b.fleets|, i requires 0 <= i < |b.fleets| => FinalizedFleet(b.fleets[i], round)))
  }

  lemma {:induction false} RowsWithMembers(rows: seq<Row>, keyOf: Row -> int, key: int)
    ensures forall r :: r in RowsWith(rows, keyOf, key) ==> r in rows && keyOf(r) == key
  {
    if rows != [] {
      RowsWithMembers(rows[..|rows| - 1], keyOf, key);
    }
  }

  lemma FleetsHaveSamples(b: Bucket, key: int, rows: seq<Row>)
    requires Holds(b, key, rows)
    ensures |b.fleets| == |FleetIds(AllFleets(rows))|
    ensures forall i :: 0 <= i < |b.fleets| ==>
              b.fleets[i].samples > 0 && Totals(b.fleets[i], AllFleets(rows), FleetIds(AllFleets(rows))[i])
  {
  }

  // ---- What a finished row says ----

  /** The mean of what the rows have; a row without the value counts as zero. */
  ghost predicate IsMean<T>(mean: real, xs: seq<T>, value: T -> Option<real>) {
    xs != [] && mean * |xs| as real == TotalOfAll(xs, value)
  }

  ghost function TotalOfAll<T>(xs: seq<T>, value: T -> Option<real>): real {
    if xs == [] then 0.0
    else (match value(xs[0]) case Some(v) => v case None => 0.0) + TotalOfAll(xs[1..], value)
  }

  lemma {:induction false} TotalOneMore<T>(xs: seq<T>, x: T, value: T -> Option<real>)
    ensures TotalOfAll(xs + [x], value) == TotalOfAll(xs, value) + match value(x) case Some(v) => v case None => 0.0
  {
    if xs == [] {
      assert xs + [x] == [x] && [x][1..] == [];
    } else {
      TotalOneMore(xs[1..], x, value);
      assert (xs + [x])[1..] == xs[1..] + [x];
    }
  }

  lemma {:induction false} SumIsTotal<T>(xs: seq<T>, f: T -> real, value: T -> Option<real>)
    requires forall x: T :: x in xs ==> f(x) == OrZero(value(x))
    ensures Sum(xs, f) == TotalOfAll(xs, value)
  {
    if xs != [] {
      var front, last := xs[..|xs| - 1], xs[|xs| - 1];
      assert xs == front + [last];
      SumIsTotal(front, f, value);
      TotalOneMore(front, last, value);
    }
  }

  /** A sum over the number of summands is their mean. */
  lemma {:induction false} MeanIs<T>(xs: seq<T>, f: T -> real, value: T -> Option<real>) returns (mean: real)
    requires xs != [] && forall x: T :: x in xs ==> f(x) == OrZero(value(x))
    ensures mean == Sum(xs, f) / |xs| as real && IsMean(mean, xs, value)
  {
    SumIsTotal(xs, f, value);
    mean := Sum(xs, f) / |xs| as real;
  }

  /** A finished row: of all the bucket's rows the means, and all else as of the newest. */
  lemma {:induction false} RowIsMeans(b: Bucket, key: int, rows: seq<Row>, durationMs: nat, round: real -> real)
      returns (active: real, speed: real, efficiency: real)
    requires Holds(b, key, rows)
    ensures b.sampleCount > 0 && forall i :: 0 <= i < |b.fleets| ==> b.fleets[i].samples > 0
    ensures IsMean(active, rows, (r: Row) => r.activeVehicles) && IsMean(speed, rows, (r: Row) => r.avgSpeed)
    ensures IsMean(efficiency, rows, (r: Row) => r.avgRouteEfficiency)
    ensures var out := Finalized(b, durationMs, round);
            && out.latest == rows[0] && out.sampleCount == |rows| && out.firstTimestamp == rows[|rows| - 1].timestamp
            && out.start == key && out.end == key + durationMs && |out.fleets| == |FleetIds(AllFleets(rows))|
            && out.activeVehicles == round(active) && out.avgSpeed == round(speed) && out.avgRouteEfficiency == round(efficiency)
  {
    FleetsHaveSamples(b, key, rows);
    hide IsMean, Sum, TotalsOf, AllFleets, FleetIds;
    active := MeanIs(rows, RowActive, (r: Row) => r.activeVehicles);
    speed := MeanIs(rows, RowSpeed, (r: Row) => r.avgSpeed);
    efficiency := MeanIs(rows, RowEfficiency, (r: Row) => r.avgRouteEfficiency);
  }

  /** Likewise of each fleet, over all its samples in those rows, in the order fleets come. */
  lemma {:induction false} FleetIsMeans(b: Bucket, key: int, rows: seq<Row>, durationMs: nat, round: real -> real, i: nat)
      returns (active: real, speed: real, efficiency: real)
    requires Holds(b, key, rows) && i < |b.fleets|
    ensures b.sampleCount > 0 && forall k :: 0 <= k < |b.fleets| ==> b.fleets[k].samples > 0
    ensures |b.fleets| == |FleetIds(AllFleets(rows))|
    ensures var mine := SamplesOf(AllFleets(rows), FleetIds(AllFleets(rows))[i]);
            && IsMean(active, mine, (f: Fleet) => f.activeCount) && IsMean(speed, mine, (f: Fleet) => f.avgSpeed)
            && IsMean(efficiency, mine, (f: Fleet) => f.routeEfficiency)
            && var out := Finalized(b, durationMs, round).fleets[i];
               out.latest == mine[0] && out.activeCount == round(active) && out.avgSpeed == round(speed)
               && out.routeEfficiency == round(efficiency)
  {
    FleetsHaveSamples(b, key, rows);
    hide IsMean, Sum, TotalsOf, AllFleets, FleetIds, SamplesOf;
    var mine := SamplesOf(AllFleets(rows), FleetIds(AllFleets(rows))[i]);
    assert Totals(b.fleets[i], AllFleets(rows), FleetIds(AllFleets(rows))[i]);
    active := MeanIs(mine, FleetActive, (f: Fleet) => f.activeCount);
    speed := MeanIs(mine, FleetSpeed, (f: Fleet) => f.avgSpeed);
    efficiency := MeanIs(mine, FleetEfficiency, (f: Fleet) => f.routeEfficiency);
  }

  /** A bucket's time span holds its newest and its oldest sample. */
  lemma SpanHoldsSamples(b: Bucket, rows: seq<Row>, durationMs: nat, key: int, round: real -> real)
    requires durationMs > 0 && Holds(b, key, RowsWith(rows, Keying(durationMs), key))
    ensures b.sampleCount > 0 && forall i :: 0 <= i < |b.fleets| ==> b.fleets[i].samples > 0
    ensures var out := Finalized(b, durationMs, round);
            out.start <= out.firstTimestamp < out.end && out.start <= out.latest.timestamp < out.end
  {
    var mine := RowsWith(rows, Keying(durationMs), key);
    FleetsHaveSamples(b, key, mine);
    RowsWithMembers(rows, Keying(durationMs), key);
    assert mine[0] in mine && mine[|mine| - 1] in mine;
    var p := BucketSpan(mine[0], durationMs);
    var q := BucketSpan(mine[|mine| - 1], durationMs);
  }

  // ---- Automatic bucket width ----

  const DAY_MS: nat := 86_400_000

  const AUTO_BUCKET_LADDER_MS: seq<nat> := [
    1_000, 5_000, 10_000, 30_000, 60_000, 300_000, 900_000, 1_800_000, 3_600_000, 10_800_000,
    21_600_000, 43_200_000, 86_400_000]

  /** The bucket count to aim for is at least one. */
  function AtLeastOne(targetBuckets: int): nat {
    if targetBuckets > 1 then targetBuckets else 1
  }

  /** `pickAutoBucket`: the first width of the ladder that fits the span into the buckets, or the last. */
  method PickAutoBucket(spanMs: nat, targetBuckets: int) returns (width: nat)
    ensures width in AUTO_BUCKET_LADDER_MS && width > 0
    ensures width * AtLeastOne(targetBuckets) >= spanMs || width == DAY_MS
    ensures forall w :: w in AUTO_BUCKET_LADDER_MS && w < width ==> w * AtLeastOne(targetBuckets) < spanMs
  {
    var n := AtLeastOne(targetBuckets);
    var i := 0;
    while i < |AUTO_BUCKET_LADDER_MS|
      invariant 0 <= i <= |AUTO_BUCKET_LADDER_MS|
      invariant forall k :: 0 <= k < i ==> AUTO_BUCKET_LADDER_MS[k] * n < spanMs
    {
      Widths(AUTO_BUCKET_LADDER_MS[i], spanMs, n);
      if AUTO_BUCKET_LADDER_MS[i] as real >= spanMs as real / n as real {
        return AUTO_BUCKET_LADDER_MS[i];
      }
      i := i + 1;
    }
    return AUTO_BUCKET_LADDER_MS[|AUTO_BUCKET_LADDER_MS| - 1];
  }

  lemma Widths(w: nat, spanMs: nat, n: nat)
    requires n > 0
    ensures w as real >= spanMs as real / n as real <==> w * n >= spanMs
  {
    var ideal := spanMs as real / n as real;
    assert ideal * n as real == spanMs as real;
    assert (w * n) as real == w as real * n as real;
    if w as real >= ideal {
      assert w as real * n as real >= ideal * n as real;
    } else {
      assert w as real * n as real < ideal * n as real;
    }
  }

  lemma {:induction false} KeyIsMultiple(rows: seq<Row>, durationMs: nat, key: int) returns (q: int)
    requires durationMs > 0 && key in GroupKeys(rows, Keying(durationMs))
    ensures key == q * durationMs
  {
    var front, last := rows[..|rows| - 1], rows[|rows| - 1];
    if key in GroupKeys(front, Keying(durationMs)) {
      q := KeyIsMultiple(front, durationMs, key);
    } else {
      q := BucketSpan(last, durationMs);
    }
  }

  /** Keys are multiples of the width, so `n` of them span at least `n - 1` widths. */
  lemma {:induction false} KeysAreApart(rows: seq<Row>, durationMs: nat, n: nat)
    requires durationMs > 0 && KeysFall(rows, Keying(durationMs)) && 0 < n <= |GroupKeys(rows, Keying(durationMs))|
    ensures var keys := GroupKeys(rows, Keying(durationMs)); keys[0] - keys[n - 1] >= (n - 1) * durationMs
  {
    if n > 1 {
      KeysAreApart(rows, durationMs, n - 1);
      GroupKeysFall(rows, Keying(durationMs));
      var keys := GroupKeys(rows, Keying(durationMs));
      var p := KeyIsMultiple(rows, durationMs, keys[n - 2]);
      var q := KeyIsMultiple(rows, durationMs, keys[n - 1]);
      MultiplesApart(p, q, durationMs);
      assert (n - 1) * durationMs == (n - 2) * durationMs + durationMs;
    }
  }

  lemma FirstKey(rows: seq<Row>, keyOf: Row -> int)
    requires rows != []
    ensures GroupKeys(rows, keyOf) != [] && GroupKeys(rows, keyOf)[0] == keyOf(rows[0])
  {
    KeysOfPrefix(rows, keyOf, 1);
    assert rows[..1][..0] == [];
    assert GroupKeys(rows[..1], keyOf) == [keyOf(rows[0])];
  }

  lemma TooManyKeys(n: nat, limit: nat, width: nat, span: int)
    requires (n - 1) * width < span + width && span <= width * limit && width > 0
    ensures n <= limit + 1
  {
    assert (limit + 1) * width == width * limit + width;
    assert n > limit + 1 ==> (n - 1) * width >= (limit + 1) * width;
  }

  /** With an automatic width and at most `limit` days to cover, at most one bucket is dropped. */
  lemma AutoDropsAtMostOne(rows: seq<Row>, width: nat, limit: nat)
    requires width > 0 && limit > 0 && NewestFirst(rows) && rows != []
    requires var span := rows[0].timestamp - rows[|rows| - 1].timestamp;
             span <= limit * DAY_MS && (width * limit >= span || width == DAY_MS)
    ensures |GroupKeys(rows, Keying(width))| <= limit + 1
  {
    KeyingFalls(rows, width);
    GroupKeysFall(rows, Keying(width));
    FirstKey(rows, Keying(width));
    var keys := GroupKeys(rows, Keying(width));
    KeysAreApart(rows, width, |keys|);
    var p := BucketSpan(rows[0], width);
    var q := BucketSpan(rows[|rows| - 1], width);
    TooManyKeys(|keys|, limit, width, rows[0].timestamp - rows[|rows| - 1].timestamp);
  }

  /** The span the automatic width is picked for; without data, as many minutes as buckets. */
  function AutoSpanMs(window: seq<Row>, limit: nat): nat
    requires NewestFirst(window)
  {
    if window == [] then 60_000 * limit
    else
      var span := window[0].timestamp - window[|window| - 1].timestamp;
      if span > 1 then span else 1
  }

  lemma AutoFits(window: seq<Row>, width: nat, limit: nat)
    requires width > 0 && limit > 0 && NewestFirst(window)
    requires AutoSpanMs(window, limit) <= limit * DAY_MS
    requires width * limit >= AutoSpanMs(window, limit) || width == DAY_MS
    ensures |GroupKeys(Fetched(window), Keying(width))| <= limit + 1
  {
    var rows := Fetched(window);
    if window != [] {
      assert rows[0] == window[0] && rows[|rows| - 1].timestamp >= window[|window| - 1].timestamp;
      AutoDropsAtMostOne(rows, width, limit);
    }
  }

  /** Without data it is a minute; otherwise the smallest that covers all rows in `limit` buckets, or a day. */
  ghost predicate RightWidth(width: nat, window: seq<Row>, limit: nat) {
    if window == [] then width == 60_000
    else
      var span := window[0].timestamp - window[|window| - 1].timestamp;
      && (width * limit >= span || width == DAY_MS)
      && forall w :: w in AUTO_BUCKET_LADDER_MS && w < width ==> w * limit < span || w * limit < 1
  }

  lemma AutoIsRight(window: seq<Row>, limit: nat, width: nat)
    requires limit > 0 && NewestFirst(window) && width in AUTO_BUCKET_LADDER_MS
    requires width * limit >= AutoSpanMs(window, limit) || width == DAY_MS
    requires forall w :: w in AUTO_BUCKET_LADDER_MS && w < width ==> w * limit < AutoSpanMs(window, limit)
    ensures RightWidth(width, window, limit)
  {
    if window == [] {
      assert AUTO_BUCKET_LADDER_MS[4] == 60_000 && 60_000 in AUTO_BUCKET_LADDER_MS;
      if width < 60_000 {
        FewerTimes(width, 60_000, limit);
      }
    }
  }

  lemma FewerTimes(p: nat, q: nat, n: nat)
    requires p < q && n > 0
    ensures p * n < q * n
  {
    DifferenceTimes(q, p, n);
    assert (q - p) * n > 0;
  }

  /** `readBucketed` with `bucket=auto`: over at most `limit` days at most one bucket is dropped. */
  method ReadAuto(window: seq<Row>, limit: nat) returns (durationMs: nat, r: Read)
    requires limit > 0 && NewestFirst(window)
    ensures durationMs in AUTO_BUCKET_LADDER_MS && RightWidth(durationMs, window, limit)
    ensures Grouped(r.buckets, Fetched(window), Keying(durationMs))
    ensures |r.buckets| == Lesser(|GroupKeys(Fetched(window), Keying(durationMs))|, limit)
    ensures AutoSpanMs(window, limit) <= limit * DAY_MS ==>
              |GroupKeys(Fetched(window), Keying(durationMs))| <= |r.buckets| + 1
  {
    hide GroupKeys, Grouped, NewestFirst, AutoSpanMs, Fetched, RightWidth;
    durationMs := PickAutoBucket(AutoSpanMs(window, limit), limit);
    AutoIsRight(window, limit, durationMs);
    r := ReadBucketed(window, durationMs, limit);
    if AutoSpanMs(window, limit) <= limit * DAY_MS {
      AutoFits(window, durationMs, limit);
    }
  }
}
