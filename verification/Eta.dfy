/**
 * Route pricing (eta.ts:121-225): per-edge seconds, the suffix sums that make a
 * live ETA one lookup, and what the lookup means.
 */
module Eta {
  import opened Common

  datatype Edge = Edge(id: string, distance: real, freeFlowSpeed: Option<real>, maxSpeed: real, nodeDelayH: Option<real>)

  /** What pricing asks of the network and the vehicle profile. */
  datatype PricingInputs = PricingInputs(
    learnedSpeedKmh: Edge -> Option<real>,
    turnCostHours: (Edge, Edge) -> real,
    weatherFactor: real,
    profileMaxSpeed: real)

  const MIN_PRICED_SPEED_KMH: real := 1.0

  datatype Breakdown = Breakdown(
    drivingSeconds: real,
    nodeDelaySeconds: real,
    turnSeconds: real,
    weatherFactor: real,
    learnedDistanceShare: real)

  datatype RoutePricing = RoutePricing(
    perEdgeSeconds: seq<real>,
    perEdgeDrivingSeconds: seq<real>,
    suffixSeconds: seq<real>,
    totalSeconds: real,
    perEdgeKm: seq<real>,
    suffixKm: seq<real>,
    breakdown: Breakdown,
    pricedAtWeatherFactor: real)

  function OrElse(x: Option<real>, y: real): real { if x.Some? then x.value else y }

  // ---- The price of an edge ----

  function PricedSpeed(e: Edge, inputs: PricingInputs): (speed: real)
    ensures speed >= MIN_PRICED_SPEED_KMH
  {
    var base := OrElse(inputs.learnedSpeedKmh(e), OrElse(e.freeFlowSpeed, e.maxSpeed));
    Max(Min(inputs.profileMaxSpeed, base) * inputs.weatherFactor, MIN_PRICED_SPEED_KMH)
  }

  function DrivingSeconds(e: Edge, inputs: PricingInputs): real {
    e.distance / PricedSpeed(e, inputs) * 3600.0
  }

  function DelaySeconds(e: Edge): real {
    OrElse(e.nodeDelayH, 0.0) * 3600.0
  }

  /** The edge driven before edge `i`: its predecessor, or the edge the vehicle arrives on. */
  function Previous(edges: seq<Edge>, arrival: Option<Edge>, i: nat): Option<Edge>
    requires i < |edges|
  {
    if i == 0 then arrival else Some(edges[i - 1])
  }

  function TurnSeconds(previous: Option<Edge>, e: Edge, inputs: PricingInputs): real {
    if previous.Some? then inputs.turnCostHours(previous.value, e) * 3600.0 else 0.0
  }

  function EdgeSeconds(edges: seq<Edge>, inputs: PricingInputs, arrival: Option<Edge>, i: nat): real
    requires i < |edges|
  {
    DrivingSeconds(edges[i], inputs) + DelaySeconds(edges[i]) + TurnSeconds(Previous(edges, arrival, i), edges[i], inputs)
  }

  /** The route walked edge by edge from the start of edge `i`. */
  function WalkSeconds(edges: seq<Edge>, inputs: PricingInputs, arrival: Option<Edge>, i: nat): real
    requires i <= |edges|
    decreases |edges| - i
  {
    if i == |edges| then 0.0 else EdgeSeconds(edges, inputs, arrival, i) + WalkSeconds(edges, inputs, arrival, i + 1)
  }

  function WalkKm(edges: seq<Edge>, i: nat): real
    requires i <= |edges|
    decreases |edges| - i
  {
    if i == |edges| then 0.0 else edges[i].distance + WalkKm(edges, i + 1)
  }

  /** The kilometres of the first `i` edges whose speed is learned. */
  function LearnedKm(edges: seq<Edge>, inputs: PricingInputs, i: nat): real
    requires i <= |edges|
  {
    if i == 0 then 0.0
    else LearnedKm(edges, inputs, i - 1) + if inputs.learnedSpeedKmh(edges[i - 1]).Some? then edges[i - 1].distance else 0.0
  }

  /** A pricing tells what the walk tells, in every suffix. */
  ghost predicate Prices(p: RoutePricing, edges: seq<Edge>, inputs: PricingInputs, arrival: Option<Edge>) {
    && |p.perEdgeSeconds| == |p.perEdgeDrivingSeconds| == |p.perEdgeKm| == |edges|
    && |p.suffixSeconds| == |p.suffixKm| == |edges| + 1
    && (forall i :: 0 <= i < |edges| ==> p.perEdgeSeconds[i] == EdgeSeconds(edges, inputs, arrival, i))
    && (forall i :: 0 <= i < |edges| ==> p.perEdgeDrivingSeconds[i] == DrivingSeconds(edges[i], inputs))
    && (forall i :: 0 <= i < |edges| ==> p.perEdgeKm[i] == edges[i].distance)
    && (forall i :: 0 <= i <= |edges| ==> p.suffixSeconds[i] == WalkSeconds(edges, inputs, arrival, i))
    && (forall i :: 0 <= i <= |edges| ==> p.suffixKm[i] == WalkKm(edges, i))
    && p.totalSeconds == WalkSeconds(edges, inputs, arrival, 0)
  }

  /** The sums of the first loop: what is priced so far, with what is left to walk, is the whole. */
  ghost predicate SumsSoFar(edges: seq<Edge>, inputs: PricingInputs, arrival: Option<Edge>, i: nat, seconds: real, km: real)
    requires i <= |edges|
  {
    && seconds + WalkSeconds(edges, inputs, arrival, i) == WalkSeconds(edges, inputs, arrival, 0)
    && km + WalkKm(edges, i) == WalkKm(edges, 0)
  }

  /** Over the first `i` edges: the driving, the waits, and the turns, each on its own. */
  ghost function DrivingTo(edges: seq<Edge>, inputs: PricingInputs, i: nat): real
    requires i <= |edges|
  {
    if i == 0 then 0.0 else DrivingTo(edges, inputs, i - 1) + DrivingSeconds(edges[i - 1], inputs)
  }

  ghost function DelayTo(edges: seq<Edge>, i: nat): real
    requires i <= |edges|
  {
    if i == 0 then 0.0 else DelayTo(edges, i - 1) + DelaySeconds(edges[i - 1])
  }

  ghost function TurnsTo(edges: seq<Edge>, inputs: PricingInputs, arrival: Option<Edge>, i: nat): real
    requires i <= |edges|
  {
    if i == 0 then 0.0
    else TurnsTo(edges, inputs, arrival, i - 1) + TurnSeconds(Previous(edges, arrival, i - 1), edges[i - 1], inputs)
  }

  lemma NothingPriced(edges: seq<Edge>, inputs: PricingInputs, arrival: Option<Edge>)
    ensures SumsSoFar(edges, inputs, arrival, 0, 0.0, 0.0) && LearnedKm(edges, inputs, 0) == 0.0
    ensures DrivingTo(edges, inputs, 0) == 0.0 && DelayTo(edges, 0) == 0.0 && TurnsTo(edges, inputs, arrival, 0) == 0.0
  {
  }

  lemma {:induction false} OneMorePriced(edges: seq<Edge>, inputs: PricingInputs, arrival: Option<Edge>, i: nat,
                                         seconds: real, km: real)
    requires i < |edges| && SumsSoFar(edges, inputs, arrival, i, seconds, km)
    ensures SumsSoFar(edges, inputs, arrival, i + 1, seconds + EdgeSeconds(edges, inputs, arrival, i), km + edges[i].distance)
    ensures LearnedKm(edges, inputs, i + 1) ==
            LearnedKm(edges, inputs, i) + if inputs.learnedSpeedKmh(edges[i]).Some? then edges[i].distance else 0.0
    ensures DrivingTo(edges, inputs, i + 1) == DrivingTo(edges, inputs, i) + DrivingSeconds(edges[i], inputs)
    ensures DelayTo(edges, i + 1) == DelayTo(edges, i) + DelaySeconds(edges[i])
    ensures TurnsTo(edges, inputs, arrival, i + 1) ==
            TurnsTo(edges, inputs, arrival, i) + TurnSeconds(Previous(edges, arrival, i), edges[i], inputs)
  {
    hide DrivingSeconds, DelaySeconds, TurnSeconds, EdgeSeconds;
  }

  lemma AllPriced(edges: seq<Edge>, inputs: PricingInputs, arrival: Option<Edge>, seconds: real, km: real)
    requires SumsSoFar(edges, inputs, arrival, |edges|, seconds, km)
    ensures seconds == WalkSeconds(edges, inputs, arrival, 0) && km == WalkKm(edges, 0)
  {
  }

  /** The first loop of `priceRoute`: the per-edge arrays and the running sums. */
  method PriceEdges(edges: seq<Edge>, inputs: PricingInputs, arrival: Option<Edge>)
    returns (perEdgeSeconds: seq<real>, perEdgeDrivingSeconds: seq<real>, perEdgeKm: seq<real>,
             drivingSeconds: real, nodeDelaySeconds: real, turnSeconds: real, learnedKm: real, totalKm: real)
    ensures |perEdgeSeconds| == |perEdgeDrivingSeconds| == |perEdgeKm| == |edges|
    ensures forall i :: 0 <= i < |edges| ==> perEdgeSeconds[i] == EdgeSeconds(edges, inputs, arrival, i)
    ensures forall i :: 0 <= i < |edges| ==> perEdgeDrivingSeconds[i] == DrivingSeconds(edges[i], inputs)
    ensures forall i :: 0 <= i < |edges| ==> perEdgeKm[i] == edges[i].distance
    ensures drivingSeconds + nodeDelaySeconds + turnSeconds == WalkSeconds(edges, inputs, arrival, 0)
    ensures drivingSeconds == DrivingTo(edges, inputs, |edges|) && nodeDelaySeconds == DelayTo(edges, |edges|)
    ensures turnSeconds == TurnsTo(edges, inputs, arrival, |edges|)
    ensures totalKm == WalkKm(edges, 0) && learnedKm == LearnedKm(edges, inputs, |edges|)
  {
    NothingPriced(edges, inputs, arrival);
    hide DrivingSeconds, DelaySeconds, TurnSeconds, WalkSeconds, WalkKm, LearnedKm, DrivingTo, DelayTo, TurnsTo, SumsSoFar;
    var n := |edges|;
    var perEdge, driving, km := new real[n], new real[n], new real[n];
    drivingSeconds, nodeDelaySeconds, turnSeconds, learnedKm, totalKm := 0.0, 0.0, 0.0, 0.0, 0.0;
    var previous := arrival;
    var i := 0;
    while i < n
      invariant 0 <= i <= n
      invariant i < n ==> previous == Previous(edges, arrival, i)
      invariant forall k :: 0 <= k < i ==> perEdge[k] == EdgeSeconds(edges, inputs, arrival, k)
      invariant forall k :: 0 <= k < i ==> driving[k] == DrivingSeconds(edges[k], inputs)
      invariant forall k :: 0 <= k < i ==> km[k] == edges[k].distance
      invariant SumsSoFar(edges, inputs, arrival, i, drivingSeconds + nodeDelaySeconds + turnSeconds, totalKm)
      invariant learnedKm == LearnedKm(edges, inputs, i)
      invariant drivingSeconds == DrivingTo(edges, inputs, i) && nodeDelaySeconds == DelayTo(edges, i)
      invariant turnSeconds == TurnsTo(edges, inputs, arrival, i)
    {
      var edge := edges[i];
      OneMorePriced(edges, inputs, arrival, i, drivingSeconds + nodeDelaySeconds + turnSeconds, totalKm);
      var d, nodeDelay, turn := DrivingSeconds(edge, inputs), DelaySeconds(edge), TurnSeconds(previous, edge, inputs);
      perEdge[i], driving[i], km[i] := d + nodeDelay + turn, d, edge.distance;
      drivingSeconds, nodeDelaySeconds, turnSeconds := drivingSeconds + d, nodeDelaySeconds + nodeDelay, turnSeconds + turn;
      totalKm := totalKm + edge.distance;
      if inputs.learnedSpeedKmh(edge).Some? {
        learnedKm := learnedKm + edge.distance;
      }
      previous := Some(edge);
      i := i + 1;
    }
    AllPriced(edges, inputs, arrival, drivingSeconds + nodeDelaySeconds + turnSeconds, totalKm);
    perEdgeSeconds, perEdgeDrivingSeconds, perEdgeKm := perEdge[..], driving[..], km[..];
  }

  // ---- What a pricing says of the roads ----

  /**
   * The speed an edge is priced at, with a weather factor that is not negative:
   * neither the vehicle's own cap nor what is known of the road is exceeded in
   * this weather, and one of them is driven; but nobody is slower than 1 km/h.
   * A learned speed goes before a free-flow speed, and that before a posted one.
   */
  predicate SpeedFits(v: real, e: Edge, inputs: PricingInputs) {
    var road := match inputs.learnedSpeedKmh(e)
      case Some(learned) => learned
      case None => if e.freeFlowSpeed.Some? then e.freeFlowSpeed.value else e.maxSpeed;
    var own, known := Max(1.0, inputs.profileMaxSpeed * inputs.weatherFactor), Max(1.0, road * inputs.weatherFactor);
    v >= 1.0 && (inputs.weatherFactor >= 0.0 ==> v <= own && v <= known && (v == own || v == known))
  }

  /** Driven at such a speed, the time is that of the distance. */
  ghost predicate TimeFits(seconds: real, e: Edge, inputs: PricingInputs) {
    exists v: real :: SpeedFits(v, e, inputs) && seconds * v == e.distance * 3600.0
  }

  /** Hours lost besides driving: the wait at the edge's end and the turn onto it, from the edge before or the one arrived on. */
  function HoursBesides(edges: seq<Edge>, inputs: PricingInputs, arrival: Option<Edge>, i: nat): real
    requires i < |edges|
  {
    (if edges[i].nodeDelayH.Some? then edges[i].nodeDelayH.value else 0.0)
    + if i > 0 then inputs.turnCostHours(edges[i - 1], edges[i])
      else if arrival.Some? then inputs.turnCostHours(arrival.value, edges[0])
      else 0.0
  }

  /** Each edge's times are those of the road, and the suffixes add them up. */
  ghost predicate TellsRoads(p: RoutePricing, edges: seq<Edge>, inputs: PricingInputs, arrival: Option<Edge>) {
    && |p.perEdgeSeconds| == |p.perEdgeDrivingSeconds| == |p.perEdgeKm| == |edges|
    && |p.suffixSeconds| == |p.suffixKm| == |edges| + 1
    && p.suffixSeconds[|edges|] == 0.0 && p.suffixKm[|edges|] == 0.0 && p.totalSeconds == p.suffixSeconds[0]
    && forall i :: 0 <= i < |edges| ==>
         && TimeFits(p.perEdgeDrivingSeconds[i], edges[i], inputs)
         && p.perEdgeSeconds[i] == p.perEdgeDrivingSeconds[i] + HoursBesides(edges, inputs, arrival, i) * 3600.0
         && p.perEdgeKm[i] == edges[i].distance
         && p.suffixSeconds[i] == p.perEdgeSeconds[i] + p.suffixSeconds[i + 1]
         && p.suffixKm[i] == p.perEdgeKm[i] + p.suffixKm[i + 1]
  }

  lemma LesserScaled(a: real, b: real, w: real)
    requires w >= 0.0
    ensures Min(a, b) * w == Min(a * w, b * w)
  {
    if a <= b {
      assert (b - a) * w >= 0.0;
    } else {
      assert (a - b) * w >= 0.0;
    }
  }

  lemma DrivingTimeFits(e: Edge, inputs: PricingInputs)
    ensures TimeFits(DrivingSeconds(e, inputs), e, inputs)
  {
    var v := PricedSpeed(e, inputs);
    var road := OrElse(inputs.learnedSpeedKmh(e), OrElse(e.freeFlowSpeed, e.maxSpeed));
    if inputs.weatherFactor >= 0.0 {
      LesserScaled(inputs.profileMaxSpeed, road, inputs.weatherFactor);
    }
    assert SpeedFits(v, e, inputs);
    var hours := e.distance / v;
    assert hours * v == e.distance;
    assert (hours * 3600.0) * v == (hours * v) * 3600.0;
  }

  lemma PricesTellRoads(p: RoutePricing, edges: seq<Edge>, inputs: PricingInputs, arrival: Option<Edge>)
    requires Prices(p, edges, inputs, arrival)
    ensures TellsRoads(p, edges, inputs, arrival)
  {
    forall i | 0 <= i < |edges|
      ensures TimeFits(p.perEdgeDrivingSeconds[i], edges[i], inputs)
    {
      DrivingTimeFits(edges[i], inputs);
    }
    hide DrivingSeconds, TimeFits;
  }

  method PriceRoute(edges: seq<Edge>, inputs: PricingInputs, arrival: Option<Edge>) returns (p: RoutePricing)
    ensures Prices(p, edges, inputs, arrival) && TellsRoads(p, edges, inputs, arrival)
    ensures p.breakdown.drivingSeconds + p.breakdown.nodeDelaySeconds + p.breakdown.turnSeconds == p.totalSeconds
    ensures p.breakdown.drivingSeconds == DrivingTo(edges, inputs, |edges|)
    ensures p.breakdown.nodeDelaySeconds == DelayTo(edges, |edges|)
    ensures p.breakdown.turnSeconds == TurnsTo(edges, inputs, arrival, |edges|)
    ensures p.breakdown.weatherFactor == p.pricedAtWeatherFactor == if edges == [] then 1.0 else inputs.weatherFactor
    ensures WalkKm(edges, 0) > 0.0 ==>
              p.breakdown.learnedDistanceShare == LearnedKm(edges, inputs, |edges|) / WalkKm(edges, 0)
    ensures WalkKm(edges, 0) <= 0.0 ==> p.breakdown.learnedDistanceShare == 0.0
  {
    if edges == [] {
      return RoutePricing([], [], [0.0], 0.0, [], [0.0], Breakdown(0.0, 0.0, 0.0, 1.0, 0.0), 1.0);
    }
    var perEdge, driving, km, drivingSeconds, nodeDelaySeconds, turnSeconds, learnedKm, totalKm :=
      PriceEdges(edges, inputs, arrival);
    var suffixSeconds := SuffixSums(perEdge);
    var suffixKm := SuffixSums(km);
    SumsAreWalks(edges, inputs, arrival, perEdge, km);
    p := RoutePricing(perEdge, driving, suffixSeconds, suffixSeconds[0], km, suffixKm,
                      Breakdown(drivingSeconds, nodeDelaySeconds, turnSeconds, inputs.weatherFactor,
                                if totalKm > 0.0 then learnedKm / totalKm else 0.0),
                      inputs.weatherFactor);
    PricesTellRoads(p, edges, inputs, arrival);
  }

  /** Built back to front: entry `i` is everything from `i` on. */
  function SumFrom(xs: seq<real>, i: nat): real
    requires i <= |xs|
    decreases |xs| - i
  {
    if i == |xs| then 0.0 else SumFrom(xs, i + 1) + xs[i]
  }

  method SuffixSums(xs: seq<real>) returns (sums: seq<real>)
    ensures |sums| == |xs| + 1
    ensures forall i :: 0 <= i <= |xs| ==> sums[i] == SumFrom(xs, i)
  {
    var a := new real[|xs| + 1];
    a[|xs|] := 0.0;
    var i := |xs|;
    while i > 0
      invariant 0 <= i <= |xs|
      invariant forall k :: i <= k <= |xs| ==> a[k] == SumFrom(xs, k)
    {
      i := i - 1;
      a[i] := a[i + 1] + xs[i];
    }
    sums := a[..];
  }

  lemma SumsAreWalks(edges: seq<Edge>, inputs: PricingInputs, arrival: Option<Edge>, perEdge: seq<real>, km: seq<real>)
    requires |perEdge| == |km| == |edges|
    requires forall i :: 0 <= i < |edges| ==> perEdge[i] == EdgeSeconds(edges, inputs, arrival, i) && km[i] == edges[i].distance
    ensures forall i :: 0 <= i <= |edges| ==> SumFrom(perEdge, i) == WalkSeconds(edges, inputs, arrival, i)
    ensures forall i :: 0 <= i <= |edges| ==> SumFrom(km, i) == WalkKm(edges, i)
  {
    forall i | 0 <= i <= |edges|
      ensures SumFrom(perEdge, i) == WalkSeconds(edges, inputs, arrival, i) && SumFrom(km, i) == WalkKm(edges, i)
    {
      SumIsWalk(edges, inputs, arrival, perEdge, km, i);
    }
  }

  lemma {:induction false} SumIsWalk(edges: seq<Edge>, inputs: PricingInputs, arrival: Option<Edge>,
                                     perEdge: seq<real>, km: seq<real>, i: nat)
    requires |perEdge| == |km| == |edges| && i <= |edges|
    requires forall i :: 0 <= i < |edges| ==> perEdge[i] == EdgeSeconds(edges, inputs, arrival, i) && km[i] == edges[i].distance
    ensures SumFrom(perEdge, i) == WalkSeconds(edges, inputs, arrival, i) && SumFrom(km, i) == WalkKm(edges, i)
    decreases |edges| - i
  {
    if i < |edges| {
      SumIsWalk(edges, inputs, arrival, perEdge, km, i + 1);
    }
  }

  // ---- The live readouts ----

  function Clamped(progress: real): real {
    Min(Max(progress, 0.0), 1.0)
  }

  /** The driven share of an edge's driving time or length. */
  function Covered(whole: real, progress: real): real {
    whole * Clamped(progress)
  }

  function RemainingEtaSeconds(p: RoutePricing, edgeIndex: int, progress: real): Option<real>
    requires |p.perEdgeSeconds| <= |p.perEdgeDrivingSeconds| && |p.perEdgeSeconds| <= |p.suffixSeconds|
  {
    if edgeIndex < 0 || edgeIndex >= |p.perEdgeSeconds| then None
    else Some(Max(p.suffixSeconds[edgeIndex] - Covered(p.perEdgeDrivingSeconds[edgeIndex], progress), 0.0))
  }

  function RemainingDistanceKm(p: RoutePricing, edgeIndex: int, progress: real): Option<real>
    requires |p.perEdgeKm| <= |p.suffixKm|
  {
    if edgeIndex < 0 || edgeIndex >= |p.perEdgeKm| then None
    else Some(Max(p.suffixKm[edgeIndex] - Covered(p.perEdgeKm[edgeIndex], progress), 0.0))
  }

  /** Distances, delays and turn costs are never negative. */
  ghost predicate NonNegative(edges: seq<Edge>, inputs: PricingInputs, arrival: Option<Edge>) {
    && (forall i :: 0 <= i < |edges| ==> edges[i].distance >= 0.0 && DelaySeconds(edges[i]) >= 0.0)
    && forall i :: 0 <= i < |edges| ==> TurnSeconds(Previous(edges, arrival, i), edges[i], inputs) >= 0.0
  }

  lemma DrivingIsNonNegative(e: Edge, inputs: PricingInputs)
    requires e.distance >= 0.0
    ensures DrivingSeconds(e, inputs) >= 0.0
  {
    assert e.distance / PricedSpeed(e, inputs) >= 0.0;
  }

  lemma {:induction false} WalkIsNonNegative(edges: seq<Edge>, inputs: PricingInputs, arrival: Option<Edge>, i: nat)
    requires NonNegative(edges, inputs, arrival) && i <= |edges|
    ensures WalkSeconds(edges, inputs, arrival, i) >= 0.0 && WalkKm(edges, i) >= 0.0
    decreases |edges| - i
  {
    if i < |edges| {
      WalkIsNonNegative(edges, inputs, arrival, i + 1);
      DrivingIsNonNegative(edges[i], inputs);
    }
  }

  lemma PartOf(x: real, t: real)
    requires x >= 0.0 && 0.0 <= t <= 1.0
    ensures 0.0 <= x * t <= x
  {
    assert x - x * t == x * (1.0 - t) >= 0.0;
  }

  // ---- The ETA never rises ----

  /** A place on the route: an edge index, or -1 before the first edge, and a progress. */
  datatype Place = Place(index: int, progress: real)

  predicate OnRoute(edges: seq<Edge>, at: Place) {
    -1 <= at.index < |edges| && 0.0 <= at.progress <= 1.0
  }

  /** `etaSecondsFor`, given the vehicle's index on the route. */
  function EtaAt(p: RoutePricing, at: Place): Option<real>
    requires |p.perEdgeSeconds| <= |p.perEdgeDrivingSeconds| && |p.perEdgeSeconds| <= |p.suffixSeconds|
  {
    if at.index < 0 then Some(p.totalSeconds) else RemainingEtaSeconds(p, at.index, at.progress)
  }

  predicate NotBehind(at: Place, was: Place) {
    was.index < at.index || (was.index == at.index && was.progress <= at.progress)
  }

  /** What keeps the ETA falling: suffix sums of per-edge times, each at least its driving time. */
  ghost predicate Sums(p: RoutePricing) {
    && |p.perEdgeSeconds| == |p.perEdgeDrivingSeconds| && |p.suffixSeconds| == |p.perEdgeSeconds| + 1
    && p.suffixSeconds[|p.perEdgeSeconds|] == 0.0 && p.totalSeconds == p.suffixSeconds[0]
    && (forall i :: 0 <= i < |p.perEdgeSeconds| ==> p.suffixSeconds[i] == p.suffixSeconds[i + 1] + p.perEdgeSeconds[i])
    && (forall i :: 0 <= i < |p.perEdgeSeconds| ==> 0.0 <= p.perEdgeDrivingSeconds[i] <= p.perEdgeSeconds[i])
  }

  lemma PricingSums(p: RoutePricing, edges: seq<Edge>, inputs: PricingInputs, arrival: Option<Edge>)
    requires Prices(p, edges, inputs, arrival) && NonNegative(edges, inputs, arrival)
    ensures Sums(p)
  {
    forall i | 0 <= i < |edges|
      ensures p.suffixSeconds[i] == p.suffixSeconds[i + 1] + p.perEdgeSeconds[i]
      ensures 0.0 <= p.perEdgeDrivingSeconds[i] <= p.perEdgeSeconds[i]
    {
      DrivingIsNonNegative(edges[i], inputs);
    }
  }

  lemma {:induction false} SuffixFalls(p: RoutePricing, i: nat, j: nat)
    requires Sums(p) && i <= j <= |p.perEdgeSeconds|
    ensures 0.0 <= p.suffixSeconds[j] <= p.suffixSeconds[i]
    decreases |p.perEdgeSeconds| - i
  {
    if i < j {
      SuffixFalls(p, i + 1, j);
    } else if i < |p.perEdgeSeconds| {
      SuffixFalls(p, i + 1, |p.perEdgeSeconds|);
      SuffixFalls(p, i + 1, i + 1);
    }
  }

  lemma Discounted(suffix: real, part: real, progress: real)
    requires 0.0 <= part <= suffix
    ensures Max(suffix - Covered(part, progress), 0.0) == suffix - Covered(part, progress)
  {
    if progress <= 0.0 {
      assert Covered(part, progress) == part * 0.0;
    } else if progress >= 1.0 {
      assert Covered(part, progress) == part * 1.0;
    } else {
      PartOf(part, progress);
      assert Covered(part, progress) == part * progress;
    }
  }

  /** Nothing of an edge is covered before it, all of it behind it, and on it the share driven. */
  lemma CoveredShare(whole: real, progress: real)
    ensures Covered(whole, progress) == whole * if progress < 0.0 then 0.0 else if progress > 1.0 then 1.0 else progress
  {
    assert Clamped(progress) == if progress < 0.0 then 0.0 else if progress > 1.0 then 1.0 else progress;
  }

  lemma EtaLookup(p: RoutePricing, i: nat, progress: real)
    requires Sums(p) && i < |p.perEdgeSeconds|
    ensures RemainingEtaSeconds(p, i, progress) == Some(p.suffixSeconds[i] - Covered(p.perEdgeDrivingSeconds[i], progress))
  {
    SuffixFalls(p, i + 1, |p.perEdgeSeconds|);
    Discounted(p.suffixSeconds[i], p.perEdgeDrivingSeconds[i], progress);
  }

  /**
   * The lookup is the walk: every edge from the current one on, priced in full,
   * less the share of the current edge's driving that is done.
   */
  lemma LookupIsWalk(p: RoutePricing, edges: seq<Edge>, inputs: PricingInputs, arrival: Option<Edge>, i: nat, progress: real)
    requires Prices(p, edges, inputs, arrival) && NonNegative(edges, inputs, arrival) && i < |edges|
    ensures p.perEdgeDrivingSeconds[i] == DrivingSeconds(edges[i], inputs)
    ensures RemainingEtaSeconds(p, i, progress) ==
            Some(WalkSeconds(edges, inputs, arrival, i) - Covered(p.perEdgeDrivingSeconds[i], progress))
  {
    hide Covered, RemainingEtaSeconds, EdgeSeconds, DrivingSeconds, WalkSeconds, Sums;
    PricingSums(p, edges, inputs, arrival);
    EtaLookup(p, i, progress);
  }

  lemma DistanceLookup(p: RoutePricing, i: nat, progress: real)
    requires i < |p.perEdgeKm| < |p.suffixKm| && 0.0 <= p.perEdgeKm[i] <= p.suffixKm[i]
    ensures RemainingDistanceKm(p, i, progress) == Some(p.suffixKm[i] - Covered(p.perEdgeKm[i], progress))
  {
    Discounted(p.suffixKm[i], p.perEdgeKm[i], progress);
  }

  lemma {:induction false} KmIsNonNegative(edges: seq<Edge>, i: nat)
    requires i <= |edges| && forall k :: 0 <= k < |edges| ==> edges[k].distance >= 0.0
    ensures WalkKm(edges, i) >= 0.0
    decreases |edges| - i
  {
    if i < |edges| {
      KmIsNonNegative(edges, i + 1);
    }
  }

  /** The distance readout is the walk as well. */
  lemma DistanceLookupIsWalk(p: RoutePricing, edges: seq<Edge>, inputs: PricingInputs, arrival: Option<Edge>,
                             i: nat, progress: real)
    requires Prices(p, edges, inputs, arrival) && i < |edges|
    requires forall k :: 0 <= k < |edges| ==> edges[k].distance >= 0.0
    ensures RemainingDistanceKm(p, i, progress) ==
            Some(WalkKm(edges, i) - Covered(edges[i].distance, progress))
  {
    hide Covered, RemainingDistanceKm, EdgeSeconds, DrivingSeconds, WalkSeconds;
    KmIsNonNegative(edges, i + 1);
    assert p.suffixKm[i] == WalkKm(edges, i) == edges[i].distance + WalkKm(edges, i + 1);
    DistanceLookup(p, i, progress);
  }

  lemma LessDriving(suffix: real, next: real, edge: real, driving: real, progress: real, later: real)
    requires suffix == next + edge && next >= 0.0 && 0.0 <= driving <= edge && 0.0 <= progress <= later <= 1.0
    ensures next <= Max(suffix - Covered(driving, later), 0.0)
    ensures Max(suffix - Covered(driving, later), 0.0) <= Max(suffix - Covered(driving, progress), 0.0) <= suffix
  {
    PartOf(driving, progress);
    PartOf(driving, later);
    assert driving * later - driving * progress == driving * (later - progress) >= 0.0;
  }

  /** An edge's ETA lies between the suffix sums at its ends, and falls with progress. */
  lemma EtaOnEdge(p: RoutePricing, i: nat, progress: real, later: real)
    requires Sums(p) && i < |p.perEdgeSeconds| && 0.0 <= progress <= later <= 1.0
    ensures RemainingEtaSeconds(p, i, progress).Some? && RemainingEtaSeconds(p, i, later).Some?
    ensures p.suffixSeconds[i + 1] <= RemainingEtaSeconds(p, i, later).value
    ensures RemainingEtaSeconds(p, i, later).value <= RemainingEtaSeconds(p, i, progress).value <= p.suffixSeconds[i]
  {
    SuffixFalls(p, i + 1, |p.perEdgeSeconds|);
    LessDriving(p.suffixSeconds[i], p.suffixSeconds[i + 1], p.perEdgeSeconds[i], p.perEdgeDrivingSeconds[i], progress, later);
  }

  lemma FallingEta(p: RoutePricing, was: Place, at: Place)
    requires Sums(p) && NotBehind(at, was)
    requires -1 <= was.index && at.index < |p.perEdgeSeconds| && 0.0 <= was.progress <= 1.0 && 0.0 <= at.progress <= 1.0
    ensures EtaAt(p, was).Some? && EtaAt(p, at).Some? && EtaAt(p, at).value <= EtaAt(p, was).value
  {
    if at.index >= 0 {
      EtaOnEdge(p, at.index, at.progress, at.progress);
      if was.index < 0 {
        SuffixFalls(p, 0, at.index);
      } else if was.index < at.index {
        EtaOnEdge(p, was.index, was.progress, was.progress);
        SuffixFalls(p, was.index + 1, at.index);
      } else {
        EtaOnEdge(p, at.index, was.progress, at.progress);
      }
    }
  }

  /** Going forward along the route never raises the ETA, also from before its first edge. */
  lemma EtaNeverRises(p: RoutePricing, edges: seq<Edge>, inputs: PricingInputs, arrival: Option<Edge>, was: Place, at: Place)
    requires Prices(p, edges, inputs, arrival) && NonNegative(edges, inputs, arrival)
    requires OnRoute(edges, was) && OnRoute(edges, at) && NotBehind(at, was)
    ensures EtaAt(p, was).Some? && EtaAt(p, at).Some? && EtaAt(p, at).value <= EtaAt(p, was).value
  {
    PricingSums(p, edges, inputs, arrival);
    FallingEta(p, was, at);
  }
}
