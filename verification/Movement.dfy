/**
 * Driving a vehicle along its route (RouteManager.ts:465-490, 562-619) and the
 * ETA it is given while it drives (RouteManager.ts:250-290).
 *
 * The route is fixed, and arriving at its end is reported to the caller instead
 * of being turned into a dwell.
 */
module Movement {
  import opened Common
  import opened Eta

  /** The first edge with an id, or -1, as `findIndex` has it. */
  function FindEdge(edges: seq<Edge>, id: string): (i: int)
    ensures -1 <= i < |edges|
    ensures i >= 0 ==> edges[i].id == id
    ensures forall j :: 0 <= j < (if i < 0 then |edges| else i) ==> edges[j].id != id
  {
    if edges == [] then -1
    else if edges[0].id == id then 0
    else
      var rest := FindEdge(edges[1..], id);
      if rest < 0 then -1 else rest + 1
  }

  /** `edgeIndex` is -1 until the vehicle is placed on its route. */
  class Vehicle {
    var speed: real
    var currentEdge: Edge
    var edgeIndex: int
    var progress: real

    constructor (speed: real, currentEdge: Edge, edgeIndex: int, progress: real)
      ensures this.speed == speed && this.currentEdge == currentEdge
      ensures this.edgeIndex == edgeIndex && this.progress == progress
    {
      this.speed, this.currentEdge, this.edgeIndex, this.progress := speed, currentEdge, edgeIndex, progress;
    }

    /** `routeEdgeIndex`: the stored index, or where the current edge is on the route. */
    function RouteIndex(edges: seq<Edge>): int
      reads this
    {
      if edgeIndex >= 0 then edgeIndex else FindEdge(edges, currentEdge.id)
    }

    function At(edges: seq<Edge>): Place
      reads this
    {
      Place(RouteIndex(edges), progress)
    }

    /** The vehicle is on the route's edge its index names, or on an edge before the route. */
    ghost predicate Valid(edges: seq<Edge>)
      reads this
    {
      && 0.0 <= progress <= 1.0 && currentEdge.distance >= 0.0
      && RouteIndex(edges) < |edges|
      && (RouteIndex(edges) >= 0 ==> edges[RouteIndex(edges)] == currentEdge)
    }

    /** Kilometres from the start of the route; negative on the edge before it. */
    ghost function Along(edges: seq<Edge>): real
      requires Valid(edges)
      reads this
    {
      AlongAt(edges, RouteIndex(edges), currentEdge.distance, progress)
    }
  }

  // ---- Distance along the route ----

  function KmBefore(edges: seq<Edge>, i: nat): real
    requires i <= |edges|
  {
    if i == 0 then 0.0 else KmBefore(edges, i - 1) + edges[i - 1].distance
  }

  /** `index` is -1 on the edge before the route. */
  function AlongAt(edges: seq<Edge>, index: int, length: real, progress: real): real
    requires -1 <= index < |edges|
  {
    if index < 0 then 0.0 - (1.0 - progress) * length else KmBefore(edges, index) + progress * length
  }

  /** Driving an edge to its end, and a part of it. */
  lemma ToTheEnd(edges: seq<Edge>, index: int, length: real, progress: real)
    requires -1 <= index < |edges| && (index >= 0 ==> length == edges[index].distance)
    ensures AlongAt(edges, index, length, progress) + (1.0 - progress) * length == KmBefore(edges, index + 1)
  {
  }

  lemma PartOfTheWay(edges: seq<Edge>, index: int, length: real, progress: real, km: real)
    requires -1 <= index < |edges| && 0.0 <= progress <= 1.0
    requires 0.0 < km < (1.0 - progress) * length && length >= 0.0
    ensures length > 0.0 && progress < progress + km / length <= 1.0
    ensures AlongAt(edges, index, length, progress + km / length) == AlongAt(edges, index, length, progress) + km
  {
    var d := km / length;
    assert d * length == km;
    assert d > 0.0;
    var free := 1.0 - progress;
    assert d < free;
    assert (progress + d) * length == progress * length + km;
    assert (free - d) * length == free * length - km;
  }

  lemma {:induction false} KmGrows(edges: seq<Edge>, i: nat, j: nat)
    requires i <= j <= |edges| && forall k :: 0 <= k < |edges| ==> edges[k].distance >= 0.0
    ensures KmBefore(edges, i) <= KmBefore(edges, j)
    decreases j
  {
    if i < j {
      KmGrows(edges, i, j - 1);
    }
  }

  // ---- One tick ----

  /** Where `getNextEdgeForVehicle` sends a vehicle at the end of its edge; `None` at the route's end. */
  method NextEdge(v: Vehicle, edges: seq<Edge>) returns (next: Option<(Edge, int)>)
    modifies v`edgeIndex
    ensures v.edgeIndex == old(v.RouteIndex(edges))
    ensures v.edgeIndex + 1 < |edges| ==> v.edgeIndex >= -1 && next == Some((edges[v.edgeIndex + 1], v.edgeIndex + 1))
    ensures v.edgeIndex + 1 >= |edges| ==> next == None
  {
    if v.edgeIndex < 0 {
      v.edgeIndex := FindEdge(edges, v.currentEdge.id);
    }
    if v.edgeIndex < |edges| - 1 {
      return Some((edges[v.edgeIndex + 1], v.edgeIndex + 1));
    }
    return None;
  }

  /** What a tick may drive. */
  function TickKm(speed: real, deltaMs: real): real {
    speed / 3600.0 * (deltaMs / 1000.0)
  }

  /** In kilometres per hour: in an hour, its speed; and twice the distance in twice the time. */
  lemma TickKmIsSpeed(speed: real, deltaMs: real, more: real)
    ensures TickKm(speed, 3_600_000.0) == speed
    ensures TickKm(speed, deltaMs + more) == TickKm(speed, deltaMs) + TickKm(speed, more)
    ensures TickKm(speed, deltaMs) * 3_600_000.0 == speed * deltaMs
  {
    var perSecond := speed / 3600.0;
    assert perSecond * ((deltaMs + more) / 1000.0) == perSecond * (deltaMs / 1000.0) + perSecond * (more / 1000.0);
    assert perSecond * (deltaMs / 1000.0) * 3_600_000.0 == (perSecond * 3600.0) * deltaMs;
  }

  predicate NoNegativeEdges(edges: seq<Edge>) {
    forall k :: 0 <= k < |edges| ==> edges[k].distance >= 0.0
  }

  predicate PositiveEdges(edges: seq<Edge>) {
    edges != [] && forall k :: 0 <= k < |edges| ==> edges[k].distance > 0.0
  }

  /** The loop's exit test: some distance is left for another edge, or the route still lies ahead. */
  ghost predicate MoreAhead(v: Vehicle, edges: seq<Edge>, left: real)
    requires v.Valid(edges)
    reads v
  {
    PositiveEdges(edges) && left <= 0.0 ==> v.Along(edges) < KmBefore(edges, |edges|)
  }

  /** The first branch of the loop: to the end of the edge and onto the next, if there is one. */
  method FinishEdge(v: Vehicle, remaining: real, edges: seq<Edge>) returns (left: real, arrived: bool)
    requires v.Valid(edges) && NoNegativeEdges(edges)
    requires remaining >= (1.0 - v.progress) * v.currentEdge.distance
    modifies v
    ensures v.Valid(edges) && v.speed == old(v.speed)
    ensures left == remaining - old((1.0 - v.progress) * v.currentEdge.distance)
    ensures v.Along(edges) == old(AlongEnd(v, edges))
    ensures arrived ==> v.RouteIndex(edges) == old(v.RouteIndex(edges)) == |edges| - 1 && v.progress == 1.0
    ensures !arrived ==> v.RouteIndex(edges) == old(v.RouteIndex(edges)) + 1 && v.progress == 0.0
  {
    left := remaining - (1.0 - v.progress) * v.currentEdge.distance;
    v.progress := 1.0;
    var next := NextEdge(v, edges);
    if next.None? {
      return left, true;
    }
    v.currentEdge := next.value.0;
    v.progress := 0.0;
    v.edgeIndex := next.value.1;
    return left, false;
  }

  /** Kilometres to where the vehicle's edge ends. */
  ghost function AlongEnd(v: Vehicle, edges: seq<Edge>): real
    requires v.Valid(edges)
    reads v
  {
    KmBefore(edges, v.RouteIndex(edges) + 1)
  }

  /** The second branch: the distance ends on this edge. */
  method PartEdge(v: Vehicle, remaining: real, edges: seq<Edge>)
    requires v.Valid(edges) && NoNegativeEdges(edges)
    requires 0.0 < remaining < (1.0 - v.progress) * v.currentEdge.distance
    modifies v`progress
    ensures v.Valid(edges) && v.RouteIndex(edges) == old(v.RouteIndex(edges)) && old(v.progress) <= v.progress
    ensures v.Along(edges) == old(v.Along(edges)) + remaining
    ensures v.Along(edges) < KmBefore(edges, |edges|)
  {
    ghost var index, length, km := v.RouteIndex(edges), v.currentEdge.distance, remaining;
    PartOfTheWay(edges, index, length, v.progress, km);
    assert AlongAt(edges, index, length, v.progress) + km < KmBefore(edges, index + 1) by {
      ToTheEnd(edges, index, length, v.progress);
    }
    KmGrows(edges, index + 1, |edges|);
    v.progress := v.progress + remaining / v.currentEdge.distance;
  }

  /** One turn of the loop: to the end of the edge and onto the next, or part of the way. */
  method DriveEdge(v: Vehicle, remaining: real, edges: seq<Edge>) returns (left: real, arrived: bool)
    requires v.Valid(edges) && NoNegativeEdges(edges) && remaining > 0.0
    modifies v
    ensures v.Valid(edges) && v.speed == old(v.speed)
    ensures NotBehind(v.At(edges), old(v.At(edges)))
    ensures left >= 0.0 && v.Along(edges) + left == old(v.Along(edges)) + remaining
    ensures arrived ==> v.RouteIndex(edges) == |edges| - 1 && v.progress == 1.0 && v.Along(edges) == KmBefore(edges, |edges|)
    ensures !arrived ==> left == 0.0 || old(v.RouteIndex(edges)) < v.RouteIndex(edges)
    ensures !arrived ==> MoreAhead(v, edges, left)
  {
    hide AlongAt;
    ghost var index := v.RouteIndex(edges);
    var edgeRemaining := (1.0 - v.progress) * v.currentEdge.distance;
    if remaining >= edgeRemaining {
      ToTheEnd(edges, index, v.currentEdge.distance, v.progress);
      left, arrived := FinishEdge(v, remaining, edges);
      if !arrived {
        KmGrows(edges, index + 2, |edges|);
      }
    } else {
      PartEdge(v, remaining, edges);
      return 0.0, false;
    }
  }

  /** The loop of `updatePositionCore`, given the distance to drive. */
  method Drive(v: Vehicle, km: real, minSpeed: real, edges: seq<Edge>) returns (completed: bool)
    requires v.Valid(edges) && NoNegativeEdges(edges)
    modifies v
    ensures v.Valid(edges) && NotBehind(v.At(edges), old(v.At(edges)))
    ensures !completed ==> v.speed == old(v.speed) && v.Along(edges) == old(v.Along(edges)) + Max(km, 0.0)
    ensures completed ==> v.speed == minSpeed && v.progress == 1.0 && v.RouteIndex(edges) == |edges| - 1
    ensures completed ==> km > 0.0 && old(v.Along(edges)) + km >= KmBefore(edges, |edges|)
    ensures PositiveEdges(edges) ==>
              (completed <==> km > 0.0 && old(v.Along(edges)) + km >= KmBefore(edges, |edges|))
  {
    var remainingDistance := km;
    while remainingDistance > 0.0
      invariant v.Valid(edges) && NotBehind(v.At(edges), old(v.At(edges)))
      invariant v.speed == old(v.speed)
      invariant v.Along(edges) + remainingDistance == old(v.Along(edges)) + km
      invariant if km > 0.0 then remainingDistance >= 0.0 else remainingDistance == km
      invariant km > 0.0 ==> MoreAhead(v, edges, remainingDistance)
      decreases |edges| - v.RouteIndex(edges), if remainingDistance > 0.0 then 1 else 0
    {
      var arrived;
      remainingDistance, arrived := DriveEdge(v, remainingDistance, edges);
      if arrived {
        v.speed := minSpeed;
        return true;
      }
    }
    return false;
  }

  /**
   * `updatePositionCore` with a route.  In one tick the vehicle covers exactly
   * speed times time, or reaches the end of the route with distance to spare,
   * and it never moves back.
   */
  method UpdatePositionCore(v: Vehicle, deltaMs: real, minSpeed: real, edges: seq<Edge>) returns (completed: bool)
    requires v.Valid(edges) && NoNegativeEdges(edges)
    modifies v
    ensures v.Valid(edges) && NotBehind(v.At(edges), old(v.At(edges)))
    ensures !completed ==> v.Along(edges) == old(v.Along(edges)) + Max(TickKm(old(v.speed), deltaMs), 0.0)
    ensures !completed ==> v.speed == old(v.speed)
    ensures completed ==> v.speed == minSpeed && v.progress == 1.0 && v.RouteIndex(edges) == |edges| - 1
    ensures PositiveEdges(edges) ==>
              (completed <==> TickKm(old(v.speed), deltaMs) > 0.0 &&
                              old(v.Along(edges)) + TickKm(old(v.speed), deltaMs) >= KmBefore(edges, |edges|))
  {
    completed := Drive(v, TickKm(v.speed, deltaMs), minSpeed, edges);
  }

  // ---- The ETA while driving ----

  /** `etaSecondsFor` with the cached pricing of the route. */
  function EtaSecondsFor(v: Vehicle, p: RoutePricing, edges: seq<Edge>): Option<real>
    requires |p.perEdgeSeconds| <= |p.perEdgeDrivingSeconds| && |p.perEdgeSeconds| <= |p.suffixSeconds|
    reads v
  {
    var edgeIndex := v.RouteIndex(edges);
    if edgeIndex < 0 then Some(p.totalSeconds) else RemainingEtaSeconds(p, edgeIndex, v.progress)
  }

  /** A tick of driving never raises the ETA, also while the vehicle is still on its way to the route. */
  method TickWithEta(v: Vehicle, deltaMs: real, minSpeed: real, edges: seq<Edge>, p: RoutePricing,
                     ghost inputs: PricingInputs, ghost arrival: Option<Edge>)
    returns (completed: bool, before: real, after: real)
    requires v.Valid(edges) && NonNegative(edges, inputs, arrival) && Prices(p, edges, inputs, arrival)
    modifies v
    ensures old(EtaSecondsFor(v, p, edges)) == Some(before) && EtaSecondsFor(v, p, edges) == Some(after)
    ensures after <= before
    ensures after == if v.RouteIndex(edges) < 0 then p.totalSeconds
                     else p.suffixSeconds[v.RouteIndex(edges)]
                          - Covered(p.perEdgeDrivingSeconds[v.RouteIndex(edges)], v.progress)
  {
    ghost var was := v.At(edges);
    before := EtaSecondsFor(v, p, edges).value;
    completed := UpdatePositionCore(v, deltaMs, minSpeed, edges);
    EtaNeverRises(p, edges, inputs, arrival, was, v.At(edges));
    after := EtaSecondsFor(v, p, edges).value;
    if v.RouteIndex(edges) >= 0 {
      PricingSums(p, edges, inputs, arrival);
      EtaLookup(p, v.RouteIndex(edges), v.progress);
    }
  }
}
