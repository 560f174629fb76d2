/**
 * The render state a recording folds to, and the accumulator that writer and
 * reader share (RecordingManager.ts:56-223).
 */
module RenderState {
  import opened Common

  type Id = string

  // ---- JavaScript maps, with their insertion order ----

  datatype Table<V> = Table(keys: seq<Id>, entries: map<Id, V>)

  /** Every entry once in the order, and nothing else. */
  ghost predicate Proper<V>(t: Table<V>) {
    NoDuplicates(t.keys) && forall k :: k in t.keys <==> k in t.entries
  }

  function Empty<V>(): Table<V> {
    Table([], map[])
  }

  /** `set`: a known key keeps its place. */
  function Put<V>(t: Table<V>, k: Id, v: V): Table<V> {
    Table(if k in t.entries then t.keys else t.keys + [k], t.entries[k := v])
  }

  function WithoutKey(keys: seq<Id>, k: Id): (r: seq<Id>)
    ensures forall x :: x in r <==> x in keys && x != k
    ensures NoDuplicates(keys) ==> NoDuplicates(r)
  {
    if keys == [] then []
    else
      var rest := WithoutKey(keys[..|keys| - 1], k);
      assert keys == keys[..|keys| - 1] + [keys[|keys| - 1]];
      assert NoDuplicates(keys) ==> keys[|keys| - 1] !in keys[..|keys| - 1];
      if keys[|keys| - 1] == k then rest else rest + [keys[|keys| - 1]]
  }

  /** `delete`. */
  function Drop<V>(t: Table<V>, k: Id): Table<V> {
    Table(WithoutKey(t.keys, k), t.entries - {k})
  }

  /** `Array.from(map.values())`. */
  function Values<V>(t: Table<V>): seq<V>
    requires forall k :: k in t.keys ==> k in t.entries
  {
    seq(|t.keys|, i requires 0 <= i < |t.keys| => t.entries[t.keys[i]])
  }

  // ---- Payloads; an id that is no string is `None` ----

  datatype Record<B> = Record(id: Option<Id>, body: B)

  datatype Fix = Fix(lat: real, lon: real, rest: string)

  datatype IncidentBody = IncidentBody(action: string, rest: string)

  type Vehicle = Record<Fix>
  /** A direction's id is its `vehicleId`. */
  type Direction = Record<string>
  type Incident = Record<IncidentBody>

  /** A recorded event: its type with the fields of its data that the fold reads. */
  datatype Event =
    | VehicleEvent(vehicles: Option<seq<Vehicle>>)
    | DirectionEvent(direction: Direction)
    | RouteCompleted(vehicleId: Option<Id>)
    | IncidentEvent(incident: Incident)
    | HeatzoneEvent(zones: string)
    | Despawn(vehicleId: Option<Id>, id: Option<Id>)
    | SimulationReset
    | OtherEvent(name: string)

  datatype State = State(
    vehicles: Table<Vehicle>,
    directions: Table<Direction>,
    incidents: Table<Incident>,
    heatzones: Option<string>)

  /** A keyframe's contents: the payloads alone. */
  datatype KeyframeState = KeyframeState(
    vehicles: seq<Vehicle>,
    directions: seq<Direction>,
    incidents: seq<Incident>,
    heatzones: Option<string>)

  function Nothing(): State {
    State(Empty(), Empty(), Empty(), None)
  }

  /** A record without an id is skipped. */
  function PutRecord<B>(t: Table<Record<B>>, r: Record<B>): Table<Record<B>> {
    if r.id.Some? then Put(t, r.id.value, r) else t
  }

  function PutAll<B>(t: Table<Record<B>>, rs: seq<Record<B>>): Table<Record<B>> {
    if rs == [] then t else PutRecord(PutAll(t, rs[..|rs| - 1]), rs[|rs| - 1])
  }

  /** `apply`. */
  function Applied(s: State, e: Event): State {
    match e
    case VehicleEvent(vehicles) =>
      if vehicles.Some? then s.(vehicles := PutAll(s.vehicles, vehicles.value)) else s
    case DirectionEvent(d) => s.(directions := PutRecord(s.directions, d))
    case RouteCompleted(id) => if id.Some? then s.(directions := Drop(s.directions, id.value)) else s
    case IncidentEvent(i) =>
      if i.id.None? then s
      else if i.body.action == "created" then s.(incidents := PutRecord(s.incidents, i))
      else if i.body.action == "cleared" then s.(incidents := Drop(s.incidents, i.id.value))
      else s
    case HeatzoneEvent(zones) => s.(heatzones := Some(zones))
    case Despawn(vehicleId, id) =>
      var gone := if vehicleId.Some? then vehicleId else id;
      if gone.None? then s
      else s.(vehicles := Drop(s.vehicles, gone.value), directions := Drop(s.directions, gone.value))
    case SimulationReset => Nothing()
    case OtherEvent(_) => s
  }

  /** `loadFrom`. */
  function Loaded(k: KeyframeState): State {
    State(PutAll(Empty(), k.vehicles), PutAll(Empty(), k.directions), PutAll(Empty(), k.incidents), k.heatzones)
  }

  /** Entries sit under their own ids. */
  ghost predicate KeyedTable<B>(t: Table<Record<B>>) {
    Proper(t) && forall k :: k in t.entries ==> t.entries[k].id == Some(k)
  }

  ghost predicate Keyed(s: State) {
    KeyedTable(s.vehicles) && KeyedTable(s.directions) && KeyedTable(s.incidents)
  }

  /** `toKeyframeState`. */
  function ToKeyframe(s: State): KeyframeState
    requires Keyed(s)
  {
    KeyframeState(Values(s.vehicles), Values(s.directions), Values(s.incidents), s.heatzones)
  }

  // ---- Folds keep tables keyed ----

  lemma {:induction false} PutAllKeyed<B>(t: Table<Record<B>>, rs: seq<Record<B>>)
    requires KeyedTable(t)
    ensures KeyedTable(PutAll(t, rs))
  {
    if rs != [] {
      PutAllKeyed(t, rs[..|rs| - 1]);
    }
  }

  lemma AppliedIsKeyed(s: State, e: Event)
    requires Keyed(s)
    ensures Keyed(Applied(s, e))
  {
    if e.VehicleEvent? && e.vehicles.Some? {
      PutAllKeyed(s.vehicles, e.vehicles.value);
    }
  }

  // ---- A keyframe restores exactly what it was made from ----

  /** The first `n` entries. */
  ghost function FirstEntries<V>(t: Table<V>, n: nat): Table<V>
    requires Proper(t) && n <= |t.keys|
  {
    Table(t.keys[..n], map k | k in t.keys[..n] :: t.entries[k])
  }

  lemma FirstEntriesGrow<V>(t: Table<V>, n: nat)
    requires Proper(t) && n < |t.keys|
    ensures FirstEntries(t, n + 1) == Put(FirstEntries(t, n), t.keys[n], t.entries[t.keys[n]])
  {
    assert t.keys[..n + 1] == t.keys[..n] + [t.keys[n]];
    assert t.keys[n] !in t.keys[..n];
  }

  lemma {:induction false} PutAllOneMore<B>(t: Table<Record<B>>, rs: seq<Record<B>>, r: Record<B>)
    ensures PutAll(t, rs + [r]) == PutRecord(PutAll(t, rs), r)
  {
    assert (rs + [r])[..|rs|] == rs;
  }

  lemma {:induction false} ValuesOneMore<V>(t: Table<V>, n: nat)
    requires Proper(t) && n < |t.keys|
    ensures |Values(t)| == |t.keys| && Values(t)[..n + 1] == Values(t)[..n] + [t.entries[t.keys[n]]]
  {
  }

  lemma {:induction false} Reload<B>(t: Table<Record<B>>, n: nat)
    requires KeyedTable(t) && n <= |t.keys|
    ensures PutAll(Empty(), Values(t)[..n]) == FirstEntries(t, n)
  {
    if n > 0 {
      Reload(t, n - 1);
      FirstEntriesGrow(t, n - 1);
      ValuesOneMore(t, n - 1);
      var v := t.entries[t.keys[n - 1]];
      assert v.id == Some(t.keys[n - 1]);
      hide PutAll, FirstEntries, Values, Put, Proper;
      PutAllOneMore(Empty(), Values(t)[..n - 1], v);
    }
  }

  lemma {:induction false} ReloadWhole<B>(t: Table<Record<B>>)
    requires KeyedTable(t)
    ensures PutAll(Empty(), Values(t)) == t
  {
    hide PutAll;
    Reload(t, |t.keys|);
    assert t.keys[..|t.keys|] == t.keys && Values(t)[..|t.keys|] == Values(t);
    assert FirstEntries(t, |t.keys|).entries == t.entries;
  }

  /** Loading a keyframe gives back the state it was made from, in the same order. */
  lemma KeyframeRoundTrip(s: State)
    requires Keyed(s)
    ensures Loaded(ToKeyframe(s)) == s
  {
    ReloadWhole(s.vehicles);
    ReloadWhole(s.directions);
    ReloadWhole(s.incidents);
  }

  // ---- The fold of a log ----

  function FoldFrom(s: State, events: seq<Event>): State {
    if events == [] then s else Applied(FoldFrom(s, events[..|events| - 1]), events[|events| - 1])
  }

  function Fold(events: seq<Event>): State {
    FoldFrom(Nothing(), events)
  }

  lemma {:induction false} FoldOfConcat(s: State, a: seq<Event>, b: seq<Event>)
    ensures FoldFrom(s, a + b) == FoldFrom(FoldFrom(s, a), b)
  {
    if b == [] {
      assert a + b == a;
    } else {
      FoldOfConcat(s, a, b[..|b| - 1]);
      assert (a + b)[..|a + b| - 1] == a + b[..|b| - 1];
    }
  }

  lemma {:induction false} FoldIsKeyed(events: seq<Event>)
    ensures Keyed(Fold(events))
  {
    if events != [] {
      FoldIsKeyed(events[..|events| - 1]);
      AppliedIsKeyed(Fold(events[..|events| - 1]), events[|events| - 1]);
    }
  }

  // ---- States that look alike on a map ----

  const POSITION_DELTA_THRESHOLD: real := 0.00001

  predicate Near(x: real, y: real) {
    -POSITION_DELTA_THRESHOLD < x - y < POSITION_DELTA_THRESHOLD
  }

  /** The same vehicle, within the recording threshold on each axis. */
  predicate Alike(v: Vehicle, w: Vehicle) {
    Near(v.body.lat, w.body.lat) && Near(v.body.lon, w.body.lon)
  }

  /** `a` shows everything `b` does: the same but for vehicles, of which it may have more, and slightly moved ones. */
  ghost predicate Shows(a: State, b: State) {
    && a.directions == b.directions && a.incidents == b.incidents && a.heatzones == b.heatzones
    && forall k :: k in b.vehicles.entries ==> k in a.vehicles.entries && Alike(a.vehicles.entries[k], b.vehicles.entries[k])
  }

  ghost predicate VehiclesShow(a: Table<Vehicle>, b: Table<Vehicle>) {
    forall k :: k in b.entries ==> k in a.entries && Alike(a.entries[k], b.entries[k])
  }

  lemma {:induction false} PutVehiclesShow(a: Table<Vehicle>, b: Table<Vehicle>, vs: seq<Vehicle>)
    requires VehiclesShow(a, b)
    ensures VehiclesShow(PutAll(a, vs), PutAll(b, vs))
  {
    if vs != [] {
      PutVehiclesShow(a, b, vs[..|vs| - 1]);
    }
  }

  /** Applying the same event keeps one state showing the other. */
  lemma AppliedShows(a: State, b: State, e: Event)
    requires Shows(a, b)
    ensures Shows(Applied(a, e), Applied(b, e))
  {
    if e.VehicleEvent? && e.vehicles.Some? {
      PutVehiclesShow(a.vehicles, b.vehicles, e.vehicles.value);
    }
  }

  lemma {:induction false} FoldShows(a: State, b: State, events: seq<Event>)
    requires Shows(a, b)
    ensures Shows(FoldFrom(a, events), FoldFrom(b, events))
  {
    if events != [] {
      FoldShows(a, b, events[..|events| - 1]);
      AppliedShows(FoldFrom(a, events[..|events| - 1]), FoldFrom(b, events[..|events| - 1]), events[|events| - 1]);
    }
  }

  // ---- The accumulator ----

  class KeyframeStateAccumulator {
    var state: State

    constructor ()
      ensures state == Nothing()
    {
      state := Nothing();
    }

    method Clear()
      modifies this
      ensures state == Nothing()
    {
      state := Nothing();
    }

    method LoadFrom(k: KeyframeState)
      modifies this
      ensures state == Loaded(k)
    {
      Clear();
      var vehicles, directions, incidents := state.vehicles, state.directions, state.incidents;
      var i := 0;
      while i < |k.vehicles|
        invariant 0 <= i <= |k.vehicles| && vehicles == PutAll(Empty(), k.vehicles[..i])
      {
        assert k.vehicles[..i + 1][..i] == k.vehicles[..i];
        vehicles := PutRecord(vehicles, k.vehicles[i]);
        i := i + 1;
      }
      assert k.vehicles[..i] == k.vehicles;
      i := 0;
      while i < |k.directions|
        invariant 0 <= i <= |k.directions| && directions == PutAll(Empty(), k.directions[..i])
      {
        assert k.directions[..i + 1][..i] == k.directions[..i];
        directions := PutRecord(directions, k.directions[i]);
        i := i + 1;
      }
      assert k.directions[..i] == k.directions;
      i := 0;
      while i < |k.incidents|
        invariant 0 <= i <= |k.incidents| && incidents == PutAll(Empty(), k.incidents[..i])
      {
        assert k.incidents[..i + 1][..i] == k.incidents[..i];
        incidents := PutRecord(incidents, k.incidents[i]);
        i := i + 1;
      }
      assert k.incidents[..i] == k.incidents;
      state := State(vehicles, directions, incidents, k.heatzones);
    }

    method TrackVehicle(v: Vehicle)
      modifies this
      ensures state == old(state).(vehicles := PutRecord(old(state).vehicles, v))
    {
      state := state.(vehicles := PutRecord(state.vehicles, v));
    }

    method Apply(e: Event)
      modifies this
      ensures state == Applied(old(state), e)
    {
      match e {
        case VehicleEvent(vehicles) =>
          if vehicles.Some? {
            var list, t := vehicles.value, state.vehicles;
            var i := 0;
            while i < |list|
              invariant 0 <= i <= |list| && t == PutAll(state.vehicles, list[..i])
            {
              assert list[..i + 1][..i] == list[..i];
              t := PutRecord(t, list[i]);
              i := i + 1;
            }
            assert list[..i] == list;
            state := state.(vehicles := t);
          }
        case DirectionEvent(d) =>
          state := state.(directions := PutRecord(state.directions, d));
        case RouteCompleted(id) =>
          if id.Some? {
            state := state.(directions := Drop(state.directions, id.value));
          }
        case IncidentEvent(i) =>
          if i.id.Some? {
            if i.body.action == "created" {
              state := state.(incidents := Put(state.incidents, i.id.value, i));
            } else if i.body.action == "cleared" {
              state := state.(incidents := Drop(state.incidents, i.id.value));
            }
          }
        case HeatzoneEvent(zones) =>
          state := state.(heatzones := Some(zones));
        case Despawn(vehicleId, id) =>
          var gone := if vehicleId.Some? then vehicleId else id;
          if gone.Some? {
            state := state.(vehicles := Drop(state.vehicles, gone.value), directions := Drop(state.directions, gone.value));
          }
        case SimulationReset =>
          Clear();
        case OtherEvent(_) =>
      }
    }
  }
}
