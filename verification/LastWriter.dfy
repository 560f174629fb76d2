/**
 * What a log comes to (RecordingManager.ts:150-202), read off its events: each
 * vehicle, drawn route and incident, and the heat zones, are as the last event
 * left them that had to do with them.
 */
module LastWriters {
  import opened Common
  import opened RenderState

  /** Some event `sets` it, and none after that one `touches` it. */
  ghost predicate LastSets(events: seq<Event>, sets: Event -> bool, touches: Event -> bool) {
    exists i :: 0 <= i < |events| && SetAt(events, sets, touches, i)
  }

  ghost predicate SetAt(events: seq<Event>, sets: Event -> bool, touches: Event -> bool, i: nat)
    requires i < |events|
  {
    sets(events[i]) && forall j :: i < j < |events| ==> !touches(events[j])
  }

  lemma LastSetsOneMore(events: seq<Event>, e: Event, sets: Event -> bool, touches: Event -> bool)
    ensures LastSets(events + [e], sets, touches) <==> sets(e) || (LastSets(events, sets, touches) && !touches(e))
  {
    var all := events + [e];
    assert SetAt(all, sets, touches, |events|) <==> sets(e);
    if i :| 0 <= i < |events| && SetAt(all, sets, touches, i) {
      assert !touches(all[|events|]);
      assert forall j :: i < j < |events| ==> events[j] == all[j];
      assert SetAt(events, sets, touches, i);
    }
    if i :| 0 <= i < |events| && SetAt(events, sets, touches, i) && !touches(e) {
      assert SetAt(all, sets, touches, i);
    }
  }

  lemma FoldOneMore(events: seq<Event>)
    requires events != []
    ensures var front, e := events[..|events| - 1], events[|events| - 1];
            events == front + [e] && Fold(events) == Applied(Fold(front), e)
  {
  }

  lemma NothingHeld(events: seq<Event>)
    requires events == []
    ensures Fold(events) == Nothing()
    ensures forall sets: Event -> bool, touches: Event -> bool :: !LastSets(events, sets, touches)
  {
  }

  ghost predicate Has<V(!new)>(t: Table<V>, k: Id, x: V) {
    k in t.entries && t.entries[k] == x
  }

  /** The event takes a vehicle away, by either of its ids. */
  predicate Removes(e: Event, k: Id) {
    || e.SimulationReset?
    || (e.Despawn? && (e.vehicleId == Some(k) || (e.vehicleId.None? && e.id == Some(k))))
  }

  // ---- Incidents ----

  predicate Creates(e: Event, k: Id, x: Incident) {
    e == IncidentEvent(x) && x.id == Some(k) && x.body.action == "created"
  }

  predicate TouchesIncident(e: Event, k: Id) {
    || e.SimulationReset?
    || (e.IncidentEvent? && e.incident.id == Some(k)
        && (e.incident.body.action == "created" || e.incident.body.action == "cleared"))
  }

  lemma IncidentStep(s: State, e: Event, k: Id, x: Incident)
    ensures Has(Applied(s, e).incidents, k, x) <==> Creates(e, k, x) || (Has(s.incidents, k, x) && !TouchesIncident(e, k))
  {
    hide PutAll;
  }

  /** An incident is there exactly when it was created and has neither been cleared, created again, nor reset since. */
  lemma {:induction false} IncidentsAreLast(events: seq<Event>, k: Id, x: Incident)
    ensures Has(Fold(events).incidents, k, x) <==> LastSets(events, e => Creates(e, k, x), e => TouchesIncident(e, k))
  {
    if events != [] {
      FoldOneMore(events);
      var front, e := events[..|events| - 1], events[|events| - 1];
      IncidentsAreLast(front, k, x);
      IncidentStep(Fold(front), e, k, x);
      LastSetsOneMore(front, e, e => Creates(e, k, x), e => TouchesIncident(e, k));
    } else {
      NothingHeld(events);
    }
  }

  // ---- Drawn routes ----

  predicate Directs(e: Event, k: Id, x: Direction) {
    e == DirectionEvent(x) && x.id == Some(k)
  }

  predicate TouchesDirection(e: Event, k: Id) {
    Removes(e, k) || (e.DirectionEvent? && e.direction.id == Some(k)) || e == RouteCompleted(Some(k))
  }

  lemma DirectionStep(s: State, e: Event, k: Id, x: Direction)
    ensures Has(Applied(s, e).directions, k, x) <==> Directs(e, k, x) || (Has(s.directions, k, x) && !TouchesDirection(e, k))
  {
    hide PutAll;
  }

  /** A route is drawn exactly when it was set and has not been set again or completed, nor its vehicle removed. */
  lemma {:induction false} DirectionsAreLast(events: seq<Event>, k: Id, x: Direction)
    ensures Has(Fold(events).directions, k, x) <==> LastSets(events, e => Directs(e, k, x), e => TouchesDirection(e, k))
  {
    if events != [] {
      FoldOneMore(events);
      var front, e := events[..|events| - 1], events[|events| - 1];
      DirectionsAreLast(front, k, x);
      DirectionStep(Fold(front), e, k, x);
      LastSetsOneMore(front, e, e => Directs(e, k, x), e => TouchesDirection(e, k));
    } else {
      NothingHeld(events);
    }
  }

  // ---- Vehicles ----

  predicate Names(vs: seq<Vehicle>, k: Id) {
    exists i :: 0 <= i < |vs| && vs[i].id == Some(k)
  }

  /** The last record of the batch for the id. */
  predicate NamesLast(vs: seq<Vehicle>, k: Id, x: Vehicle) {
    exists i :: 0 <= i < |vs| && vs[i] == x && x.id == Some(k) && !Names(vs[i + 1..], k)
  }

  lemma {:induction false} PutAllLast(t: Table<Vehicle>, vs: seq<Vehicle>, k: Id, x: Vehicle)
    ensures Has(PutAll(t, vs), k, x) <==> NamesLast(vs, k, x) || (Has(t, k, x) && !Names(vs, k))
  {
    if vs != [] {
      var front, v := vs[..|vs| - 1], vs[|vs| - 1];
      PutAllLast(t, front, k, x);
      NamesOneMore(front, v, k, x);
      assert vs == front + [v];
      hide Names, NamesLast;
    }
  }

  lemma NamesOneMore(vs: seq<Vehicle>, v: Vehicle, k: Id, x: Vehicle)
    ensures Names(vs + [v], k) <==> Names(vs, k) || v.id == Some(k)
    ensures NamesLast(vs + [v], k, x) <==> (v == x && v.id == Some(k)) || (NamesLast(vs, k, x) && v.id != Some(k))
  {
    var all := vs + [v];
    assert all[|vs|] == v && all[|vs| + 1..] == [];
    forall i | 0 <= i < |vs|
      ensures all[i] == vs[i] && (Names(all[i + 1..], k) <==> Names(vs[i + 1..], k) || v.id == Some(k))
    {
      var rest := vs[i + 1..];
      assert all[i + 1..] == rest + [v];
      assert (rest + [v])[|rest|] == v;
      assert forall j :: 0 <= j < |rest| ==> (rest + [v])[j] == rest[j];
    }
  }

  predicate Places(e: Event, k: Id, x: Vehicle) {
    e.VehicleEvent? && e.vehicles.Some? && NamesLast(e.vehicles.value, k, x)
  }

  predicate TouchesVehicle(e: Event, k: Id) {
    Removes(e, k) || (e.VehicleEvent? && e.vehicles.Some? && Names(e.vehicles.value, k))
  }

  lemma VehicleStep(s: State, e: Event, k: Id, x: Vehicle)
    ensures Has(Applied(s, e).vehicles, k, x) <==> Places(e, k, x) || (Has(s.vehicles, k, x) && !TouchesVehicle(e, k))
  {
    hide PutAll, Names, NamesLast;
    if e.VehicleEvent? && e.vehicles.Some? {
      PutAllLast(s.vehicles, e.vehicles.value, k, x);
    }
  }

  /** A vehicle is as the last event that names it has it, unless it has been removed since. */
  lemma {:induction false} VehiclesAreLast(events: seq<Event>, k: Id, x: Vehicle)
    ensures Has(Fold(events).vehicles, k, x) <==> LastSets(events, e => Places(e, k, x), e => TouchesVehicle(e, k))
  {
    if events != [] {
      FoldOneMore(events);
      var front, e := events[..|events| - 1], events[|events| - 1];
      VehiclesAreLast(front, k, x);
      VehicleStep(Fold(front), e, k, x);
      LastSetsOneMore(front, e, e => Places(e, k, x), e => TouchesVehicle(e, k));
    } else {
      NothingHeld(events);
    }
  }

  // ---- Heat zones ----

  /** The heat zones are those of the last event that brought any, unless a reset came since. */
  lemma {:induction false} HeatzonesAreLast(events: seq<Event>, zones: string)
    ensures Fold(events).heatzones == Some(zones) <==>
            LastSets(events, (e: Event) => e == HeatzoneEvent(zones), (e: Event) => e.HeatzoneEvent? || e.SimulationReset?)
  {
    if events != [] {
      FoldOneMore(events);
      var front, e := events[..|events| - 1], events[|events| - 1];
      HeatzonesAreLast(front, zones);
      LastSetsOneMore(front, e, (e: Event) => e == HeatzoneEvent(zones), (e: Event) => e.HeatzoneEvent? || e.SimulationReset?);
      hide LastSets;
    } else {
      NothingHeld(events);
    }
  }
}
