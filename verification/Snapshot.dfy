/**
 * What one vehicle snapshot tracks and writes (RecordingManager.ts:474-514):
 * every vehicle is tracked, and in live mode those that have hardly moved since
 * they were last written are left out of the file.
 */
module Snapshots {
  import opened Common
  import opened RenderState

  /** The dedup baseline: where each vehicle was when it was last written. */
  type Positions = map<Id, (real, real)>

  function PositionOf(v: Vehicle): (real, real) {
    (v.body.lat, v.body.lon)
  }

  predicate NearPosition(v: Vehicle, p: (real, real)) {
    Near(v.body.lat, p.0) && Near(v.body.lon, p.1)
  }

  predicate AllNamed(vs: seq<Vehicle>) {
    forall i :: 0 <= i < |vs| ==> vs[i].id.Some?
  }

  /** Close to its baseline on both axes; a vehicle without one is not. */
  predicate Unmoved(v: Vehicle, last: Positions)
    requires v.id.Some?
  {
    v.id.value in last && NearPosition(v, last[v.id.value])
  }

  /** What the loop over the vehicles has gathered. */
  datatype Capture = Capture(changed: seq<Vehicle>, last: Positions)

  function CapturedOne(raw: bool, c: Capture, v: Vehicle): Capture
    requires v.id.Some?
  {
    if !raw && Unmoved(v, c.last) then c else Capture(c.changed + [v], c.last[v.id.value := PositionOf(v)])
  }

  function Captured(raw: bool, vs: seq<Vehicle>, last: Positions): Capture
    requires AllNamed(vs)
  {
    if vs == [] then Capture([], last) else CapturedOne(raw, Captured(raw, vs[..|vs| - 1], last), vs[|vs| - 1])
  }

  // ---- What a snapshot of distinct vehicles comes to ----

  predicate DistinctIds(vs: seq<Vehicle>) {
    forall i, j :: 0 <= i < j < |vs| ==> vs[i].id != vs[j].id
  }

  /** All vehicles in raw mode; in live mode those without a baseline or off it on some axis. */
  function Moved(raw: bool, vs: seq<Vehicle>, last: Positions): seq<Vehicle>
    requires AllNamed(vs)
  {
    if vs == [] then []
    else
      var front, v := Moved(raw, vs[..|vs| - 1], last), vs[|vs| - 1];
      if !raw && Unmoved(v, last) then front else front + [v]
  }

  lemma {:induction false} MovedIff(raw: bool, vs: seq<Vehicle>, last: Positions, v: Vehicle)
    requires AllNamed(vs)
    ensures v in Moved(raw, vs, last) <==> v in vs && (raw || !Unmoved(v, last))
  {
    if vs != [] {
      MovedIff(raw, vs[..|vs| - 1], last, v);
      assert vs == vs[..|vs| - 1] + [vs[|vs| - 1]];
    }
  }

  predicate Names(vs: seq<Vehicle>, k: Id) {
    exists i :: 0 <= i < |vs| && vs[i].id == Some(k)
  }

  /** Vehicles that come once each are compared with the baseline of the last snapshot. */
  lemma {:induction false} DistinctAreMoved(raw: bool, vs: seq<Vehicle>, last: Positions)
    requires AllNamed(vs) && DistinctIds(vs)
    ensures Captured(raw, vs, last).changed == Moved(raw, vs, last)
    ensures forall k :: !Names(vs, k) ==>
              (k in Captured(raw, vs, last).last <==> k in last) && (k in last ==> Captured(raw, vs, last).last[k] == last[k])
  {
    if vs != [] {
      var front, v := vs[..|vs| - 1], vs[|vs| - 1];
      DistinctAreMoved(raw, front, last);
      assert !Names(front, v.id.value);
      forall k | !Names(vs, k)
        ensures !Names(front, k) && k != v.id.value
      {
      }
    }
  }

  /** What tracking all and then applying the event leaves for one vehicle. */
  lemma {:induction false} PutAllLeaves(t: Table<Vehicle>, vs: seq<Vehicle>, i: nat)
    requires AllNamed(vs) && i < |vs| && (forall j :: i < j < |vs| ==> vs[j].id != vs[i].id)
    ensures vs[i].id.value in PutAll(t, vs).entries && PutAll(t, vs).entries[vs[i].id.value] == vs[i]
  {
    if i < |vs| - 1 {
      PutAllLeaves(t, vs[..|vs| - 1], i);
    }
  }

  lemma {:induction false} PutAllKeeps(t: Table<Vehicle>, vs: seq<Vehicle>, v: Vehicle)
    requires v.id.Some? && v.id.value in t.entries && t.entries[v.id.value] == v
    requires forall w :: w in vs && w.id == v.id ==> w == v
    ensures v.id.value in PutAll(t, vs).entries && PutAll(t, vs).entries[v.id.value] == v
  {
    if vs != [] {
      assert vs == vs[..|vs| - 1] + [vs[|vs| - 1]];
      PutAllKeeps(t, vs[..|vs| - 1], v);
    }
  }

  /** Every vehicle of the snapshot is tracked exactly as it was captured, written or not. */
  lemma {:induction false} AllAreTracked(raw: bool, t: Table<Vehicle>, vs: seq<Vehicle>, last: Positions)
    requires AllNamed(vs) && DistinctIds(vs)
    ensures var after := PutAll(PutAll(t, vs), Captured(raw, vs, last).changed);
            forall i :: 0 <= i < |vs| ==> vs[i].id.value in after.entries && after.entries[vs[i].id.value] == vs[i]
  {
    DistinctAreMoved(raw, vs, last);
    var changed := Captured(raw, vs, last).changed;
    hide Captured, PutAll;
    forall i | 0 <= i < |vs|
      ensures var after := PutAll(PutAll(t, vs), changed);
              vs[i].id.value in after.entries && after.entries[vs[i].id.value] == vs[i]
    {
      PutAllLeaves(t, vs, i);
      forall w | w in changed && w.id == vs[i].id
        ensures w == vs[i]
      {
        MovedIff(raw, vs, last, w);
      }
      PutAllKeeps(PutAll(t, vs), changed, vs[i]);
    }
  }

  /** A vehicle's baseline is where it was last written: now if it has moved, as before if not. */
  lemma {:induction false} BaselineIs(raw: bool, vs: seq<Vehicle>, last: Positions, i: nat)
    requires AllNamed(vs) && DistinctIds(vs) && i < |vs|
    ensures var k, after := vs[i].id.value, Captured(raw, vs, last).last;
            k in after && after[k] == if !raw && Unmoved(vs[i], last) then last[k] else PositionOf(vs[i])
  {
    var front, v := vs[..|vs| - 1], vs[|vs| - 1];
    if i < |vs| - 1 {
      BaselineIs(raw, front, last, i);
    } else {
      DistinctAreMoved(raw, front, last);
      assert !Names(front, v.id.value);
    }
  }
}
