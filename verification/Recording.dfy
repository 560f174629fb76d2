/**
 * The recorder (RecordingManager.ts:264-590): which lines it writes, and what
 * every file it writes satisfies.  A line is its parsed content.
 */
module Recording {
  import opened Common
  import opened RenderState
  import opened Snapshots

  datatype Line =
    | EventLine(timestamp: int, event: Event)
    | KeyframeLine(timestamp: int, state: KeyframeState)

  /** The events of a file, in order, without the keyframes. */
  function EventsOf(lines: seq<Line>): seq<Event> {
    if lines == [] then []
    else
      var front, last := EventsOf(lines[..|lines| - 1]), lines[|lines| - 1];
      if last.EventLine? then front + [last.event] else front
  }

  // ---- What a good file is ----

  /** A keyframe stands for the events before it: exactly in raw mode, and to the eye in live mode. */
  ghost predicate Restores(raw: bool, k: KeyframeState, events: seq<Event>) {
    if raw then Loaded(k) == Fold(events) else Shows(Loaded(k), Fold(events))
  }

  ghost predicate Faithful(lines: seq<Line>, raw: bool) {
    forall i :: 0 <= i < |lines| && lines[i].KeyframeLine? ==> Restores(raw, lines[i].state, EventsOf(lines[..i]))
  }

  /** From this timestamp on an event must be followed by a keyframe. */
  function NextDue(lines: seq<Line>, interval: int): int {
    if lines == [] then interval
    else match lines[|lines| - 1]
      case KeyframeLine(ts, _) => ts + interval
      case EventLine(_, _) => NextDue(lines[..|lines| - 1], interval)
  }

  /** The last line is an event that calls for a keyframe. */
  predicate Overdue(lines: seq<Line>, interval: int) {
    && interval > 0 && lines != [] && lines[|lines| - 1].EventLine?
    && lines[|lines| - 1].timestamp >= NextDue(lines[..|lines| - 1], interval)
  }

  /** Every keyframe called for comes at once. */
  ghost predicate Paced(lines: seq<Line>, interval: int) {
    && (forall i :: 0 <= i < |lines| && Overdue(lines[..i], interval) ==> lines[i].KeyframeLine?)
    && !Overdue(lines, interval)
  }

  lemma FaithfulGrows(lines: seq<Line>, raw: bool, line: Line)
    requires Faithful(lines, raw)
    requires line.KeyframeLine? ==> Restores(raw, line.state, EventsOf(lines))
    ensures Faithful(lines + [line], raw)
    ensures EventsOf(lines + [line]) == EventsOf(lines) + if line.EventLine? then [line.event] else []
  {
    var all := lines + [line];
    assert all[..|lines|] == lines;
    forall i | 0 <= i < |all| && all[i].KeyframeLine?
      ensures Restores(raw, all[i].state, EventsOf(all[..i]))
    {
      if i < |lines| { assert all[..i] == lines[..i]; }
    }
  }

  /** An event, with the keyframe it calls for, if any. */
  function Written(lines: seq<Line>, interval: int, event: Line, keyframe: Line): seq<Line> {
    if Overdue(lines + [event], interval) then lines + [event] + [keyframe] else lines + [event]
  }

  lemma PacedGrows(lines: seq<Line>, interval: int, event: Line, keyframe: Line)
    requires Paced(lines, interval) && event.EventLine? && keyframe.KeyframeLine?
    ensures Paced(Written(lines, interval, event, keyframe), interval)
  {
    var all := Written(lines, interval, event, keyframe);
    forall i | 0 <= i < |all| && Overdue(all[..i], interval)
      ensures all[i].KeyframeLine?
    {
      if i <= |lines| {
        assert all[..i] == lines[..i];
        assert lines[..|lines|] == lines;
      } else {
        assert all[..i] == lines + [event];
      }
    }
  }

  // ---- How the writer's own state relates to the fold of what it wrote ----

  /** The dedup baseline: written vehicles sit exactly on it, tracked ones near it. */
  ghost predicate NearBaseline(tracked: Table<Vehicle>, written: Table<Vehicle>, last: Positions) {
    && (forall k :: k in tracked.entries ==> k in last && NearPosition(tracked.entries[k], last[k]))
    && (forall k :: k in written.entries ==> k in tracked.entries && k in last &&
                                             (written.entries[k].body.lat, written.entries[k].body.lon) == last[k])
  }

  ghost predicate Tracks(raw: bool, tracked: State, written: State, last: Positions) {
    if raw then tracked == written
    else
      && tracked.directions == written.directions && tracked.incidents == written.incidents
      && tracked.heatzones == written.heatzones
      && NearBaseline(tracked.vehicles, written.vehicles, last)
  }

  lemma TracksRestores(raw: bool, tracked: State, events: seq<Event>, last: Positions)
    requires Keyed(tracked) && Tracks(raw, tracked, Fold(events), last)
    ensures Restores(raw, ToKeyframe(tracked), events)
  {
    KeyframeRoundTrip(tracked);
    if !raw {
      var written := Fold(events);
      forall k | k in written.vehicles.entries
        ensures Alike(tracked.vehicles.entries[k], written.vehicles.entries[k])
      {
        assert NearPosition(tracked.vehicles.entries[k], last[k]);
      }
    }
  }

  /** Events of every kind but vehicles keep the two in step. */
  lemma OtherEventsKeepTrack(raw: bool, tracked: State, written: State, last: Positions, e: Event)
    requires Tracks(raw, tracked, written, last) && !e.VehicleEvent?
    ensures Tracks(raw, Applied(tracked, e), Applied(written, e), last)
  {
  }

  lemma {:induction false} PutAllEntries<B>(t: Table<Record<B>>, rs: seq<Record<B>>)
    ensures PutAll(t, rs).entries == t.entries + PutAll(Empty(), rs).entries
  {
    if rs != [] {
      PutAllEntries(t, rs[..|rs| - 1]);
    }
  }

  lemma {:induction false} PutKnownKeepsOrder<B>(t: Table<Record<B>>, rs: seq<Record<B>>)
    requires PutAll(Empty(), rs).entries.Keys <= t.entries.Keys
    ensures PutAll(t, rs).keys == t.keys
  {
    if rs != [] {
      var front := rs[..|rs| - 1];
      PutAllEntries(t, front);
      PutKnownKeepsOrder(t, front);
    }
  }

  /** Tracking a batch and then recording it is recording it. */
  lemma PutTwice<B>(t: Table<Record<B>>, rs: seq<Record<B>>)
    ensures PutAll(PutAll(t, rs), rs) == PutAll(t, rs)
  {
    PutAllEntries(t, rs);
    PutAllEntries(PutAll(t, rs), rs);
    PutKnownKeepsOrder(PutAll(t, rs), rs);
  }

  /** Recording the changed vehicles of a batch that has been tracked keeps the two in step. */
  lemma RecordingChangedKeepsTrack(raw: bool, tracked: State, written: State, last: Positions, changed: seq<Vehicle>)
    requires Tracks(raw, tracked, Applied(written, VehicleEvent(Some(changed))), last)
    ensures Tracks(raw, Applied(tracked, VehicleEvent(Some(changed))), Applied(written, VehicleEvent(Some(changed))), last)
  {
    if raw {
      PutTwice(written.vehicles, changed);
    } else {
      PutAllEntries(tracked.vehicles, changed);
      PutAllEntries(written.vehicles, changed);
    }
  }

  /** One vehicle of a batch: it is tracked, and it is written unless it barely moved. */
  lemma TrackOne(tracked: Table<Vehicle>, written: Table<Vehicle>, last: Positions, v: Vehicle)
    requires NearBaseline(tracked, written, last) && v.id.Some?
    ensures v.id.value in last && NearPosition(v, last[v.id.value]) ==>
              NearBaseline(PutRecord(tracked, v), written, last)
    ensures NearBaseline(PutRecord(tracked, v), PutRecord(written, v), last[v.id.value := PositionOf(v)])
  {
  }

  /** Every vehicle of a snapshot tracked. */
  function Tracking(s: State, vs: seq<Vehicle>): State {
    s.(vehicles := PutAll(s.vehicles, vs))
  }

  /** Each of the vehicles, exactly as it is here. */
  predicate Holds(t: Table<Vehicle>, vs: seq<Vehicle>)
    requires AllNamed(vs)
  {
    forall i :: 0 <= i < |vs| ==> vs[i].id.value in t.entries && t.entries[vs[i].id.value] == vs[i]
  }

  lemma NothingCaptured(raw: bool, s: State, written: State, vs: seq<Vehicle>, last: Positions)
    requires AllNamed(vs)
    ensures AllNamed(vs[..0]) && Captured(raw, vs[..0], last) == Capture([], last) && Tracking(s, vs[..0]) == s
    ensures Applied(written, VehicleEvent(Some([]))) == written
  {
  }

  lemma CapturedOneMore(raw: bool, s: State, vs: seq<Vehicle>, last: Positions, i: nat)
    requires AllNamed(vs) && i < |vs|
    ensures vs[i].id.Some? && AllNamed(vs[..i]) && AllNamed(vs[..i + 1])
    ensures Captured(raw, vs[..i + 1], last) == CapturedOne(raw, Captured(raw, vs[..i], last), vs[i])
    ensures Tracking(s, vs[..i + 1]) == Tracking(Tracking(s, vs[..i]), [vs[i]])
  {
    assert vs[..i + 1][..i] == vs[..i] && [vs[i]][..0] == [];
    assert PutAll(PutAll(s.vehicles, vs[..i]), [vs[i]]) == PutRecord(PutAll(s.vehicles, vs[..i]), vs[i]);
  }

  /** Once a snapshot is tracked and its event applied, every vehicle is as it was captured. */
  lemma {:induction false} SnapshotHolds(raw: bool, s: State, vs: seq<Vehicle>, last: Positions)
    requires AllNamed(vs)
    ensures var changed := Captured(raw, vs, last).changed;
            DistinctIds(vs) ==>
              && Holds(Applied(Tracking(s, vs), VehicleEvent(Some(changed))).vehicles, vs)
              && (changed == [] ==> Holds(Tracking(s, vs).vehicles, vs))
  {
    if DistinctIds(vs) {
      AllAreTracked(raw, s.vehicles, vs, last);
    }
  }

  /** The latest event, or 0: keyframes do not count. */
  function LatestEvent(lines: seq<Line>): int {
    if lines == [] then 0
    else
      var before, last := LatestEvent(lines[..|lines| - 1]), lines[|lines| - 1];
      if last.EventLine? && last.timestamp > before then last.timestamp else before
  }

  /** No event is later, and unless it is 0 there is one at that time; keyframes count for nothing. */
  lemma {:induction false} LatestIsLatest(lines: seq<Line>)
    ensures LatestEvent(lines) >= 0
    ensures forall i :: 0 <= i < |lines| && lines[i].EventLine? ==> lines[i].timestamp <= LatestEvent(lines)
    ensures
      LatestEvent(lines) == 0
      || exists i :: 0 <= i < |lines| && lines[i].EventLine? && lines[i].timestamp == LatestEvent(lines)
  {
    if lines != [] {
      var front := lines[..|lines| - 1];
      LatestIsLatest(front);
      if i :| 0 <= i < |front| && front[i].EventLine? && front[i].timestamp == LatestEvent(front) {
        assert lines[i] == front[i];
      }
      assert forall i :: 0 <= i < |front| ==> lines[i] == front[i];
    }
  }

  /** The writer's counters and its pacing agree with the lines, whatever has been recorded. */
  ghost predicate Paces(lines: seq<Line>, interval: int, next: int, eventCount: nat, latest: int) {
    Paced(lines, interval) && next == NextDue(lines, interval) && eventCount == |EventsOf(lines)| && latest == LatestEvent(lines)
  }

  lemma {:induction false} LineCounts(lines: seq<Line>, line: Line, interval: int)
    ensures EventsOf(lines + [line]) == EventsOf(lines) + if line.EventLine? then [line.event] else []
    ensures LatestEvent(lines + [line]) ==
            if line.EventLine? && line.timestamp > LatestEvent(lines) then line.timestamp else LatestEvent(lines)
    ensures NextDue(lines + [line], interval) ==
            if line.KeyframeLine? then line.timestamp + interval else NextDue(lines, interval)
  {
    assert (lines + [line])[..|lines|] == lines;
  }

  /** The lines an event makes, for the counters and the pacing. */
  lemma {:induction false} EventPaces(lines: seq<Line>, interval: int, next: int, eventCount: nat, latest: int,
                                      now: int, e: Event, keyframe: KeyframeState)
    requires Paces(lines, interval, next, eventCount, latest)
    ensures var all := Written(lines, interval, EventLine(now, e), KeyframeLine(now, keyframe));
            var due := interval > 0 && now >= next;
            && all == (if due then lines + [EventLine(now, e)] + [KeyframeLine(now, keyframe)] else lines + [EventLine(now, e)])
            && EventsOf(all) == EventsOf(lines) + [e]
            && Paces(all, interval, if due then now + interval else next, eventCount + 1, if now > latest then now else latest)
  {
    var one := lines + [EventLine(now, e)];
    assert one[..|lines|] == lines;
    LineCounts(lines, EventLine(now, e), interval);
    LineCounts(one, KeyframeLine(now, keyframe), interval);
    PacedGrows(lines, interval, EventLine(now, e), KeyframeLine(now, keyframe));
  }

  /** The lines an event makes, for what they restore, given the writer's state after it. */
  lemma {:induction false} EventRecorded(lines: seq<Line>, raw: bool, interval: int, now: int, e: Event,
                                         tracked: State, last: Positions)
    requires Faithful(lines, raw) && Keyed(tracked)
    requires Tracks(raw, tracked, Applied(Fold(EventsOf(lines)), e), last)
    ensures var all := Written(lines, interval, EventLine(now, e), KeyframeLine(now, ToKeyframe(tracked)));
            Faithful(all, raw) && Tracks(raw, tracked, Fold(EventsOf(all)), last)
  {
    var event, keyframe := EventLine(now, e), KeyframeLine(now, ToKeyframe(tracked));
    var one := lines + [event];
    FaithfulGrows(lines, raw, event);
    assert EventsOf(one)[..|EventsOf(lines)|] == EventsOf(lines);
    TracksRestores(raw, tracked, EventsOf(one), last);
    FaithfulGrows(one, raw, keyframe);
  }

  /**
   * In live mode a vehicle event keeps the two in step exactly when every vehicle
   * it names ends up where the dedup baseline has it.
   */
  lemma {:induction false} VehicleEventKeepsTrackIff(tracked: State, written: State, last: Positions, vs: seq<Vehicle>)
    requires Tracks(false, tracked, written, last)
    ensures var e, final := VehicleEvent(Some(vs)), PutAll(Empty(), vs).entries;
            Tracks(false, Applied(tracked, e), Applied(written, e), last) <==>
            forall k :: k in final ==> k in last && PositionOf(final[k]) == last[k]
  {
    PutAllEntries(tracked.vehicles, vs);
    PutAllEntries(written.vehicles, vs);
    hide PutAll;
  }

  const BUFFER_FLUSH_COUNT: nat := 1000

  /** What `stopRecording` tells of a finished file. */
  datatype Metadata = Metadata(duration: int, eventCount: nat)

  class RecordingManager {
    var recording: bool
    var raw: bool
    var buffer: seq<Line>
    /** What has been written to the file. */
    var file: seq<Line>
    var eventCount: nat
    var maxEventTimestamp: int
    var lastPositions: Positions
    var nextKeyframeTs: int
    const keyframeIntervalMs: int
    const keyframeState: KeyframeStateAccumulator

    /** Everything recorded so far, flushed or not. */
    ghost function Lines(): seq<Line>
      reads this
    {
      file + buffer
    }

    /** What every recording keeps. */
    ghost predicate Valid()
      reads this, keyframeState
    {
      recording ==>
        && Paces(Lines(), keyframeIntervalMs, nextKeyframeTs, eventCount, maxEventTimestamp)
        && Keyed(keyframeState.state)
    }

    /** What a recording keeps whose vehicle events come from its snapshots: its keyframes restore what they stand for. */
    ghost predicate InStep()
      reads this, keyframeState
    {
      recording ==>
        Faithful(Lines(), raw) && Tracks(raw, keyframeState.state, Fold(EventsOf(Lines())), lastPositions)
    }

    constructor (keyframeIntervalMs: int)
      ensures Valid() && InStep() && !recording && this.keyframeIntervalMs == keyframeIntervalMs && fresh(keyframeState)
    {
      this.keyframeIntervalMs := keyframeIntervalMs;
      keyframeState := new KeyframeStateAccumulator();
      recording, raw, buffer, file, lastPositions, nextKeyframeTs := false, false, [], [], map[], 0;
      eventCount, maxEventTimestamp := 0, 0;
    }

    /** `startRecording`: refused while one is in progress. */
    method StartRecording(raw: bool) returns (started: bool)
      modifies this, keyframeState
      ensures started == !old(recording)
      ensures started ==> Valid() && InStep() && recording && this.raw == raw && Lines() == []
      ensures started ==> keyframeState.state == Nothing() && lastPositions == map[]
      ensures !started ==> unchanged(this) && unchanged(keyframeState)
    {
      if recording {
        return false;
      }
      this.raw := raw;
      eventCount, maxEventTimestamp := 0, 0;
      lastPositions := map[];
      buffer, file := [], [];
      keyframeState.Clear();
      nextKeyframeTs := keyframeIntervalMs;
      recording := true;
      return true;
    }

    /** `flushBuffer`: at any moment, without effect on what is recorded. */
    method FlushBuffer()
      modifies this`buffer, this`file
      ensures file == old(Lines()) && buffer == [] && Lines() == old(Lines())
    {
      file, buffer := file + buffer, [];
    }

    /** `stopRecording`: refused when none is in progress; `elapsed` is by the wall clock. */
    method StopRecording(elapsed: int) returns (metadata: Option<Metadata>)
      requires Valid()
      modifies this`recording, this`raw, this`buffer, this`file
      ensures metadata.Some? == old(recording) && !recording
      ensures metadata.Some? ==> file == old(Lines()) && Paced(file, keyframeIntervalMs)
      ensures metadata.Some? && old(InStep()) ==> Faithful(file, old(raw))
      ensures metadata.Some? ==>
                metadata.value == Metadata(if old(raw) then LatestEvent(file) else elapsed, |EventsOf(file)|)
      ensures metadata.None? ==> raw == old(raw) && file == old(file) && buffer == old(buffer)
    {
      if !recording {
        return None;
      }
      FlushBuffer();
      recording := false;
      var duration := if raw then maxEventTimestamp else elapsed;
      raw := false;
      return Some(Metadata(duration, eventCount));
    }

    /** Recording the event next leaves the accumulator in step with the file. */
    ghost predicate MayRecord(e: Event)
      reads this, keyframeState
    {
      && Faithful(Lines(), raw)
      && Tracks(raw, Applied(keyframeState.state, e), Applied(Fold(EventsOf(Lines())), e), lastPositions)
    }

    method Push(line: Line)
      modifies this`buffer
      ensures Lines() == old(Lines()) + [line]
    {
      buffer := buffer + [line];
    }

    /** The event's line, and the keyframe it calls for, of the state after it. */
    ghost predicate Recorded(before: seq<Line>, now: int, e: Event)
      reads this, keyframeState
    {
      && Keyed(keyframeState.state)
      && Lines() == Written(before, keyframeIntervalMs, EventLine(now, e), KeyframeLine(now, ToKeyframe(keyframeState.state)))
    }

    /** The lines one event adds to the buffer: itself and the keyframe it calls for. */
    method AppendEvent(now: int, e: Event)
      requires Valid() && recording
      modifies this`buffer, this`eventCount, this`maxEventTimestamp, this`nextKeyframeTs, keyframeState
      ensures Valid() && keyframeState.state == Applied(old(keyframeState.state), e)
      ensures EventsOf(Lines()) == EventsOf(old(Lines())) + [e] && Recorded(old(Lines()), now, e)
    {
      ghost var before := Lines();
      AppliedIsKeyed(keyframeState.state, e);
      EventPaces(before, keyframeIntervalMs, nextKeyframeTs, eventCount, maxEventTimestamp, now, e,
                 ToKeyframe(Applied(keyframeState.state, e)));
      hide Paces, EventsOf, Keyed, Applied, Written, ToKeyframe;
      Push(EventLine(now, e));
      eventCount := eventCount + 1;
      if now > maxEventTimestamp {
        maxEventTimestamp := now;
      }
      keyframeState.Apply(e);
      if keyframeIntervalMs > 0 && now >= nextKeyframeTs {
        Push(KeyframeLine(now, ToKeyframe(keyframeState.state)));
        nextKeyframeTs := now + keyframeIntervalMs;
      }
    }

    /**
     * `recordEvent`.  Any event may be recorded by anybody; what keeps the
     * keyframes right is that the accumulator stays in step.
     */
    method RecordEvent(now: int, e: Event)
      requires Valid()
      modifies this`buffer, this`file, this`eventCount, this`maxEventTimestamp, this`nextKeyframeTs, keyframeState
      ensures Valid()
      ensures !recording ==> Lines() == old(Lines()) && keyframeState.state == old(keyframeState.state)
      ensures recording ==> keyframeState.state == Applied(old(keyframeState.state), e) && Recorded(old(Lines()), now, e)
      ensures recording ==> EventsOf(Lines()) == EventsOf(old(Lines())) + [e]
      ensures recording && old(MayRecord(e)) ==> InStep()
    {
      hide Applied, Keyed, Written, Paces, Faithful, Tracks, EventsOf, ToKeyframe;
      if !recording {
        return;
      }
      RecordNow(now, e);
      if |buffer| >= BUFFER_FLUSH_COUNT {
        FlushBuffer();
      }
    }

    method RecordNow(now: int, e: Event)
      requires Valid() && recording
      modifies this`buffer, this`eventCount, this`maxEventTimestamp, this`nextKeyframeTs, keyframeState
      ensures Valid() && EventsOf(Lines()) == EventsOf(old(Lines())) + [e]
      ensures keyframeState.state == Applied(old(keyframeState.state), e) && Recorded(old(Lines()), now, e)
      ensures old(MayRecord(e)) ==> InStep()
    {
      AppliedIsKeyed(keyframeState.state, e);
      ghost var step := Applied(keyframeState.state, e);
      ghost var all := Written(Lines(), keyframeIntervalMs, EventLine(now, e), KeyframeLine(now, ToKeyframe(step)));
      assert MayRecord(e) ==> Faithful(all, raw) && Tracks(raw, step, Fold(EventsOf(all)), lastPositions) by {
        if MayRecord(e) {
          EventRecorded(Lines(), raw, keyframeIntervalMs, now, e, step, lastPositions);
        }
      }
      hide Faithful, Paces, Tracks, EventsOf, Fold, Applied, Keyed, Written, ToKeyframe;
      AppendEvent(now, e);
    }

    /** In raw mode any event keeps the recording in step, and in live mode any but a vehicle one. */
    lemma StaysInStep(e: Event)
      requires recording && InStep() && (raw || !e.VehicleEvent?)
      ensures MayRecord(e)
    {
      if !raw {
        OtherEventsKeepTrack(raw, keyframeState.state, Fold(EventsOf(Lines())), lastPositions, e);
      }
    }

    /**
     * `captureVehicleSnapshot`: all are tracked, and those that moved enough are
     * recorded in one event, if any did.
     */
    method CaptureVehicleSnapshot(now: int, vehicles: seq<Vehicle>)
      requires Valid() && AllNamed(vehicles)
      modifies this`buffer, this`file, this`eventCount, this`maxEventTimestamp, this`nextKeyframeTs
      modifies this`lastPositions, keyframeState
      ensures Valid()
      ensures old(InStep()) ==> InStep()
      ensures !recording ==>
                Lines() == old(Lines()) && keyframeState.state == old(keyframeState.state) && lastPositions == old(lastPositions)
      ensures recording ==> lastPositions == Captured(raw, vehicles, old(lastPositions)).last
      ensures recording ==>
                var changed := Captured(raw, vehicles, old(lastPositions)).changed;
                var tracked := Tracking(old(keyframeState.state), vehicles);
                if changed == [] then Lines() == old(Lines()) && keyframeState.state == tracked
                else
                  var e := VehicleEvent(Some(changed));
                  keyframeState.state == Applied(tracked, e) && Recorded(old(Lines()), now, e)
                  && EventsOf(Lines()) == EventsOf(old(Lines())) + [e]
      ensures recording && DistinctIds(vehicles) ==> Holds(keyframeState.state.vehicles, vehicles)
    {
      hide Applied, Keyed, Written, Paces, Faithful, Tracks, EventsOf, ToKeyframe, Captured, Tracking, Holds, Fold;
      if !recording {
        return;
      }
      ghost var written, inStep, before := Fold(EventsOf(Lines())), InStep(), keyframeState.state;
      SnapshotHolds(raw, before, vehicles, lastPositions);
      var changed := CaptureAll(vehicles, written);
      if changed == [] {
        return;
      }
      if inStep {
        RecordingChangedKeepsTrack(raw, keyframeState.state, written, lastPositions, changed);
      }
      RecordEvent(now, VehicleEvent(Some(changed)));
    }

    /** The loop over the vehicles. */
    method CaptureAll(vehicles: seq<Vehicle>, ghost written: State) returns (changed: seq<Vehicle>)
      requires Keyed(keyframeState.state) && AllNamed(vehicles)
      modifies this`lastPositions, keyframeState
      ensures Keyed(keyframeState.state) && keyframeState.state == Tracking(old(keyframeState.state), vehicles)
      ensures Capture(changed, lastPositions) == Captured(raw, vehicles, old(lastPositions))
      ensures old(Tracks(raw, keyframeState.state, written, lastPositions)) ==>
                && Tracks(raw, keyframeState.state, Applied(written, VehicleEvent(Some(changed))), lastPositions)
                && (changed == [] ==> Tracks(raw, keyframeState.state, written, lastPositions))
    {
      hide *;
      changed := [];
      ghost var state, last := keyframeState.state, lastPositions;
      ghost var inStep := Tracks(raw, state, written, last);
      NothingCaptured(raw, state, written, vehicles, last);
      var i := 0;
      while i < |vehicles|
        invariant 0 <= i <= |vehicles| && AllNamed(vehicles[..i])
        invariant Keyed(keyframeState.state) && keyframeState.state == Tracking(state, vehicles[..i])
        invariant Capture(changed, lastPositions) == Captured(raw, vehicles[..i], last)
        invariant inStep ==> Tracks(raw, keyframeState.state, Applied(written, VehicleEvent(Some(changed))), lastPositions)
      {
        CapturedOneMore(raw, state, vehicles, last, i);
        changed := CaptureOne(vehicles[i], changed, written);
        i := i + 1;
      }
      assert vehicles[..i] == vehicles;
    }

    /** One turn of the loop over the vehicles. */
    method CaptureOne(v: Vehicle, changed0: seq<Vehicle>, ghost written: State) returns (changed: seq<Vehicle>)
      requires v.id.Some? && Keyed(keyframeState.state)
      modifies this`lastPositions, keyframeState
      ensures Keyed(keyframeState.state) && keyframeState.state == Tracking(old(keyframeState.state), [v])
      ensures Capture(changed, lastPositions) == CapturedOne(raw, Capture(changed0, old(lastPositions)), v)
      ensures old(Tracks(raw, keyframeState.state, Applied(written, VehicleEvent(Some(changed0))), lastPositions)) ==>
                Tracks(raw, keyframeState.state, Applied(written, VehicleEvent(Some(changed))), lastPositions)
    {
      changed := changed0;
      ghost var tracked := keyframeState.state;
      ghost var inStep := Tracks(raw, tracked, Applied(written, VehicleEvent(Some(changed0))), lastPositions);
      keyframeState.TrackVehicle(v);
      AppliedIsKeyed(tracked, VehicleEvent(Some([v])));
      assert [v][..0] == [] && (changed + [v])[..|changed|] == changed;
      assert PutAll(tracked.vehicles, [v]) == PutRecord(tracked.vehicles, v);
      if !raw {
        if inStep {
          TrackOne(tracked.vehicles, Applied(written, VehicleEvent(Some(changed))).vehicles, lastPositions, v);
        }
        if v.id.value in lastPositions && NearPosition(v, lastPositions[v.id.value]) {
          return;
        }
      }
      changed := changed + [v];
      lastPositions := lastPositions[v.id.value := PositionOf(v)];
    }
  }

  // ---- A live file gone wrong ----

  /** Vehicle `v`, at some place. */
  function VehicleAt(x: real): Vehicle {
    Record(Some("v"), Fix(x, x, ""))
  }

  /** Its first snapshot writes it and makes its baseline; back there it is not written again. */
  lemma BackAtBaseline()
    ensures var origin, last := [VehicleAt(0.0)], map["v" := (0.0, 0.0)];
            Captured(false, origin, map[]) == Capture(origin, last) && Captured(false, origin, last) == Capture([], last)
  {
    var origin := [VehicleAt(0.0)];
    assert origin[..0] == [] && [] + [VehicleAt(0.0)] == origin;
    assert Captured(false, [], map[]) == Capture([], map[]);
  }

  lemma PutVehicle(t: Table<Vehicle>, x: real)
    ensures PutAll(t, [VehicleAt(x)]) == Put(t, "v", VehicleAt(x))
  {
    assert [VehicleAt(x)][..0] == [];
  }

  lemma FoldOneMore(events: seq<Event>, e: Event)
    ensures Fold(events + [e]) == Applied(Fold(events), e)
  {
    assert (events + [e])[..|events|] == events;
  }

  lemma MovedAway(other: Event)
    requires other.OtherEvent?
    ensures var events := [VehicleEvent(Some([VehicleAt(0.0)]))] + [VehicleEvent(Some([VehicleAt(1.0)]))] + [other];
            Fold(events).vehicles.entries == map["v" := VehicleAt(1.0)]
  {
    var first, second := VehicleEvent(Some([VehicleAt(0.0)])), VehicleEvent(Some([VehicleAt(1.0)]));
    assert Fold([]) == Nothing() && [] + [first] == [first];
    hide Fold;
    FoldOneMore([], first);
    FoldOneMore([first], second);
    FoldOneMore([first] + [second], other);
    PutVehicle(Nothing().vehicles, 0.0);
    PutVehicle(Fold([first]).vehicles, 1.0);
  }

  /** A keyframe of the vehicle at its baseline does not restore events that have moved it. */
  lemma {:induction false} WrongKeyframe(before: seq<Line>, state: State, timestamp: int)
    requires Keyed(state) && "v" in state.vehicles.entries && state.vehicles.entries["v"] == VehicleAt(0.0)
    requires Fold(EventsOf(before)).vehicles.entries == map["v" := VehicleAt(1.0)]
    ensures !Faithful(before + [KeyframeLine(timestamp, ToKeyframe(state))], false)
  {
    var all := before + [KeyframeLine(timestamp, ToKeyframe(state))];
    assert all[..|before|] == before && all[|before|].KeyframeLine?;
    KeyframeRoundTrip(state);
    assert !Alike(VehicleAt(0.0), VehicleAt(1.0));
    hide Fold, EventsOf, ToKeyframe, Loaded, Keyed;
    assert !Restores(false, ToKeyframe(state), EventsOf(before));
  }

  lemma DueAtTen(first: Event, second: Event, third: Event)
    ensures var lines := [EventLine(0, first)] + [EventLine(1, second)] + [EventLine(10, third)];
            Overdue(lines, 10) && EventsOf(lines) == [first] + [second] + [third]
  {
    var one, two := [EventLine(0, first)], [EventLine(0, first)] + [EventLine(1, second)];
    assert [] + [EventLine(0, first)] == one && (two + [EventLine(10, third)])[..2] == two;
    LineCounts([], EventLine(0, first), 10);
    LineCounts(one, EventLine(1, second), 10);
    LineCounts(two, EventLine(10, third), 10);
  }

  /**
   * What a recorder goes through, in live mode with a keyframe due at 10: a
   * snapshot; a vehicle event recorded past the snapshots, which moves the
   * vehicle; a snapshot that has it back at its baseline and so writes nothing;
   * and an event that calls for a keyframe.  That keyframe does not restore what
   * the file says.
   */
  lemma {:induction false} ForeignVehiclesSpoilFile()
    ensures var origin, foreign, other := [VehicleAt(0.0)], VehicleEvent(Some([VehicleAt(1.0)])), OtherEvent("waypoint");
            var first := Captured(false, origin, map[]);
            var second := Captured(false, origin, first.last);
            var written := VehicleEvent(Some(first.changed));
            var state := Applied(Applied(Tracking(Nothing(), origin), written), foreign);
            var lines := [EventLine(0, written)] + [EventLine(1, foreign)] + [EventLine(10, other)];
            && second.changed == [] && Keyed(Applied(Tracking(state, origin), other))
            && Overdue(lines, 10)
            && !Faithful(lines + [KeyframeLine(10, ToKeyframe(Applied(Tracking(state, origin), other)))], false)
  {
    var origin, foreign, other := [VehicleAt(0.0)], VehicleEvent(Some([VehicleAt(1.0)])), OtherEvent("waypoint");
    var written := VehicleEvent(Some(origin));
    var state := Applied(Applied(Tracking(Nothing(), origin), written), foreign);
    assert Applied(Tracking(state, origin), other) == Tracking(state, origin) == Applied(state, written);
    BackAtBaseline();
    AppliedIsKeyed(Nothing(), written);
    PutVehicle(state.vehicles, 0.0);
    hide Fold, EventsOf, Captured, Faithful, PutAll, ToKeyframe, Keyed, Overdue, Applied, NextDue;
    AppliedIsKeyed(Tracking(Nothing(), origin), written);
    AppliedIsKeyed(Applied(Tracking(Nothing(), origin), written), foreign);
    AppliedIsKeyed(state, written);
    DueAtTen(written, foreign, other);
    MovedAway(other);
    WrongKeyframe([EventLine(0, written)] + [EventLine(1, foreign)] + [EventLine(10, other)], Tracking(state, origin), 10);
  }
}
