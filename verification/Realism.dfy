/**
 * The realism engine's store-and-forward (RealismEngine.ts:78-117, 193-278),
 * under one configuration and a clock that never runs back.
 *
 * Noise, jitter and connectivity transitions are arbitrary: each sample comes
 * with a draw.  What a device's samples become is followed in a history.
 */
module Realism {
  import opened Common

  datatype Conn = Connected | Degraded | Disconnected

  datatype Config = Config(reportingPeriodMs: real, storeAndForward: bool, maxBufferPerDevice: nat, emitStaleAfterMs: real)

  /** `truth` stands for what is reported as it was ingested, `fix` for the position with its noise. */
  datatype Sample = Sample(id: string, timestamp: real, connected: bool, truth: string, fix: string)

  /** The outcome of the random choices behind one sample. */
  datatype Draw = Draw(conn: Conn, jitter: real, fix: string)

  datatype Device = Device(
    truth: string,
    conn: Conn,
    lastStepAt: real,
    lastIngestAt: real,
    nextEmitAt: real,
    buffer: seq<Sample>)

  /** One device id: its state, if it has one, and what became of every sample built for it. */
  datatype Slot = Slot(device: Option<Device>, built: seq<Sample>, published: seq<Sample>, lost: seq<Sample>)

  function NoSlot(): Slot {
    Slot(None, [], [], [])
  }

  // ---- The two operations, for one id ----

  /** The device after ingesting: new, or heard from again. */
  function Refreshed(device: Option<Device>, truth: string, t: real): Device {
    match device
    case Some(d) => d.(truth := truth, lastIngestAt := t)
    case None => Device(truth, Connected, t, t, t, [])
  }

  function Ingested(s: Slot, truth: string, t: real): Slot {
    s.(device := Some(Refreshed(s.device, truth, t)))
  }

  /** The source has gone quiet. */
  predicate Stale(d: Device, t: real, cfg: Config) {
    cfg.emitStaleAfterMs > 0.0 && t - d.lastIngestAt > cfg.emitStaleAfterMs
  }

  function BuiltSample(id: string, truth: string, t: real, draw: Draw): Sample {
    Sample(id, t, draw.conn != Disconnected, truth, draw.fix)
  }

  /** The device after a sample: its link as drawn, its next sample at least 50 ms on. */
  function Stepped(d: Device, t: real, draw: Draw, cfg: Config): Device {
    d.(conn := draw.conn, lastStepAt := t, nextEmitAt := t + Max(50.0, cfg.reportingPeriodMs + draw.jitter))
  }

  function Evicted(s: Slot, d: Device): Slot {
    s.(device := None, lost := s.lost + d.buffer)
  }

  function Dropped(s: Slot, d: Device, x: Sample): Slot {
    s.(device := Some(d), built := s.built + [x], lost := s.lost + [x])
  }

  /** Stored behind the backlog; the oldest sample goes when there are too many. */
  function Stored(s: Slot, d: Device, x: Sample, bound: nat): Slot {
    var grown := d.buffer + [x];
    if |grown| > bound then
      s.(device := Some(d.(buffer := grown[1..])), built := s.built + [x], lost := s.lost + [grown[0]])
    else s.(device := Some(d.(buffer := grown)), built := s.built + [x])
  }

  /** Published, behind the backlog when the device was out of reach until now. */
  function Emitted(s: Slot, d: Device, x: Sample, back: bool): Slot {
    if back then
      s.(device := Some(d.(buffer := [])), built := s.built + [x], published := s.published + d.buffer + [x])
    else s.(device := Some(d), built := s.built + [x], published := s.published + [x])
  }

  /** One round of the tick's loop. */
  function Ticked(s: Slot, id: string, t: real, draw: Draw, cfg: Config): Slot {
    if s.device.None? then s
    else
      var d := s.device.value;
      if Stale(d, t, cfg) then Evicted(s, d)
      else if d.nextEmitAt > t then s
      else
        var x, next := BuiltSample(id, d.truth, t, draw), Stepped(d, t, draw, cfg);
        if draw.conn == Disconnected then
          if cfg.storeAndForward then Stored(s, next, x, cfg.maxBufferPerDevice) else Dropped(s, next, x)
        else Emitted(s, next, x, d.conn == Disconnected && |d.buffer| > 0)
  }

  // ---- What always holds of a device id ----

  predicate Increasing(ss: seq<Sample>) {
    forall i, j :: 0 <= i < j < |ss| ==> ss[i].timestamp < ss[j].timestamp
  }

  predicate AllBefore(ss: seq<Sample>, t: real) {
    forall i :: 0 <= i < |ss| ==> ss[i].timestamp < t
  }

  predicate AllWithin(ss: seq<Sample>, t: real) {
    forall i :: 0 <= i < |ss| ==> ss[i].timestamp <= t
  }

  function Buffered(s: Slot): seq<Sample> {
    if s.device.Some? then s.device.value.buffer else []
  }

  /** What has been published, and then what is to be published first. */
  function Outgoing(s: Slot): seq<Sample> {
    s.published + Buffered(s)
  }

  /** A device that can be heard has nothing stored, and nobody stores more than allowed. */
  predicate WellBuffered(s: Slot, cfg: Config) {
    && (s.device.Some? && s.device.value.conn != Disconnected ==> Buffered(s) == [])
    && |Buffered(s)| <= cfg.maxBufferPerDevice
  }

  /** Every sample built is published, buffered or lost, exactly once. */
  predicate Accounted(s: Slot) {
    multiset(s.built) == multiset(s.published) + multiset(Buffered(s)) + multiset(s.lost)
  }

  /** In order of time, and earlier than any sample still to come; `now` is the last clock reading. */
  predicate InTime(ss: seq<Sample>, device: Option<Device>, now: real, cfg: Config) {
    && Increasing(ss)
    && match device
       case None => AllBefore(ss, now)
       case Some(d) =>
         && AllBefore(ss, d.nextEmitAt)
         && d.lastIngestAt <= now
         && (cfg.emitStaleAfterMs > 0.0 ==> AllWithin(ss, d.lastIngestAt + cfg.emitStaleAfterMs))
  }

  predicate AllOf(ss: seq<Sample>, id: string) {
    forall i :: 0 <= i < |ss| ==> ss[i].id == id
  }

  /** What is stored for an id are its own samples. */
  predicate Owned(s: Slot, id: string) {
    AllOf(Buffered(s), id)
  }

  ghost predicate Sound(s: Slot, now: real, cfg: Config) {
    && WellBuffered(s, cfg)
    && Accounted(s)
    && InTime(s.built, s.device, now, cfg)
    && InTime(Outgoing(s), s.device, now, cfg)
  }

  lemma NoSlotIsSound(now: real, cfg: Config)
    ensures Sound(NoSlot(), now, cfg)
  {
  }

  lemma LaterClock(s: Slot, now: real, t: real, cfg: Config)
    requires Sound(s, now, cfg) && now <= t
    ensures Sound(s, t, cfg)
  {
  }

  // ---- How order in time survives each kind of step ----

  /** A device is re-created after its last sample: eviction waits until then, and the clock does not run back. */
  lemma RefreshKeepsTime(ss: seq<Sample>, device: Option<Device>, now: real, truth: string, t: real, cfg: Config)
    requires InTime(ss, device, now, cfg) && now <= t
    ensures InTime(ss, Some(Refreshed(device, truth, t)), t, cfg)
  {
  }

  lemma EvictionKeepsTime(ss: seq<Sample>, d: Device, now: real, t: real, cfg: Config)
    requires InTime(ss, Some(d), now, cfg) && Stale(d, t, cfg)
    ensures InTime(ss, None, t, cfg)
  {
  }

  /** A device in due time for its next sample. */
  predicate Due(d: Device, now: real, t: real, cfg: Config) {
    now <= t && !Stale(d, t, cfg) && d.nextEmitAt <= t
  }

  lemma StepKeepsTime(ss: seq<Sample>, d: Device, now: real, t: real, draw: Draw, cfg: Config)
    requires InTime(ss, Some(d), now, cfg) && Due(d, now, t, cfg)
    ensures InTime(ss, Some(Stepped(d, t, draw, cfg)), t, cfg)
  {
  }

  lemma NextSampleKeepsTime(ss: seq<Sample>, x: Sample, d: Device, now: real, t: real, draw: Draw, cfg: Config)
    requires InTime(ss, Some(d), now, cfg) && Due(d, now, t, cfg) && x.timestamp == t
    ensures InTime(ss + [x], Some(Stepped(d, t, draw, cfg)), t, cfg)
  {
    assert forall i :: 0 <= i < |ss| ==> (ss + [x])[i] == ss[i];
  }

  /** The buffer is no part of it. */
  lemma AnyBuffer(ss: seq<Sample>, d: Device, buffer: seq<Sample>, t: real, cfg: Config)
    requires InTime(ss, Some(d), t, cfg)
    ensures InTime(ss, Some(d.(buffer := buffer)), t, cfg)
  {
  }

  lemma RemovalKeepsTime(a: seq<Sample>, b: seq<Sample>, d: Device, t: real, cfg: Config)
    requires b != [] && InTime(a + b, Some(d), t, cfg)
    ensures InTime(a + b[1..], Some(d), t, cfg)
  {
    var all, rest := a + b, a + b[1..];
    assert forall i :: 0 <= i < |rest| ==> rest[i] == all[if i < |a| then i else i + 1];
  }

  lemma PrefixKeepsTime(a: seq<Sample>, b: seq<Sample>, device: Option<Device>, t: real, cfg: Config)
    requires InTime(a + b, device, t, cfg)
    ensures InTime(a, device, t, cfg)
  {
    assert forall i :: 0 <= i < |a| ==> a[i] == (a + b)[i];
  }

  // ---- Each kind of step keeps a slot sound ----

  lemma IngestKeepsSound(s: Slot, now: real, truth: string, t: real, cfg: Config)
    requires Sound(s, now, cfg) && now <= t
    ensures Sound(Ingested(s, truth, t), t, cfg)
  {
    RefreshKeepsTime(s.built, s.device, now, truth, t, cfg);
    RefreshKeepsTime(Outgoing(s), s.device, now, truth, t, cfg);
    assert Outgoing(Ingested(s, truth, t)) == Outgoing(s);
  }

  lemma EvictionKeepsSound(s: Slot, d: Device, now: real, t: real, cfg: Config)
    requires Sound(s, now, cfg) && s.device == Some(d) && Stale(d, t, cfg)
    ensures Sound(Evicted(s, d), t, cfg)
  {
    EvictionKeepsTime(s.built, d, now, t, cfg);
    EvictionKeepsTime(Outgoing(s), d, now, t, cfg);
    PrefixKeepsTime(s.published, d.buffer, None, t, cfg);
    assert Outgoing(Evicted(s, d)) == s.published;
  }

  lemma DroppingKeepsSound(s: Slot, d: Device, now: real, x: Sample, t: real, draw: Draw, cfg: Config)
    requires Sound(s, now, cfg) && s.device == Some(d) && Due(d, now, t, cfg) && x.timestamp == t
    requires draw.conn == Disconnected
    ensures Sound(Dropped(s, Stepped(d, t, draw, cfg), x), t, cfg)
  {
    NextSampleKeepsTime(s.built, x, d, now, t, draw, cfg);
    StepKeepsTime(Outgoing(s), d, now, t, draw, cfg);
    assert Outgoing(Dropped(s, Stepped(d, t, draw, cfg), x)) == Outgoing(s);
  }

  lemma BagOfConcat(a: seq<Sample>, b: seq<Sample>)
    ensures multiset(a + b) == multiset(a) + multiset(b)
  {
  }

  /** One sample in, one out. */
  lemma Balance(built: multiset<Sample>, published: multiset<Sample>, buffer: multiset<Sample>, lost: multiset<Sample>,
                x: multiset<Sample>, gone: multiset<Sample>, kept: multiset<Sample>)
    requires built == published + buffer + lost && buffer + x == gone + kept
    ensures built + x == published + kept + (lost + gone)
  {
    forall e: Sample
      ensures (built + x)[e] == (published + kept + (lost + gone))[e]
    {
      assert (buffer + x)[e] == (gone + kept)[e];
      assert (published + buffer + lost)[e] == published[e] + buffer[e] + lost[e];
    }
  }

  lemma StoringIsAccounted(s: Slot, d: Device, x: Sample, bound: nat)
    requires Accounted(s) && Buffered(s) == d.buffer
    ensures Accounted(Stored(s, d, x, bound))
  {
    var grown := d.buffer + [x];
    var gone, kept := if |grown| > bound then [grown[0]] else [], if |grown| > bound then grown[1..] else grown;
    assert grown == gone + kept && s.lost + [] == s.lost;
    BagOfConcat(s.built, [x]);
    BagOfConcat(d.buffer, [x]);
    BagOfConcat(gone, kept);
    BagOfConcat(s.lost, gone);
    Balance(multiset(s.built), multiset(s.published), multiset(d.buffer), multiset(s.lost), multiset([x]),
            multiset(gone), multiset(kept));
  }

  /** A sample stored: in order behind what is stored already; the oldest goes when the buffer is full. */
  lemma StoringKeepsTime(s: Slot, d: Device, now: real, x: Sample, t: real, draw: Draw, cfg: Config)
    requires InTime(Outgoing(s), Some(d), now, cfg) && s.device == Some(d) && Due(d, now, t, cfg) && x.timestamp == t
    ensures var after := Stored(s, Stepped(d, t, draw, cfg), x, cfg.maxBufferPerDevice);
            InTime(Outgoing(after), after.device, t, cfg)
  {
    var after := Stored(s, Stepped(d, t, draw, cfg), x, cfg.maxBufferPerDevice);
    var next, grown := Stepped(d, t, draw, cfg), d.buffer + [x];
    NextSampleKeepsTime(Outgoing(s), x, d, now, t, draw, cfg);
    assert Outgoing(s) + [x] == s.published + grown;
    if |grown| > cfg.maxBufferPerDevice {
      RemovalKeepsTime(s.published, grown, next, t, cfg);
    }
    AnyBuffer(Outgoing(after), next, Buffered(after), t, cfg);
  }

  lemma StoringKeepsSound(s: Slot, d: Device, now: real, x: Sample, t: real, draw: Draw, cfg: Config)
    requires Sound(s, now, cfg) && s.device == Some(d) && Due(d, now, t, cfg) && x.timestamp == t
    requires draw.conn == Disconnected
    ensures Sound(Stored(s, Stepped(d, t, draw, cfg), x, cfg.maxBufferPerDevice), t, cfg)
  {
    var next := Stepped(d, t, draw, cfg);
    StoringIsAccounted(s, next, x, cfg.maxBufferPerDevice);
    StoringKeepsTime(s, d, now, x, t, draw, cfg);
    NextSampleKeepsTime(s.built, x, d, now, t, draw, cfg);
    AnyBuffer(s.built + [x], next, Buffered(Stored(s, next, x, cfg.maxBufferPerDevice)), t, cfg);
  }

  /** What goes out is the backlog, and the new sample behind it. */
  lemma EmittedInFull(s: Slot, d: Device, x: Sample, back: bool)
    requires Buffered(s) == d.buffer && (back || d.buffer == [])
    ensures var after := Emitted(s, d, x, back);
            && after.published == Outgoing(s) + [x] && Outgoing(after) == after.published && Buffered(after) == []
            && (Accounted(s) ==> Accounted(after))
  {
  }

  lemma EmittingKeepsSound(s: Slot, d: Device, now: real, x: Sample, t: real, draw: Draw, cfg: Config, back: bool)
    requires Sound(s, now, cfg) && s.device == Some(d) && Due(d, now, t, cfg) && x.timestamp == t
    requires back || d.buffer == []
    ensures Sound(Emitted(s, Stepped(d, t, draw, cfg), x, back), t, cfg)
  {
    var next := Stepped(d, t, draw, cfg);
    EmittedInFull(s, next, x, back);
    NextSampleKeepsTime(s.built, x, d, now, t, draw, cfg);
    NextSampleKeepsTime(Outgoing(s), x, d, now, t, draw, cfg);
    AnyBuffer(s.built + [x], next, [], t, cfg);
    AnyBuffer(Outgoing(s) + [x], next, [], t, cfg);
    assert d.buffer == [] ==> next.(buffer := []) == next;
  }

  lemma TickKeepsOwned(s: Slot, id: string, t: real, draw: Draw, cfg: Config)
    requires Owned(s, id)
    ensures Owned(Ticked(s, id, t, draw, cfg), id)
  {
    hide Stale;
  }

  lemma TickKeepsSound(s: Slot, now: real, id: string, t: real, draw: Draw, cfg: Config)
    requires Sound(s, now, cfg) && now <= t
    ensures Sound(Ticked(s, id, t, draw, cfg), t, cfg)
  {
    if s.device.None? || (!Stale(s.device.value, t, cfg) && s.device.value.nextEmitAt > t) {
      LaterClock(s, now, t, cfg);
    } else {
      var d, x := s.device.value, BuiltSample(id, s.device.value.truth, t, draw);
      if Stale(d, t, cfg) {
        EvictionKeepsSound(s, d, now, t, cfg);
      } else if draw.conn != Disconnected {
        EmittingKeepsSound(s, d, now, x, t, draw, cfg, d.conn == Disconnected && |d.buffer| > 0);
      } else if cfg.storeAndForward {
        StoringKeepsSound(s, d, now, x, t, draw, cfg);
      } else {
        DroppingKeepsSound(s, d, now, x, t, draw, cfg);
      }
    }
  }

  // ---- Every run of one device id ----

  datatype Step = Ingest(truth: string, t: real) | Tick(t: real, draw: Draw)

  predicate ClockAdvances(steps: seq<Step>) {
    forall i, j :: 0 <= i < j < |steps| ==> steps[i].t <= steps[j].t
  }

  function Run(id: string, steps: seq<Step>, cfg: Config): Slot {
    if steps == [] then NoSlot()
    else
      var s := Run(id, steps[..|steps| - 1], cfg);
      match steps[|steps| - 1]
      case Ingest(truth, t) => Ingested(s, truth, t)
      case Tick(t, draw) => Ticked(s, id, t, draw, cfg)
  }

  lemma {:induction false} RunIsSound(id: string, steps: seq<Step>, cfg: Config)
    requires ClockAdvances(steps) && steps != []
    ensures Sound(Run(id, steps, cfg), steps[|steps| - 1].t, cfg)
  {
    var front, last := steps[..|steps| - 1], steps[|steps| - 1];
    var now := if front == [] then last.t else front[|front| - 1].t;
    if front != [] {
      RunIsSound(id, front, cfg);
    } else {
      NoSlotIsSound(now, cfg);
    }
    match last {
      case Ingest(truth, t) => IngestKeepsSound(Run(id, front, cfg), now, truth, t, cfg);
      case Tick(t, draw) => TickKeepsSound(Run(id, front, cfg), now, id, t, draw, cfg);
    }
  }

  /**
   * Published timestamps strictly increase over all batches, also across
   * evictions and re-creations; buffers stay within bound and are empty while
   * the device can be heard; and no sample is lost track of or sent twice.
   */
  lemma {:induction false} RealismGuarantees(id: string, steps: seq<Step>, cfg: Config)
    requires ClockAdvances(steps)
    ensures var s := Run(id, steps, cfg);
            && Increasing(s.published) && WellBuffered(s, cfg) && Accounted(s)
            && (forall x :: x in s.published ==> multiset(s.published)[x] == 1 && x !in s.lost && x !in Buffered(s))
  {
    var s := Run(id, steps, cfg);
    if steps != [] {
      RunIsSound(id, steps, cfg);
    } else {
      NoSlotIsSound(0.0, cfg);
    }
    assert forall i :: 0 <= i < |s.published| ==> Outgoing(s)[i] == s.published[i];
    forall x | x in s.published
      ensures multiset(s.published)[x] == 1 && x !in s.lost && x !in Buffered(s)
    {
      IncreasingOccursOnce(s.built, x);
      assert x in multiset(s.published) && multiset(s.built)[x] <= 1;
      assert x in s.lost ==> x in multiset(s.lost);
      assert x in Buffered(s) ==> x in multiset(Buffered(s));
    }
  }

  lemma {:induction false} IncreasingOccursOnce(ss: seq<Sample>, x: Sample)
    requires Increasing(ss)
    ensures multiset(ss)[x] <= 1
  {
    if ss != [] {
      var front, last := ss[..|ss| - 1], ss[|ss| - 1];
      assert ss == front + [last];
      IncreasingOccursOnce(front, x);
      if last == x {
        assert x !in front;
        assert x !in multiset(front);
      }
    }
  }

  // ---- The engine ----

  datatype Update = Update(id: string, truth: string)

  /** Ingesting the updates for one id, in order. */
  function IngestedAll(s: Slot, updates: seq<Update>, id: string, t: real): Slot {
    if updates == [] then s
    else
      var before, u := IngestedAll(s, updates[..|updates| - 1], id, t), updates[|updates| - 1];
      if u.id == id then Ingested(before, u.truth, t) else before
  }

  function SamplesOf(batch: seq<Sample>, id: string): seq<Sample> {
    if batch == [] then []
    else
      var front, last := SamplesOf(batch[..|batch| - 1], id), batch[|batch| - 1];
      if last.id == id then front + [last] else front
  }

  lemma {:induction false} SamplesOfOne(batch: seq<Sample>, out: seq<Sample>, from: string, id: string)
    requires AllOf(out, from)
    ensures SamplesOf(batch + out, id) == SamplesOf(batch, id) + if id == from then out else []
  {
    if out == [] {
      assert batch + out == batch;
    } else {
      var n := |out| - 1;
      assert (batch + out)[..|batch + out| - 1] == batch + out[..n];
      assert out == out[..n] + [out[n]];
      SamplesOfOne(batch, out[..n], from, id);
    }
  }

  /** The slot of an id, from the engine's map of devices and the histories. */
  function SlotIn(devices: map<string, Device>, histories: map<string, Slot>, id: string): Slot {
    (if id in histories then histories[id] else NoSlot()).(device := if id in devices then Some(devices[id]) else None)
  }

  ghost predicate AllSound(devices: map<string, Device>, histories: map<string, Slot>, now: real, cfg: Config) {
    forall id: string :: Sound(SlotIn(devices, histories, id), now, cfg) && Owned(SlotIn(devices, histories, id), id)
  }

  /** Where a tick stands: `waiting` ids are still to be visited, and `sent` has been published for the id. */
  predicate Halfway(was: Slot, s: Slot, waiting: bool, sent: seq<Sample>, id: string, t: real, draw: Draw, cfg: Config) {
    && s == (if waiting then was else Ticked(was, id, t, draw, cfg))
    && s.published == was.published + sent
  }

  ghost predicate AllHalfway(d0: map<string, Device>, h0: map<string, Slot>, d1: map<string, Device>, h1: map<string, Slot>,
                             todo: set<string>, batch: seq<Sample>, t: real, draws: string -> Draw, cfg: Config) {
    forall id: string ::
      Halfway(SlotIn(d0, h0, id), SlotIn(d1, h1, id), id in todo, SamplesOf(batch, id), id, t, draws(id), cfg)
  }

  /** One device visited. */
  predicate Visited(d1: map<string, Device>, h1: map<string, Slot>, d2: map<string, Device>, h2: map<string, Slot>,
                    id: string, other: string) {
    other != id ==> SlotIn(d2, h2, other) == SlotIn(d1, h1, other)
  }

  lemma VisitAdvances(d0: map<string, Device>, h0: map<string, Slot>, d1: map<string, Device>, h1: map<string, Slot>,
                      d2: map<string, Device>, h2: map<string, Slot>, todo: set<string>, batch: seq<Sample>,
                      id: string, out: seq<Sample>, t: real, draws: string -> Draw, cfg: Config)
    requires AllHalfway(d0, h0, d1, h1, todo, batch, t, draws, cfg) && id in todo && AllOf(out, id)
    requires Halfway(SlotIn(d1, h1, id), SlotIn(d2, h2, id), false, out, id, t, draws(id), cfg)
    requires forall other :: Visited(d1, h1, d2, h2, id, other)
    ensures AllHalfway(d0, h0, d2, h2, todo - {id}, batch + out, t, draws, cfg)
  {
    forall other: string
      ensures Halfway(SlotIn(d0, h0, other), SlotIn(d2, h2, other), other in todo - {id},
                      SamplesOf(batch + out, other), other, t, draws(other), cfg)
    {
      assert Halfway(SlotIn(d0, h0, other), SlotIn(d1, h1, other), other in todo,
                     SamplesOf(batch, other), other, t, draws(other), cfg);
      assert Visited(d1, h1, d2, h2, id, other);
      SamplesOfOne(batch, out, id, other);
    }
  }

  lemma TickedAllIsSound(d0: map<string, Device>, h0: map<string, Slot>, d1: map<string, Device>, h1: map<string, Slot>,
                         batch: seq<Sample>, now: real, t: real, draws: string -> Draw, cfg: Config)
    requires AllSound(d0, h0, now, cfg) && now <= t
    requires AllHalfway(d0, h0, d1, h1, {}, batch, t, draws, cfg)
    ensures AllSound(d1, h1, t, cfg)
  {
    forall id: string
      ensures Sound(SlotIn(d1, h1, id), t, cfg) && Owned(SlotIn(d1, h1, id), id)
    {
      assert Halfway(SlotIn(d0, h0, id), SlotIn(d1, h1, id), false, SamplesOf(batch, id), id, t, draws(id), cfg);
      TickKeepsSound(SlotIn(d0, h0, id), now, id, t, draws(id), cfg);
      TickKeepsOwned(SlotIn(d0, h0, id), id, t, draws(id), cfg);
    }
  }

  ghost predicate AllIngested(d0: map<string, Device>, d1: map<string, Device>, histories: map<string, Slot>,
                              updates: seq<Update>, t: real) {
    forall id: string :: SlotIn(d1, histories, id) == IngestedAll(SlotIn(d0, histories, id), updates, id, t)
  }

  lemma IngestAdvances(d0: map<string, Device>, d1: map<string, Device>, histories: map<string, Slot>,
                       updates: seq<Update>, u: Update, t: real)
    requires AllIngested(d0, d1, histories, updates, t)
    ensures var known := if u.id in d1 then Some(d1[u.id]) else None;
            AllIngested(d0, d1[u.id := Refreshed(known, u.truth, t)], histories, updates + [u], t)
  {
    assert (updates + [u])[..|updates + [u]| - 1] == updates;
  }

  lemma IngestedAllIsSound(d0: map<string, Device>, d1: map<string, Device>, histories: map<string, Slot>,
                           updates: seq<Update>, now: real, t: real, cfg: Config)
    requires AllSound(d0, histories, now, cfg) && now <= t && AllIngested(d0, d1, histories, updates, t)
    ensures AllSound(d1, histories, t, cfg)
  {
    forall id: string
      ensures Sound(SlotIn(d1, histories, id), t, cfg) && Owned(SlotIn(d1, histories, id), id)
    {
      IngestAllKeepsSound(SlotIn(d0, histories, id), now, updates, id, t, cfg);
    }
  }

  class RealismEngine {
    const cfg: Config
    var devices: map<string, Device>
    var ticking: bool
    /** What became of the samples of each id, and the last clock reading. */
    ghost var histories: map<string, Slot>
    ghost var clock: real

    ghost predicate Valid()
      reads `devices, `histories, `clock
    {
      AllSound(devices, histories, clock, cfg)
    }

    constructor (cfg: Config, ghost now: real)
      ensures Valid() && this.cfg == cfg && clock == now && !ticking && devices == map[] && histories == map[]
    {
      this.cfg := cfg;
      devices, ticking, histories, clock := map[], false, map[], now;
      new;
      NoSlotIsSound(now, cfg);
      assert forall id :: SlotIn(devices, histories, id) == NoSlot();
    }

    /** `ingest`, enabled. */
    method Ingest(updates: seq<Update>, t: real)
      requires Valid() && clock <= t
      modifies `devices, `clock
      ensures Valid() && clock == t
      ensures AllIngested(old(devices), devices, histories, updates, t)
    {
      var i := 0;
      while i < |updates|
        invariant 0 <= i <= |updates|
        invariant AllIngested(old(devices), devices, histories, updates[..i], t)
        invariant AllSound(old(devices), histories, clock, cfg) && clock == old(clock)
      {
        var u := updates[i];
        IngestAdvances(old(devices), devices, histories, updates[..i], u, t);
        assert updates[..i + 1] == updates[..i] + [u];
        if u.id in devices {
          devices := devices[u.id := devices[u.id].(truth := u.truth, lastIngestAt := t)];
        } else {
          devices := devices[u.id := Device(u.truth, Connected, t, t, t, [])];
        }
        i := i + 1;
      }
      assert updates[..i] == updates;
      IngestedAllIsSound(old(devices), devices, histories, updates, clock, t, cfg);
      clock := t;
    }

    /**
     * `tick`, up to the hand-over of the batch: skipped while an earlier batch
     * is still being published.  Each id is ticked once, and the batch holds
     * what was published for it.
     */
    method Tick(t: real, draws: string -> Draw) returns (batch: seq<Sample>)
      requires Valid() && clock <= t
      modifies this
      ensures Valid()
      ensures old(ticking) ==>
                batch == [] && ticking && clock == old(clock) && devices == old(devices) && histories == old(histories)
      ensures !old(ticking) ==>
                && ticking == (batch != []) && clock == t
                && AllHalfway(old(devices), old(histories), devices, histories, {}, batch, t, draws, cfg)
    {
      batch := [];
      if ticking {
        return;
      }
      var todo := devices.Keys;
      while todo != {}
        invariant todo <= devices.Keys
        invariant AllHalfway(old(devices), old(histories), devices, histories, todo, batch, t, draws, cfg)
        invariant AllSound(old(devices), old(histories), old(clock), cfg) && clock == old(clock)
        decreases todo
      {
        var id :| id in todo;
        ghost var d1, h1 := devices, histories;
        assert Halfway(SlotIn(old(devices), old(histories), id), SlotIn(d1, h1, id), true,
                       SamplesOf(batch, id), id, t, draws(id), cfg);
        var out := TickDevice(id, t, draws(id));
        VisitAdvances(old(devices), old(histories), d1, h1, devices, histories, todo, batch, id, out, t, draws, cfg);
        batch := batch + out;
        todo := todo - {id};
      }
      TickedAllIsSound(old(devices), old(histories), devices, histories, batch, clock, t, draws, cfg);
      ticking := batch != [];
      clock := t;
    }

    /** The publish has been answered, or has failed. */
    method FinishPublish()
      requires Valid()
      modifies `ticking
      ensures Valid() && !ticking
    {
      ticking := false;
    }

    /** The body of the tick's loop; `out` is what it adds to the batch. */
    method TickDevice(id: string, t: real, draw: Draw) returns (out: seq<Sample>)
      requires id in devices && Owned(SlotIn(devices, histories, id), id)
      modifies `devices, `histories
      ensures Halfway(SlotIn(old(devices), old(histories), id), SlotIn(devices, histories, id), false, out, id, t, draw, cfg)
      ensures forall other :: Visited(old(devices), old(histories), devices, histories, id, other)
      ensures devices.Keys == old(devices.Keys) || devices.Keys == old(devices.Keys) - {id}
      ensures AllOf(out, id)
    {
      out := [];
      var d, sample := devices[id], BuiltSample(id, devices[id].truth, t, draw);
      ghost var s := SlotIn(devices, histories, id);
      if cfg.emitStaleAfterMs > 0.0 && t - d.lastIngestAt > cfg.emitStaleAfterMs {
        devices := devices - {id};
        histories := histories[id := s.(lost := s.lost + d.buffer)];
        return;
      }
      if d.nextEmitAt > t {
        return;
      }
      ghost var gone;
      d, sample, out, gone := Forward(d, id, t, draw, s);
      devices := devices[id := d];
      histories := histories[id := s.(built := s.built + [sample], published := s.published + out, lost := s.lost + gone)];
    }

    /** A sample is built, and stored, dropped or put out behind the backlog; `gone` is what is lost. */
    method Forward(d0: Device, id: string, t: real, draw: Draw, ghost s: Slot)
      returns (d: Device, sample: Sample, out: seq<Sample>, ghost gone: seq<Sample>)
      requires s.device == Some(d0) && !Stale(d0, t, cfg) && d0.nextEmitAt <= t && AllOf(d0.buffer, id)
      ensures Ticked(s, id, t, draw, cfg) ==
              Slot(Some(d), s.built + [sample], s.published + out, s.lost + gone)
      ensures AllOf(out, id)
    {
      var prevConn := d0.conn;
      sample := BuiltSample(id, d0.truth, t, draw);
      d, out, gone := Stepped(d0, t, draw, cfg), [], [];
      if d.conn == Disconnected {
        if cfg.storeAndForward {
          d := d.(buffer := d.buffer + [sample]);
          if |d.buffer| > cfg.maxBufferPerDevice {
            gone := d.buffer[..1];
            d := d.(buffer := d.buffer[1..]);
          }
        } else {
          gone := [sample];
        }
        return;
      }
      if prevConn == Disconnected && |d.buffer| > 0 {
        out := d.buffer;
        d := d.(buffer := []);
      }
      out := out + [sample];
    }
  }

  lemma {:induction false} IngestAllKeepsSound(s: Slot, now: real, updates: seq<Update>, id: string, t: real, cfg: Config)
    requires Sound(s, now, cfg) && now <= t
    ensures Sound(IngestedAll(s, updates, id, t), t, cfg)
    ensures Owned(s, id) ==> Owned(IngestedAll(s, updates, id, t), id)
  {
    if updates == [] {
      LaterClock(s, now, t, cfg);
    } else {
      IngestAllKeepsSound(s, now, updates[..|updates| - 1], id, t, cfg);
      var before := IngestedAll(s, updates[..|updates| - 1], id, t);
      IngestKeepsSound(before, t, updates[|updates| - 1].truth, t, cfg);
    }
  }
}
