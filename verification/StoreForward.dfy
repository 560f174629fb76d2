/**
 * What becomes of a device's samples (RealismEngine.ts:85-111, 193-267): which
 * are published, kept for later and lost, and when; and what they carry.
 */
module StoreForward {
  import opened Common
  import opened Realism

  // ---- One tick of a known device ----

  /** Its source has been quiet for too long, if there is such a limit. */
  predicate Quiet(d: Device, t: real, cfg: Config) {
    cfg.emitStaleAfterMs > 0.0 && t > d.lastIngestAt + cfg.emitStaleAfterMs
  }

  /** It is time for its next sample. */
  predicate SampleDue(d: Device, t: real, cfg: Config) {
    !Quiet(d, t, cfg) && t >= d.nextEmitAt
  }

  /** A tick that loses samples. */
  predicate Loses(d: Device, t: real, draw: Draw, cfg: Config) {
    || (Quiet(d, t, cfg) && d.buffer != [])
    || (SampleDue(d, t, cfg) && draw.conn.Disconnected? &&
        (!cfg.storeAndForward || |d.buffer| >= cfg.maxBufferPerDevice))
  }

  /** A tick that publishes samples. */
  predicate Publishes(d: Device, t: real, draw: Draw, cfg: Config) {
    SampleDue(d, t, cfg) && !draw.conn.Disconnected?
  }

  /** A sample is built exactly when one is due; it says whether the device is in reach, and what was last ingested. */
  lemma BuildsIff(s: Slot, id: string, t: real, draw: Draw, cfg: Config)
    requires s.device.Some?
    ensures Ticked(s, id, t, draw, cfg).built ==
            s.built + if SampleDue(s.device.value, t, cfg)
                      then [Sample(id, t, !draw.conn.Disconnected?, s.device.value.truth, draw.fix)] else []
  {
  }

  /** Samples are lost exactly on the ticks that `Loses` names. */
  lemma LosesIff(s: Slot, id: string, t: real, draw: Draw, cfg: Config)
    requires s.device.Some?
    ensures s.lost <= Ticked(s, id, t, draw, cfg).lost
    ensures Ticked(s, id, t, draw, cfg).lost == s.lost <==> !Loses(s.device.value, t, draw, cfg)
  {
  }

  /**
   * What is lost: of a quiet device its backlog; otherwise the new sample with
   * nothing stored, and the oldest there is when all is full.
   */
  lemma LostAre(s: Slot, id: string, t: real, draw: Draw, cfg: Config)
    requires s.device.Some? && Loses(s.device.value, t, draw, cfg)
    ensures var d, x := s.device.value, Sample(id, t, false, s.device.value.truth, draw.fix);
            Ticked(s, id, t, draw, cfg).lost ==
            s.lost + if Quiet(d, t, cfg) then d.buffer
                     else if cfg.storeAndForward && d.buffer != [] then [d.buffer[0]]
                     else [x]
  {
  }

  /** Samples are published exactly on the ticks that `Publishes` names: the whole backlog, oldest first, and the new one. */
  lemma PublishesIff(s: Slot, id: string, t: real, draw: Draw, cfg: Config)
    requires s.device.Some? && WellBuffered(s, cfg)
    ensures var d := s.device.value;
            Ticked(s, id, t, draw, cfg).published ==
            s.published + if Publishes(d, t, draw, cfg)
                          then d.buffer + [Sample(id, t, true, d.truth, draw.fix)] else []
  {
    var d, x := s.device.value, Sample(id, t, true, s.device.value.truth, draw.fix);
    assert s.published + (d.buffer + [x]) == s.published + d.buffer + [x];
  }

  /** What is kept for later: what was, with the new sample behind it when it cannot be sent, cut to the newest. */
  lemma KeepsFor(s: Slot, id: string, t: real, draw: Draw, cfg: Config)
    requires s.device.Some? && WellBuffered(s, cfg)
    ensures var d, x := s.device.value, Sample(id, t, false, s.device.value.truth, draw.fix);
            var grown, kept := d.buffer + [x], Buffered(Ticked(s, id, t, draw, cfg));
            if Quiet(d, t, cfg) || Publishes(d, t, draw, cfg) then kept == []
            else if SampleDue(d, t, cfg) && cfg.storeAndForward then
              |kept| <= cfg.maxBufferPerDevice && kept == grown[if |grown| > cfg.maxBufferPerDevice then 1 else 0..]
            else kept == d.buffer
  {
  }

  /** A device goes exactly when it is quiet; otherwise it has its link as drawn and its next sample 50 ms on or more. */
  lemma GoesIff(s: Slot, id: string, t: real, draw: Draw, cfg: Config)
    requires s.device.Some?
    ensures var d, after := s.device.value, Ticked(s, id, t, draw, cfg).device;
            && (after.None? <==> Quiet(d, t, cfg))
            && (after.Some? ==> after.value.truth == d.truth && after.value.lastIngestAt == d.lastIngestAt)
            && (after.Some? && !SampleDue(d, t, cfg) ==> after.value == d)
            && (SampleDue(d, t, cfg) ==>
                  var next := after.value.nextEmitAt;
                  && after.value.conn == draw.conn
                  && next >= t + 50.0 && next >= t + cfg.reportingPeriodMs + draw.jitter
                  && (next == t + 50.0 || next == t + cfg.reportingPeriodMs + draw.jitter))
  {
  }

  /** A device heard of: what it reports is replaced, its schedule and backlog stay; a new one is due at once. */
  lemma HeardOf(s: Slot, truth: string, t: real)
    ensures var after := Ingested(s, truth, t);
            && after.built == s.built && after.published == s.published && after.lost == s.lost
            && after.device.Some? && after.device.value.truth == truth && after.device.value.lastIngestAt == t
            && (s.device.Some? ==> after.device.value.buffer == s.device.value.buffer
                                   && after.device.value.nextEmitAt == s.device.value.nextEmitAt
                                   && after.device.value.conn == s.device.value.conn)
            && (s.device.None? ==> after.device.value.buffer == [] && after.device.value.nextEmitAt == t
                                   && after.device.value.conn == Connected)
  {
  }

  /** Of the updates of one request the last for an id counts, and without one the id is left alone. */
  lemma {:induction false} LastUpdateCounts(s: Slot, updates: seq<Update>, id: string, t: real, i: nat)
    requires i < |updates| && updates[i].id == id && forall j :: i < j < |updates| ==> updates[j].id != id
    ensures var after := IngestedAll(s, updates, id, t).device;
            after.Some? && after.value.truth == updates[i].truth && after.value.lastIngestAt == t
  {
    if i < |updates| - 1 {
      LastUpdateCounts(s, updates[..|updates| - 1], id, t, i);
    }
  }

  lemma {:induction false} NoUpdateForIt(s: Slot, updates: seq<Update>, id: string, t: real)
    requires forall i :: 0 <= i < |updates| ==> updates[i].id != id
    ensures IngestedAll(s, updates, id, t) == s
  {
    if updates != [] {
      NoUpdateForIt(s, updates[..|updates| - 1], id, t);
    }
  }

  // ---- Over every run of a device id ----

  /** The step is a tick that loses samples. */
  predicate LosesAt(id: string, steps: seq<Step>, cfg: Config, i: nat)
    requires i < |steps|
  {
    var s := Run(id, steps[..i], cfg);
    steps[i].Tick? && s.device.Some? && Loses(s.device.value, steps[i].t, steps[i].draw, cfg)
  }

  ghost predicate NeverLoses(id: string, steps: seq<Step>, cfg: Config) {
    forall i :: 0 <= i < |steps| ==> !LosesAt(id, steps, cfg, i)
  }

  lemma {:induction false} NeverLosesOneMore(id: string, steps: seq<Step>, cfg: Config)
    requires steps != []
    ensures var n := |steps| - 1;
            NeverLoses(id, steps, cfg) <==> NeverLoses(id, steps[..n], cfg) && !LosesAt(id, steps, cfg, n)
  {
    hide Run, Loses;
    var front := steps[..|steps| - 1];
    assert forall i :: 0 <= i < |front| ==> front[..i] == steps[..i] && front[i] == steps[i];
    assert forall i :: 0 <= i < |front| ==> LosesAt(id, front, cfg, i) == LosesAt(id, steps, cfg, i);
  }

  /** Nothing has been lost exactly when no tick lost anything. */
  lemma {:induction false} NothingLostIff(id: string, steps: seq<Step>, cfg: Config)
    ensures Run(id, steps, cfg).lost == [] <==> NeverLoses(id, steps, cfg)
  {
    if steps != [] {
      var n := |steps| - 1;
      var s := Run(id, steps[..n], cfg);
      NothingLostIff(id, steps[..n], cfg);
      NeverLosesOneMore(id, steps, cfg);
      match steps[n] {
        case Ingest(truth, t) => HeardOf(s, truth, t);
        case Tick(t, draw) => if s.device.Some? { LosesIff(s, id, t, draw, cfg); }
      }
      hide Loses, Ticked, Ingested, NeverLoses;
    }
  }

  /** While nothing has been lost, what was published and what is stored are all samples built, in order. */
  lemma {:induction false} KeptInOrder(id: string, steps: seq<Step>, cfg: Config)
    requires ClockAdvances(steps) && Run(id, steps, cfg).lost == []
    ensures var s := Run(id, steps, cfg); s.built == s.published + Buffered(s)
  {
    if steps != [] {
      var n := |steps| - 1;
      var s := Run(id, steps[..n], cfg);
      hide WellBuffered, Ticked, Ingested, Loses;
      RealismGuarantees(id, steps[..n], cfg);
      match steps[n] {
        case Ingest(truth, t) =>
          HeardOf(s, truth, t);
          KeptInOrder(id, steps[..n], cfg);
        case Tick(t, draw) =>
          if s.device.Some? {
            LosesIff(s, id, t, draw, cfg);
            KeptInOrder(id, steps[..n], cfg);
            TickKeepsOrder(s, id, t, draw, cfg);
          } else {
            NotThere(s, id, t, draw, cfg);
            KeptInOrder(id, steps[..n], cfg);
          }
      }
    }
  }

  lemma NotThere(s: Slot, id: string, t: real, draw: Draw, cfg: Config)
    requires s.device.None?
    ensures Ticked(s, id, t, draw, cfg) == s
  {
  }

  lemma TickKeepsOrder(s: Slot, id: string, t: real, draw: Draw, cfg: Config)
    requires s.device.Some? && WellBuffered(s, cfg) && s.built == s.published + Buffered(s)
    requires !Loses(s.device.value, t, draw, cfg)
    ensures var after := Ticked(s, id, t, draw, cfg); after.built == after.published + Buffered(after)
  {
    BuildsIff(s, id, t, draw, cfg);
    PublishesIff(s, id, t, draw, cfg);
    KeepsFor(s, id, t, draw, cfg);
  }

  /** Back in reach with nothing lost: every sample ever built is out, in order. */
  lemma {:induction false} ReconnectingPublishesAll(id: string, steps: seq<Step>, cfg: Config, t: real, draw: Draw)
    requires ClockAdvances(steps + [Tick(t, draw)]) && NeverLoses(id, steps, cfg)
    requires var s := Run(id, steps, cfg); s.device.Some? && Publishes(s.device.value, t, draw, cfg)
    ensures var s := Run(id, steps + [Tick(t, draw)], cfg); s.published == s.built && s.lost == []
  {
    var s := Run(id, steps, cfg);
    assert (steps + [Tick(t, draw)])[..|steps|] == steps;
    assert forall i :: 0 <= i < |steps| ==> (steps + [Tick(t, draw)])[i] == steps[i];
    NothingLostIff(id, steps, cfg);
    KeptInOrder(id, steps, cfg);
    RealismGuarantees(id, steps, cfg);
    BuildsIff(s, id, t, draw, cfg);
    LosesIff(s, id, t, draw, cfg);
    PublishesIff(s, id, t, draw, cfg);
    hide Ticked, NeverLoses, WellBuffered;
  }

  /** The last ingest before the end of the steps, if there is one. */
  function LastIngest(steps: seq<Step>): Option<Step> {
    if steps == [] then None
    else if steps[|steps| - 1].Ingest? then Some(steps[|steps| - 1])
    else LastIngest(steps[..|steps| - 1])
  }

  /** A device reports, and counts as heard of, as last ingested. */
  lemma {:induction false} ReportsLastIngest(id: string, steps: seq<Step>, cfg: Config)
    requires Run(id, steps, cfg).device.Some?
    ensures var d, last := Run(id, steps, cfg).device.value, LastIngest(steps);
            last.Some? && last.value.Ingest? && d.truth == last.value.truth && d.lastIngestAt == last.value.t
  {
    var n := |steps| - 1;
    var s := Run(id, steps[..n], cfg);
    match steps[n] {
      case Ingest(truth, t) => HeardOf(s, truth, t);
      case Tick(t, draw) =>
        if s.device.None? {
          NotThere(s, id, t, draw, cfg);
        } else {
          GoesIff(s, id, t, draw, cfg);
          ReportsLastIngest(id, steps[..n], cfg);
        }
    }
    hide Ticked, Ingested;
  }
}
