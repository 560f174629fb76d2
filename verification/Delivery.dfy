/**
 * Delivery to one sink (publisher.ts:69-281): publishes, settled results,
 * flushes, reconfiguration and the shutdown discard, in any interleaving.
 *
 * Each stretch of the source between two awaits is one step.  A flush holds the
 * entries it has taken; its head has been sent and waits for the answer.  Any
 * number of publishes and flushes may be waiting at once.
 */
module Delivery {
  import CB = CircuitBreakers
  import opened OB = Outboxes

  /** What became of a publish: all delivered, some items failed, or the sink threw. */
  datatype Outcome = Delivered | PartlyFailed | Threw

  /**
   * One sink.  The counters add up updates: offered by callers, delivered by a
   * first publish, redelivered by a flush, counted as dropped by the outbox,
   * unretained (left to at-most-once delivery), and vanished (see `Refused`).
   */
  datatype Sink = Sink(
    breaker: CB.Status,
    options: OB.Options,
    queue: seq<Entry>,
    publishing: seq<seq<Update>>,
    flushes: seq<seq<Entry>>,
    arrivals: nat,
    offered: nat,
    delivered: nat,
    redelivered: nat,
    dropped: nat,
    unretained: nat,
    vanished: nat)

  datatype Step =
    | Publish(updates: seq<Update>, now: int)
    | Settle(i: nat, outcome: Outcome, now: int)
    | BeginFlush
    | FlushAnswer(f: nat, ok: bool)
    | SinkHealthy
    | Discard
    | Configure(breaker: CB.Options, outbox: OB.Options)

  function Idle(breaker: CB.Options, outbox: OB.Options): Sink {
    Sink(CB.Fresh(breaker), outbox, [], [], [], 0, 0, 0, 0, 0, 0, 0)
  }

  function Without<T>(s: seq<T>, i: nat): seq<T>
    requires i < |s|
  {
    s[..i] + s[i + 1..]
  }

  /** How many of `count` updates a queue does not hold. */
  function Lost(count: nat, q: seq<Entry>): nat {
    if count >= CountUpdates(q) then count - CountUpdates(q) else 0
  }

  /** The sink with another queue; what of `count` updates it does not hold is counted dropped. */
  function Requeuing(s: Sink, q: seq<Entry>, count: nat): Sink {
    s.(queue := q, dropped := s.dropped + Lost(count, q))
  }

  /** `buffer`: nothing is retained with the outbox off. */
  function Buffered(s: Sink, updates: seq<Update>): Sink {
    if !s.options.enabled then s.(unretained := s.unretained + |updates|)
    else
      Requeuing(s.(arrivals := s.arrivals + 1), Enqueued(s.queue, Entry(updates, s.arrivals, 0), s.options),
                CountUpdates(s.queue) + |updates|)
  }

  /** `attempts += 1`, just before an entry is sent. */
  function Sent(entries: seq<Entry>): seq<Entry> {
    if entries == [] then [] else [entries[0].(attempts := entries[0].attempts + 1)] + entries[1..]
  }

  /** The flush that goes on with `rest`, or ends if nothing is left. */
  function Continued(s: Sink, f: nat, rest: seq<Entry>): Sink
    requires f < |s.flushes|
  {
    s.(flushes := if rest == [] then Without(s.flushes, f) else s.flushes[f := Sent(rest)])
  }

  /**
   * The flush that ends with its head refused: all it holds goes back in front.
   * With the outbox switched off meanwhile there is no queue to go back to; the
   * source throws, and the batches are gone without being counted.
   */
  function Refused(s: Sink, f: nat): Sink
    requires f < |s.flushes|
  {
    var held, ended := s.flushes[f], s.(flushes := Without(s.flushes, f));
    if s.options.enabled then
      Requeuing(ended, Requeued(s.queue, held, s.options), CountUpdates(held) + CountUpdates(s.queue))
    else ended.(vanished := s.vanished + CountUpdates(held))
  }

  function Published(s: Sink, updates: seq<Update>, now: int): Sink {
    var asked := s.(offered := s.offered + |updates|, breaker := CB.After(s.breaker, CB.Allow(now)));
    if CB.Admits(s.breaker, now) then asked.(publishing := s.publishing + [updates]) else Buffered(asked, updates)
  }

  function Settled(s: Sink, i: nat, outcome: Outcome, now: int): Sink
    requires i < |s.publishing|
  {
    var updates, answered := s.publishing[i], s.(publishing := Without(s.publishing, i));
    match outcome
    case Delivered =>
      answered.(breaker := CB.After(s.breaker, CB.Success), delivered := s.delivered + |updates|)
    case PartlyFailed =>
      var told := answered.(breaker := CB.After(s.breaker, CB.Partial));
      if s.options.retryPartial then Buffered(told, updates) else told.(unretained := s.unretained + |updates|)
    case Threw =>
      Buffered(answered.(breaker := CB.After(s.breaker, CB.Failure(now))), updates)
  }

  function Answered(s: Sink, f: nat, ok: bool): Sink
    requires f < |s.flushes| && s.flushes[f] != []
  {
    var entry, rest := s.flushes[f][0], s.flushes[f][1..];
    if ok then Continued(s.(redelivered := s.redelivered + |entry.updates|), f, rest)
    else if entry.attempts >= s.options.maxAttempts then Continued(s.(dropped := s.dropped + |entry.updates|), f, rest)
    else Refused(s, f)
  }

  /** `configure`: switching the outbox on or off starts from an empty queue, other options cut it. */
  function Configured(s: Sink, breaker: CB.Options, outbox: OB.Options): Sink {
    Requeuing(s.(breaker := CB.After(s.breaker, CB.Reconfigure(breaker)), options := outbox),
              if s.options.enabled && outbox.enabled then Trimmed(s.queue, outbox) else [], CountUpdates(s.queue))
  }

  /** A step that names no waiting publish or flush changes nothing. */
  function Next(s: Sink, step: Step): Sink {
    match step
    case Publish(updates, now) => Published(s, updates, now)
    case Settle(i, outcome, now) => if i < |s.publishing| then Settled(s, i, outcome, now) else s
    case BeginFlush =>
      if s.options.enabled && s.queue != [] then s.(queue := [], flushes := s.flushes + [Sent(s.queue)]) else s
    case FlushAnswer(f, ok) => if f < |s.flushes| && s.flushes[f] != [] then Answered(s, f, ok) else s
    case SinkHealthy => s.(breaker := CB.After(s.breaker, CB.Close))
    case Discard => if s.options.enabled then Requeuing(s, [], CountUpdates(s.queue)) else s
    case Configure(breaker, outbox) => Configured(s, breaker, outbox)
  }

  /** The sink after the steps. */
  function Run(breaker: CB.Options, outbox: OB.Options, steps: seq<Step>): Sink {
    if steps == [] then Idle(breaker, outbox)
    else Next(Run(breaker, outbox, steps[..|steps| - 1]), steps[|steps| - 1])
  }

  lemma RunOneMore(breaker: CB.Options, outbox: OB.Options, steps: seq<Step>, step: Step)
    ensures Run(breaker, outbox, steps + [step]) == Next(Run(breaker, outbox, steps), step)
  {
    assert (steps + [step])[..|steps|] == steps;
  }

  // ---- Conservation ----

  function Waiting(publishing: seq<seq<Update>>): nat {
    if publishing == [] then 0 else |publishing[0]| + Waiting(publishing[1..])
  }

  function Held(flushes: seq<seq<Entry>>): nat {
    if flushes == [] then 0 else CountUpdates(flushes[0]) + Held(flushes[1..])
  }

  lemma {:induction false} WaitingSplits(p: seq<seq<Update>>, i: nat)
    requires i < |p|
    ensures Waiting(p) == Waiting(Without(p, i)) + |p[i]|
  {
    if i > 0 {
      WaitingSplits(p[1..], i - 1);
      assert Without(p, i)[1..] == Without(p[1..], i - 1);
    } else {
      assert Without(p, 0) == p[1..];
    }
  }

  lemma {:induction false} WaitingAppends(p: seq<seq<Update>>, u: seq<Update>)
    ensures Waiting(p + [u]) == Waiting(p) + |u|
  {
    if p != [] {
      WaitingAppends(p[1..], u);
      assert (p + [u])[1..] == p[1..] + [u];
    } else {
      assert [] + [u] == [u];
    }
  }

  lemma {:induction false} HeldSplits(fs: seq<seq<Entry>>, i: nat)
    requires i < |fs|
    ensures Held(fs) == Held(Without(fs, i)) + CountUpdates(fs[i])
  {
    if i > 0 {
      HeldSplits(fs[1..], i - 1);
      assert Without(fs, i)[1..] == Without(fs[1..], i - 1);
    } else {
      assert Without(fs, 0) == fs[1..];
    }
  }

  lemma {:induction false} HeldAppends(fs: seq<seq<Entry>>, e: seq<Entry>)
    ensures Held(fs + [e]) == Held(fs) + CountUpdates(e)
  {
    if fs != [] {
      HeldAppends(fs[1..], e);
      assert (fs + [e])[1..] == fs[1..] + [e];
    } else {
      assert [] + [e] == [e];
    }
  }

  lemma HeldReplaced(fs: seq<seq<Entry>>, i: nat, e: seq<Entry>)
    requires i < |fs|
    ensures Held(fs[i := e]) + CountUpdates(fs[i]) == Held(fs) + CountUpdates(e)
  {
    HeldSplits(fs, i);
    HeldSplits(fs[i := e], i);
    assert Without(fs[i := e], i) == Without(fs, i);
  }

  lemma {:induction false} SentCounts(entries: seq<Entry>)
    ensures CountUpdates(Sent(entries)) == CountUpdates(entries)
  {
    if entries != [] {
      assert Sent(entries)[1..] == entries[1..];
    }
  }

  lemma {:induction false} EnqueuedCounts(q: seq<Entry>, e: Entry, o: OB.Options)
    ensures CountUpdates(Enqueued(q, e, o)) <= CountUpdates(q) + |e.updates|
  {
    CountOfConcat(q, [e]);
    assert CountUpdates([e]) == |e.updates|;
    TrimmedCounts(q + [e], o);
  }

  lemma {:induction false} RequeuedCounts(q: seq<Entry>, held: seq<Entry>, o: OB.Options)
    ensures CountUpdates(Requeued(q, held, o)) <= CountUpdates(held) + CountUpdates(q)
  {
    CountOfConcat(held, q);
    TrimmedCounts(held + q, o);
  }

  /** What has become of updates, or will. */
  function Accounted(s: Sink): nat {
    s.delivered + s.redelivered + s.dropped + s.unretained + s.vanished
    + CountUpdates(s.queue) + Waiting(s.publishing) + Held(s.flushes)
  }

  lemma RequeuingAccounts(s: Sink, q: seq<Entry>, count: nat)
    requires CountUpdates(q) <= count
    ensures Accounted(Requeuing(s, q, count)) + CountUpdates(s.queue) == Accounted(s) + count
    ensures Requeuing(s, q, count).offered == s.offered
  {
    hide CountUpdates, Waiting, Held;
  }

  lemma {:induction false} BufferedAccounts(s: Sink, updates: seq<Update>)
    ensures Accounted(Buffered(s, updates)) == Accounted(s) + |updates|
    ensures Buffered(s, updates).offered == s.offered
  {
    hide CountUpdates, Waiting, Held, Enqueued, Requeuing;
    var q, arrived := Enqueued(s.queue, Entry(updates, s.arrivals, 0), s.options), s.(arrivals := s.arrivals + 1);
    EnqueuedCounts(s.queue, Entry(updates, s.arrivals, 0), s.options);
    RequeuingAccounts(arrived, q, CountUpdates(s.queue) + |updates|);
    assert Accounted(arrived) == Accounted(s);
  }

  lemma PublishedAccounts(s: Sink, updates: seq<Update>, now: int)
    ensures Accounted(Published(s, updates, now)) == Accounted(s) + |updates|
    ensures Published(s, updates, now).offered == s.offered + |updates|
  {
    hide CountUpdates, Waiting, Held, Buffered, CB.After, CB.Admits;
    WaitingAppends(s.publishing, updates);
    BufferedAccounts(s.(offered := s.offered + |updates|, breaker := CB.After(s.breaker, CB.Allow(now))), updates);
  }

  lemma SettledAccounts(s: Sink, i: nat, outcome: Outcome, now: int)
    requires i < |s.publishing|
    ensures Accounted(Settled(s, i, outcome, now)) == Accounted(s) && Settled(s, i, outcome, now).offered == s.offered
  {
    hide CountUpdates, Waiting, Held, Buffered, CB.After;
    WaitingSplits(s.publishing, i);
    var updates, answered := s.publishing[i], s.(publishing := Without(s.publishing, i));
    BufferedAccounts(answered.(breaker := CB.After(s.breaker, CB.Partial)), updates);
    BufferedAccounts(answered.(breaker := CB.After(s.breaker, CB.Failure(now))), updates);
  }

  /** A flush that goes on holds what it has left. */
  lemma ContinuedAccounts(s: Sink, f: nat, rest: seq<Entry>)
    requires f < |s.flushes|
    ensures Accounted(Continued(s, f, rest)) + CountUpdates(s.flushes[f]) == Accounted(s) + CountUpdates(rest)
    ensures Continued(s, f, rest).offered == s.offered
  {
    assert CountUpdates([]) == 0;
    hide CountUpdates, Waiting, Held, Sent;
    HeldSplits(s.flushes, f);
    HeldReplaced(s.flushes, f, Sent(rest));
    SentCounts(rest);
  }

  lemma RefusedAccounts(s: Sink, f: nat)
    requires f < |s.flushes|
    ensures Accounted(Refused(s, f)) == Accounted(s) && Refused(s, f).offered == s.offered
  {
    hide CountUpdates, Waiting, Held, Requeued;
    var held := s.flushes[f];
    HeldSplits(s.flushes, f);
    RequeuedCounts(s.queue, held, s.options);
    RequeuingAccounts(s.(flushes := Without(s.flushes, f)), Requeued(s.queue, held, s.options),
                      CountUpdates(held) + CountUpdates(s.queue));
  }

  lemma AnsweredAccounts(s: Sink, f: nat, ok: bool)
    requires f < |s.flushes| && s.flushes[f] != []
    ensures Accounted(Answered(s, f, ok)) == Accounted(s) && Answered(s, f, ok).offered == s.offered
  {
    var entry, rest := s.flushes[f][0], s.flushes[f][1..];
    assert CountUpdates(s.flushes[f]) == |entry.updates| + CountUpdates(rest);
    hide CountUpdates, Waiting, Held, Continued, Refused;
    ContinuedAccounts(s.(redelivered := s.redelivered + |entry.updates|), f, rest);
    ContinuedAccounts(s.(dropped := s.dropped + |entry.updates|), f, rest);
    RefusedAccounts(s, f);
  }

  lemma ConfiguredAccounts(s: Sink, breaker: CB.Options, outbox: OB.Options)
    ensures Accounted(Configured(s, breaker, outbox)) == Accounted(s) && Configured(s, breaker, outbox).offered == s.offered
  {
    assert CountUpdates([]) == 0;
    hide CountUpdates, Waiting, Held, Trimmed, CB.After;
    TrimmedCounts(s.queue, outbox);
    RequeuingAccounts(s.(breaker := CB.After(s.breaker, CB.Reconfigure(breaker)), options := outbox),
                      if s.options.enabled && outbox.enabled then Trimmed(s.queue, outbox) else [], CountUpdates(s.queue));
  }

  lemma BeginFlushAccounts(s: Sink)
    ensures Accounted(Next(s, BeginFlush)) == Accounted(s) && Next(s, BeginFlush).offered == s.offered
  {
    assert CountUpdates([]) == 0;
    hide CountUpdates, Waiting, Held, Sent;
    HeldAppends(s.flushes, Sent(s.queue));
    SentCounts(s.queue);
  }

  /** No update is lost track of from one sink to the other. */
  ghost predicate KeepsAccount(s: Sink, t: Sink) {
    Accounted(t) - t.offered == Accounted(s) - s.offered
  }

  lemma StepAccounts(s: Sink, step: Step)
    ensures KeepsAccount(s, Next(s, step))
  {
    assert CountUpdates([]) == 0;
    hide CountUpdates, Waiting, Held, Published, Settled, Answered, Configured, CB.After;
    match step {
      case Publish(updates, now) => PublishedAccounts(s, updates, now);
      case Settle(i, outcome, now) => if i < |s.publishing| { SettledAccounts(s, i, outcome, now); }
      case BeginFlush => BeginFlushAccounts(s);
      case FlushAnswer(f, ok) => if f < |s.flushes| && s.flushes[f] != [] { AnsweredAccounts(s, f, ok); }
      case SinkHealthy =>
      case Discard => RequeuingAccounts(s, [], CountUpdates(s.queue));
      case Configure(breaker, outbox) => ConfiguredAccounts(s, breaker, outbox);
    }
  }

  /**
   * Over every interleaving: updates offered = delivered + redelivered +
   * dropped + queued + held by running flushes + still being published (+ what
   * the options leave to at-most-once delivery, + what vanished).
   */
  lemma {:induction false} DeliveryConserves(breaker: CB.Options, outbox: OB.Options, steps: seq<Step>)
    ensures Accounted(Run(breaker, outbox, steps)) == Run(breaker, outbox, steps).offered
  {
    if steps != [] {
      hide Next, Accounted;
      DeliveryConserves(breaker, outbox, steps[..|steps| - 1]);
      StepAccounts(Run(breaker, outbox, steps[..|steps| - 1]), steps[|steps| - 1]);
    } else {
      assert CountUpdates([]) == 0;
    }
  }

  // ---- What the law leaves out, and when ----

  /** Options that retain every batch a sink has not taken. */
  predicate Retains(o: OB.Options) {
    o.enabled && o.retryPartial
  }

  lemma RetainsAll(s: Sink, step: Step)
    requires Retains(s.options) && (step.Configure? ==> Retains(step.outbox))
    ensures Retains(Next(s, step).options) && Next(s, step).unretained == s.unretained
  {
    hide CB.After, CB.Admits, Enqueued, Requeued, CountUpdates, Lost, Sent, Trimmed;
  }

  /** With the outbox on and partial results retried throughout, nothing is left to at-most-once delivery. */
  lemma {:induction false} NothingUnretained(breaker: CB.Options, outbox: OB.Options, steps: seq<Step>)
    requires Retains(outbox) && forall i :: 0 <= i < |steps| && steps[i].Configure? ==> Retains(steps[i].outbox)
    ensures Run(breaker, outbox, steps).unretained == 0 && Retains(Run(breaker, outbox, steps).options)
  {
    if steps != [] {
      hide Next, Retains;
      NothingUnretained(breaker, outbox, steps[..|steps| - 1]);
      RetainsAll(Run(breaker, outbox, steps[..|steps| - 1]), steps[|steps| - 1]);
    }
  }

  /** Updates vanish on a step exactly when a flush is refused that the outbox was switched off under. */
  lemma VanishesIff(s: Sink, step: Step)
    ensures Next(s, step).vanished >= s.vanished
    ensures Next(s, step).vanished > s.vanished <==>
            && step.FlushAnswer? && step.f < |s.flushes| && CountUpdates(s.flushes[step.f]) > 0
            && !step.ok && s.flushes[step.f][0].attempts < s.options.maxAttempts
            && !s.options.enabled
  {
    assert CountUpdates([]) == 0;
    hide CB.After, CB.Admits, Enqueued, Requeued, CountUpdates, Lost, Sent, Trimmed;
  }

  /** No step switches the outbox off while a flush runs. */
  ghost predicate NoFlushCutOff(breaker: CB.Options, outbox: OB.Options, steps: seq<Step>) {
    forall i :: 0 <= i < |steps| && steps[i].Configure? && !steps[i].outbox.enabled ==>
      Run(breaker, outbox, steps[..i]).flushes == []
  }

  lemma NoFlushWhileOff(s: Sink, step: Step)
    requires !s.options.enabled ==> s.flushes == []
    requires step.Configure? && !step.outbox.enabled ==> s.flushes == []
    ensures !Next(s, step).options.enabled ==> Next(s, step).flushes == []
    ensures Next(s, step).vanished == s.vanished
  {
    hide CB.After, CB.Admits, Enqueued, Requeued, CountUpdates, Lost, Sent, Trimmed;
  }

  lemma NoFlushCutOffBefore(breaker: CB.Options, outbox: OB.Options, steps: seq<Step>, n: nat)
    requires NoFlushCutOff(breaker, outbox, steps) && n <= |steps|
    ensures NoFlushCutOff(breaker, outbox, steps[..n])
  {
    forall i | 0 <= i < n && steps[..n][i].Configure? && !steps[..n][i].outbox.enabled
      ensures Run(breaker, outbox, steps[..n][..i]).flushes == []
    {
      assert steps[..n][..i] == steps[..i];
    }
  }

  /** Unless the outbox is switched off under a running flush, nothing vanishes. */
  lemma {:induction false} NothingVanishes(breaker: CB.Options, outbox: OB.Options, steps: seq<Step>)
    requires NoFlushCutOff(breaker, outbox, steps)
    ensures Run(breaker, outbox, steps).vanished == 0
    ensures !Run(breaker, outbox, steps).options.enabled ==> Run(breaker, outbox, steps).flushes == []
  {
    if steps != [] {
      hide Next;
      NoFlushCutOffBefore(breaker, outbox, steps, |steps| - 1);
      NothingVanishes(breaker, outbox, steps[..|steps| - 1]);
      NoFlushWhileOff(Run(breaker, outbox, steps[..|steps| - 1]), steps[|steps| - 1]);
    }
  }
}
