/**
 * What each step of `Delivery` does to a sink, said outright: what is counted,
 * what waits, and what is queued (publisher.ts:69-281, outbox.ts:153-253).
 */
module DeliveryEffects {
  import CB = CircuitBreakers
  import opened OB = Outboxes
  import opened Delivery
  import opened SinkHealth

  /** The step settles a publish that waits for its outcome. */
  predicate Settling(s: Sink, step: Step) {
    step.Settle? && step.i < |s.publishing|
  }

  /** The step answers a flush that waits for it. */
  predicate Answering(s: Sink, step: Step) {
    step.FlushAnswer? && step.f < |s.flushes| && s.flushes[step.f] != []
  }

  /** The flush goes on: its head is through, or has had all its attempts. */
  predicate GoesOn(s: Sink, step: Step) {
    Answering(s, step) && (step.ok || s.flushes[step.f][0].attempts >= s.options.maxAttempts)
  }

  /** The batch fails: skipped, thrown, or delivered in part. */
  predicate Skips(s: Sink, step: Step) {
    step.Publish? && !Asked(s, step.updates, step.now)
  }

  predicate Fails(s: Sink, step: Step) {
    Skips(s, step) || Ends(s, step, Threw) || Ends(s, step, PartlyFailed)
  }

  function BatchOf(s: Sink, step: Step): seq<Update>
    requires step.Publish? || Settling(s, step)
  {
    if step.Publish? then step.updates else s.publishing[step.i]
  }

  /** It is kept for a flush: always with the outbox on, but a partial result only when those are retried. */
  predicate Keeps(s: Sink, step: Step) {
    Fails(s, step) && s.options.enabled && (Ends(s, step, PartlyFailed) ==> s.options.retryPartial)
  }

  /** Each counter but that of drops, which conservation gives, counts exactly its kind of end. */
  lemma CountsStep(s: Sink, step: Step)
    ensures var t := Next(s, step);
            && t.offered == s.offered + (if step.Publish? then |step.updates| else 0)
            && t.delivered == s.delivered + (if Ends(s, step, Delivered) then |s.publishing[step.i]| else 0)
            && t.redelivered == s.redelivered
                                + (if Answering(s, step) && step.ok then |s.flushes[step.f][0].updates| else 0)
            && t.unretained == s.unretained + (if Fails(s, step) && !Keeps(s, step) then |BatchOf(s, step)| else 0)
            && t.vanished == s.vanished
                             + (if Answering(s, step) && !GoesOn(s, step) && !s.options.enabled
                                then CountUpdates(s.flushes[step.f]) else 0)
  {
    hide CB.After, Enqueued, Requeued, CountUpdates, Lost, Sent, Trimmed;
    assert step.Publish? ==> |s.publishing + [step.updates]| == |s.publishing| + 1;
  }

  /** A publish that is sent waits for its outcome, and waits no more when it is settled. */
  lemma WaitingStep(s: Sink, step: Step)
    ensures Next(s, step).publishing ==
            if step.Publish? && !Skips(s, step) then s.publishing + [step.updates]
            else if Settling(s, step) then s.publishing[..step.i] + s.publishing[step.i + 1..]
            else s.publishing
  {
    hide CB.After, Enqueued, Requeued, CountUpdates, Lost, Sent, Trimmed;
    assert step.Publish? ==> |s.publishing + [step.updates]| == |s.publishing| + 1;
  }

  /** `q` is the longest suffix of `all` within the bounds. */
  ghost predicate NewestOf(q: seq<Entry>, all: seq<Entry>, o: OB.Options) {
    exists cut: nat :: CutAt(q, all, o, cut)
  }

  ghost predicate CutAt(q: seq<Entry>, all: seq<Entry>, o: OB.Options, cut: nat) {
    && cut <= |all| && q == all[cut..] && (cut < |all| ==> Fits(q, o))
    && forall k :: 0 <= k < cut ==> !Fits(all[k..], o)
  }

  lemma {:induction false} TrimmedIsNewest(all: seq<Entry>, o: OB.Options)
    ensures NewestOf(Trimmed(all, o), all, o)
  {
    var cut := TrimmedIsLongestFit(all, o);
    assert CutAt(Trimmed(all, o), all, o, cut);
  }

  /** Nothing and too much is not queued; any other batch goes last, untried, stamped with its arrival. */
  lemma {:induction false} EnqueuedIs(q: seq<Entry>, e: Entry, o: OB.Options)
    ensures
      if e.updates == [] || |e.updates| > o.maxUpdates then Enqueued(q, e, o) == q
      else NewestOf(Enqueued(q, e, o), q + [e], o)
  {
    TrimmedIsNewest(q + [e], o);
  }

  lemma {:induction false} RequeuedIs(q: seq<Entry>, held: seq<Entry>, o: OB.Options)
    requires held != []
    ensures NewestOf(Requeued(q, held, o), held + q, o)
  {
    TrimmedIsNewest(held + q, o);
  }

  /** What a step leaves in the queue. */
  lemma {:induction false} QueueStep(s: Sink, step: Step)
    ensures var t := Next(s, step);
            if Keeps(s, step) then
              var batch := BatchOf(s, step);
              if batch == [] || |batch| > s.options.maxUpdates then t.queue == s.queue
              else NewestOf(t.queue, s.queue + [Entry(batch, s.arrivals, 0)], s.options)
            else if Answering(s, step) && !GoesOn(s, step) && s.options.enabled then
              NewestOf(t.queue, s.flushes[step.f] + s.queue, s.options)
            else if step.Configure? then
              if s.options.enabled && step.outbox.enabled then NewestOf(t.queue, s.queue, step.outbox) else t.queue == []
            else if (step.BeginFlush? || step.Discard?) && s.options.enabled then t.queue == []
            else t.queue == s.queue
    ensures Next(s, step).arrivals == s.arrivals + if Keeps(s, step) then 1 else 0
    ensures Next(s, step).options == if step.Configure? then step.outbox else s.options
  {
    hide CB.After, CB.Admits, Enqueued, Requeued, CountUpdates, Lost, Sent, Trimmed, NewestOf;
    if Settling(s, step) || step.Publish? {
      EnqueuedIs(s.queue, Entry(BatchOf(s, step), s.arrivals, 0), s.options);
      assert step.Publish? ==> |s.publishing + [step.updates]| == |s.publishing| + 1;
    }
    if Answering(s, step) {
      RequeuedIs(s.queue, s.flushes[step.f], s.options);
    }
    if step.Configure? {
      TrimmedIsNewest(s.queue, step.outbox);
    }
  }

  /** The entries with one more attempt spent on the first. */
  ghost predicate SentFirst(sent: seq<Entry>, entries: seq<Entry>) {
    && |sent| == |entries| > 0
    && sent[0] == entries[0].(attempts := entries[0].attempts + 1)
    && sent[1..] == entries[1..]
  }

  /**
   * What a step leaves of the running flushes: all that was queued begins one,
   * and each goes on with what is behind its head.
   */
  lemma {:induction false} FlushesStep(s: Sink, step: Step)
    ensures var t := Next(s, step);
            if step.BeginFlush? && s.options.enabled && s.queue != [] then
              && |t.flushes| == |s.flushes| + 1 && t.flushes[..|s.flushes|] == s.flushes
              && SentFirst(t.flushes[|s.flushes|], s.queue)
            else if GoesOn(s, step) && |s.flushes[step.f]| > 1 then
              && |t.flushes| == |s.flushes| && SentFirst(t.flushes[step.f], s.flushes[step.f][1..])
              && forall g :: 0 <= g < |s.flushes| && g != step.f ==> t.flushes[g] == s.flushes[g]
            else if Answering(s, step) then t.flushes == s.flushes[..step.f] + s.flushes[step.f + 1..]
            else t.flushes == s.flushes
  {
    hide CB.After, Enqueued, Requeued, CountUpdates, Lost, Trimmed;
  }
}
