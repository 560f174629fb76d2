/**
 * Whether a sink is asked, over every run of `Delivery` (publisher.ts:101-201):
 * what became of its publishes, and its health, decide.  The breaker's options
 * stay as they are, with the breaker on.
 */
module SinkHealth {
  import CB = CircuitBreakers
  import OB = Outboxes
  import opened Delivery

  /** The step brings the outcome of a publish that is waiting for one. */
  predicate Ends(s: Sink, step: Step, outcome: Outcome) {
    step.Settle? && step.i < |s.publishing| && step.outcome == outcome
  }

  /** The breaker is on, and nothing reconfigures it. */
  predicate Steady(breaker: CB.Options, steps: seq<Step>) {
    breaker.enabled && breaker.failureThreshold >= 1 && forall i :: 0 <= i < |steps| ==> !steps[i].Configure?
  }

  /** A publish of the updates at that time would be sent, rather than skipped. */
  predicate Asked(s: Sink, updates: seq<OB.Update>, now: int) {
    Next(s, Publish(updates, now)).publishing == s.publishing + [updates]
  }

  /**
   * Settled publishes that threw since the last one delivered in full, or since
   * the sink was last found healthy while tripped.
   */
  ghost function ThrowsSince(breaker: CB.Options, outbox: OB.Options, steps: seq<Step>): nat {
    if steps == [] then 0
    else
      var front, last := steps[..|steps| - 1], steps[|steps| - 1];
      var s := Run(breaker, outbox, front);
      if Ends(s, last, Delivered) || (last.SinkHealthy? && s.breaker.state != CB.Closed) then 0
      else ThrowsSince(breaker, outbox, front) + if Ends(s, last, Threw) then 1 else 0
  }

  // ---- One step ----

  lemma ThrowsStep(s: Sink, step: Step)
    requires s.breaker.options.enabled && !step.Configure?
    ensures Next(s, step).breaker.options == s.breaker.options
    ensures Next(s, step).breaker.failures ==
            if Ends(s, step, Delivered) || (step.SinkHealthy? && s.breaker.state != CB.Closed) then 0
            else s.breaker.failures + if Ends(s, step, Threw) then 1 else 0
  {
    hide OB.Enqueued, OB.Requeued, Lost, OB.CountUpdates, Sent;
  }

  /** What a step does to a closed, a tripped and a trial breaker. */
  lemma StateStep(s: Sink, step: Step)
    requires s.breaker.options.enabled && s.breaker.options.failureThreshold >= 1 && !step.Configure?
    ensures Next(s, step).breaker.state == CB.Closed <==>
            || Ends(s, step, Delivered) || step.SinkHealthy?
            || (s.breaker.state == CB.HalfOpen && Ends(s, step, PartlyFailed))
            || (s.breaker.state == CB.Closed &&
                !(Ends(s, step, Threw) && s.breaker.failures + 1 >= s.breaker.options.failureThreshold))
    ensures Next(s, step).breaker.state == CB.Open <==>
            || (Ends(s, step, Threw) &&
                (s.breaker.state != CB.Closed || s.breaker.failures + 1 >= s.breaker.options.failureThreshold))
            || (s.breaker.state == CB.Open && !Ends(s, step, Delivered) && !step.SinkHealthy?
                && !(step.Publish? && step.now >= s.breaker.openedAt + s.breaker.options.cooldownMs))
    ensures Next(s, step).breaker.openedAt ==
            if s.breaker.state != CB.Open && Next(s, step).breaker.state == CB.Open then step.now else s.breaker.openedAt
  {
    hide OB.Enqueued, OB.Requeued, Lost, OB.CountUpdates, Sent;
  }

  /** A trial is in flight exactly while a breaker is half-open. */
  lemma ProbeStep(s: Sink, step: Step)
    requires s.breaker.state == CB.HalfOpen <==> s.breaker.probeInFlight
    requires s.breaker.options.enabled && !step.Configure?
    ensures Next(s, step).breaker.state == CB.HalfOpen <==> Next(s, step).breaker.probeInFlight
  {
    hide OB.Enqueued, OB.Requeued, Lost, OB.CountUpdates, Sent;
  }

  lemma AskedIffState(s: Sink, updates: seq<OB.Update>, now: int)
    requires s.breaker.options.enabled && (s.breaker.state == CB.HalfOpen <==> s.breaker.probeInFlight)
    ensures Asked(s, updates, now) <==>
            || s.breaker.state == CB.Closed
            || (s.breaker.state == CB.Open && now >= s.breaker.openedAt + s.breaker.options.cooldownMs)
    ensures !Asked(s, updates, now) ==> Next(s, Publish(updates, now)).publishing == s.publishing
  {
    hide OB.Enqueued, Lost, OB.CountUpdates;
    assert |s.publishing + [updates]| == |s.publishing| + 1;
  }

  // ---- Over every run ----

  lemma {:induction false} ThrowsAreCounted(breaker: CB.Options, outbox: OB.Options, steps: seq<Step>)
    requires Steady(breaker, steps)
    ensures var b := Run(breaker, outbox, steps).breaker;
            && b.options == breaker && b.failures == ThrowsSince(breaker, outbox, steps)
            && (b.state == CB.HalfOpen <==> b.probeInFlight)
  {
    if steps != [] {
      var front, last := steps[..|steps| - 1], steps[|steps| - 1];
      ThrowsAreCounted(breaker, outbox, front);
      ThrowsStep(Run(breaker, outbox, front), last);
      ProbeStep(Run(breaker, outbox, front), last);
      hide Next, Ends;
    }
  }

  /** A closed sink trips exactly on a publish that throws, as the last of as many throws as the threshold asks for. */
  lemma TripsIff(breaker: CB.Options, outbox: OB.Options, steps: seq<Step>, step: Step)
    requires Steady(breaker, steps + [step]) && Run(breaker, outbox, steps).breaker.state == CB.Closed
    ensures var s, after := Run(breaker, outbox, steps), Run(breaker, outbox, steps + [step]);
            var trips := Ends(s, step, Threw) && ThrowsSince(breaker, outbox, steps + [step]) >= breaker.failureThreshold;
            && after.breaker.state == (if trips then CB.Open else CB.Closed)
            && (trips ==> after.breaker.openedAt == step.now)
  {
    SteadyFront(breaker, steps, step);
    ThrowsAreCounted(breaker, outbox, steps);
    RunOneMore(breaker, outbox, steps, step);
    StateStep(Run(breaker, outbox, steps), step);
    assert (steps + [step])[..|steps|] == steps;
    hide Next, Run;
  }

  lemma SteadyFront(breaker: CB.Options, steps: seq<Step>, step: Step)
    requires Steady(breaker, steps + [step])
    ensures Steady(breaker, steps) && !step.Configure?
  {
    assert forall i :: 0 <= i < |steps| ==> (steps + [step])[i] == steps[i];
    assert (steps + [step])[|steps|] == step;
  }

  lemma SteadyBefore(breaker: CB.Options, steps: seq<Step>, n: nat)
    requires Steady(breaker, steps) && n <= |steps|
    ensures Steady(breaker, steps[..n])
  {
  }

  lemma RunStep(breaker: CB.Options, outbox: OB.Options, steps: seq<Step>, i: nat)
    requires i < |steps|
    ensures Run(breaker, outbox, steps[..i + 1]) == Next(Run(breaker, outbox, steps[..i]), steps[i])
  {
    assert steps[..i + 1][..i] == steps[..i];
  }

  /** As long as there are fewer throws than that, a closed sink stays closed, and every publish is sent. */
  lemma {:induction false} FewThrowsStayClosed(breaker: CB.Options, outbox: OB.Options, steps: seq<Step>, start: nat, k: nat)
    requires Steady(breaker, steps) && start <= k <= |steps|
    requires Run(breaker, outbox, steps[..start]).breaker.state == CB.Closed
    requires forall n :: start < n <= k ==> ThrowsSince(breaker, outbox, steps[..n]) < breaker.failureThreshold
    ensures Run(breaker, outbox, steps[..k]).breaker.state == CB.Closed
    ensures forall updates, now :: Asked(Run(breaker, outbox, steps[..k]), updates, now)
  {
    hide Run, Next, Asked, ThrowsSince;
    if k > start {
      FewThrowsStayClosed(breaker, outbox, steps, start, k - 1);
      SteadyBefore(breaker, steps, k);
      assert steps[..k - 1] + [steps[k - 1]] == steps[..k];
      TripsIff(breaker, outbox, steps[..k - 1], steps[k - 1]);
    }
    SteadyBefore(breaker, steps, k);
    ThrowsAreCounted(breaker, outbox, steps[..k]);
    forall updates, now
      ensures Asked(Run(breaker, outbox, steps[..k]), updates, now)
    {
      AskedIffState(Run(breaker, outbox, steps[..k]), updates, now);
    }
  }

  /** The sink shows that it is well: a delivery in full, or a health probe. */
  predicate ShowsHealth(s: Sink, step: Step) {
    Ends(s, step, Delivered) || step.SinkHealthy?
  }

  /** After that every publish is sent, whatever was before. */
  lemma HealthAdmits(breaker: CB.Options, outbox: OB.Options, steps: seq<Step>, step: Step, updates: seq<OB.Update>, now: int)
    requires Steady(breaker, steps + [step]) && ShowsHealth(Run(breaker, outbox, steps), step)
    ensures Asked(Run(breaker, outbox, steps + [step]), updates, now)
  {
    SteadyFront(breaker, steps, step);
    ThrowsAreCounted(breaker, outbox, steps);
    ThrowsAreCounted(breaker, outbox, steps + [step]);
    RunOneMore(breaker, outbox, steps, step);
    StateStep(Run(breaker, outbox, steps), step);
    hide Run, Next, Asked;
    AskedIffState(Run(breaker, outbox, steps + [step]), updates, now);
  }

  /** A partial result counts for nothing, but ends a trial well. */
  lemma PartialKeeps(breaker: CB.Options, outbox: OB.Options, steps: seq<Step>, step: Step)
    requires Steady(breaker, steps + [step]) && Ends(Run(breaker, outbox, steps), step, PartlyFailed)
    ensures ThrowsSince(breaker, outbox, steps + [step]) == ThrowsSince(breaker, outbox, steps)
    ensures var before, after := Run(breaker, outbox, steps).breaker.state, Run(breaker, outbox, steps + [step]).breaker.state;
            after == if before == CB.HalfOpen then CB.Closed else before
  {
    SteadyFront(breaker, steps, step);
    ThrowsAreCounted(breaker, outbox, steps);
    RunOneMore(breaker, outbox, steps, step);
    StateStep(Run(breaker, outbox, steps), step);
    assert (steps + [step])[..|steps|] == steps;
    hide Next, Run;
  }

  /**
   * A tripped sink is left alone: until it shows health, no publish before the
   * cooldown is sent, and it stays tripped since the same time.
   */
  lemma {:induction false} TrippedIsSkipped(breaker: CB.Options, outbox: OB.Options, steps: seq<Step>, start: nat, k: nat)
    requires Steady(breaker, steps) && start <= k <= |steps|
    requires Run(breaker, outbox, steps[..start]).breaker.state == CB.Open
    requires forall i :: start <= i < k ==> !ShowsHealth(Run(breaker, outbox, steps[..i]), steps[i])
    requires forall i :: start <= i < k && steps[i].Publish? ==>
               steps[i].now < Run(breaker, outbox, steps[..start]).breaker.openedAt + breaker.cooldownMs
    ensures var b, since := Run(breaker, outbox, steps[..k]).breaker, Run(breaker, outbox, steps[..start]).breaker.openedAt;
            b.state == CB.Open && b.openedAt == since
    ensures forall updates, now :: Asked(Run(breaker, outbox, steps[..k]), updates, now) <==>
              now >= Run(breaker, outbox, steps[..start]).breaker.openedAt + breaker.cooldownMs
  {
    hide Run, Next, Asked, ThrowsSince;
    if k > start {
      TrippedIsSkipped(breaker, outbox, steps, start, k - 1);
      SteadyBefore(breaker, steps, k - 1);
      ThrowsAreCounted(breaker, outbox, steps[..k - 1]);
      RunStep(breaker, outbox, steps, k - 1);
      StateStep(Run(breaker, outbox, steps[..k - 1]), steps[k - 1]);
    }
    SteadyBefore(breaker, steps, k);
    ThrowsAreCounted(breaker, outbox, steps[..k]);
    forall updates, now
      ensures Asked(Run(breaker, outbox, steps[..k]), updates, now) <==>
              now >= Run(breaker, outbox, steps[..start]).breaker.openedAt + breaker.cooldownMs
    {
      AskedIffState(Run(breaker, outbox, steps[..k]), updates, now);
    }
  }
}
