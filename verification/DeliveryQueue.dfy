/**
 * The retry queue over every run of `Delivery` (outbox.ts:203-253,
 * publisher.ts:217-273): it stays within its bounds, and in order of arrival as
 * long as flushes do not overlap.
 */
module DeliveryQueue {
  import CB = CircuitBreakers
  import opened OB = Outboxes
  import opened Delivery

  // ---- Bounds ----

  /** All options a run sees are ones configuration admits. */
  predicate AllSensible(outbox: OB.Options, steps: seq<Step>) {
    Sensible(outbox) && forall i :: 0 <= i < |steps| && steps[i].Configure? ==> Sensible(steps[i].outbox)
  }

  ghost predicate WithinBounds(s: Sink) {
    Sensible(s.options) && Fits(s.queue, s.options)
  }

  lemma {:induction false} EnqueuedFits(q: seq<Entry>, e: Entry, o: OB.Options)
    requires Sensible(o) && Fits(q, o)
    ensures Fits(Enqueued(q, e, o), o)
  {
    TrimmedFits(q + [e], o);
  }

  lemma {:induction false} RequeuedFits(q: seq<Entry>, held: seq<Entry>, o: OB.Options)
    requires Sensible(o) && Fits(q, o)
    ensures Fits(Requeued(q, held, o), o)
  {
    TrimmedFits(held + q, o);
  }

  lemma StepKeepsWithinBounds(s: Sink, step: Step)
    requires WithinBounds(s) && (step.Configure? ==> Sensible(step.outbox))
    ensures WithinBounds(Next(s, step))
  {
    assert Sensible(s.options) ==> Fits([], s.options);
    hide CB.After, CB.Admits, Enqueued, Requeued, CountUpdates, Lost, Sent, Trimmed, Fits;
    match step {
      case Publish(updates, now) => EnqueuedFits(s.queue, Entry(updates, s.arrivals, 0), s.options);
      case Settle(i, outcome, now) =>
        if i < |s.publishing| { EnqueuedFits(s.queue, Entry(s.publishing[i], s.arrivals, 0), s.options); }
      case FlushAnswer(f, ok) => if f < |s.flushes| { RequeuedFits(s.queue, s.flushes[f], s.options); }
      case Configure(breaker, outbox) =>
        TrimmedFits(s.queue, outbox);
        TrimmedFits([], outbox);
        EmptyFits(outbox);
      case BeginFlush =>
      case SinkHealthy =>
      case Discard =>
    }
  }

  lemma EmptyFits(o: OB.Options)
    requires Sensible(o)
    ensures Fits([], o)
  {
  }

  /** After every step of every run both bounds in force hold. */
  lemma {:induction false} QueueStaysBounded(breaker: CB.Options, outbox: OB.Options, steps: seq<Step>)
    requires AllSensible(outbox, steps)
    ensures WithinBounds(Run(breaker, outbox, steps))
  {
    if steps != [] {
      hide Next, WithinBounds;
      QueueStaysBounded(breaker, outbox, steps[..|steps| - 1]);
      StepKeepsWithinBounds(Run(breaker, outbox, steps[..|steps| - 1]), steps[|steps| - 1]);
    } else {
      EmptyFits(outbox);
    }
  }

  // ---- Order ----

  predicate InOrder(q: seq<Entry>) {
    forall i, j :: 0 <= i < j < |q| ==> q[i].order < q[j].order
  }

  predicate AllEarlier(q: seq<Entry>, arrivals: nat) {
    forall i :: 0 <= i < |q| ==> q[i].order < arrivals
  }

  /** What a lone flush holds, then the queue: everything still to send, oldest first. */
  function Backlog(s: Sink): seq<Entry> {
    (if s.flushes == [] then [] else s.flushes[0]) + s.queue
  }

  ghost predicate Ordered(s: Sink) {
    |s.flushes| <= 1 && InOrder(Backlog(s)) && AllEarlier(Backlog(s), s.arrivals)
  }

  /** No flush begins while another one runs, as the reconnect sweep sees to (manager.ts:196-235). */
  ghost predicate OneFlushAtATime(breaker: CB.Options, outbox: OB.Options, steps: seq<Step>) {
    forall i :: 0 <= i < |steps| && steps[i].BeginFlush? ==> Run(breaker, outbox, steps[..i]).flushes == []
  }

  /** Anything in the same order, with entries left out at will, is in order too. */
  lemma SubsequenceKeepsOrder(q: seq<Entry>, t: seq<Entry>, from: nat -> nat, arrivals: nat)
    requires InOrder(q) && AllEarlier(q, arrivals)
    requires forall i {:trigger t[i]} :: 0 <= i < |t| ==> from(i) < |q| && t[i].order == q[from(i)].order
    requires forall i, j :: 0 <= i < j < |t| ==> from(i) < from(j)
    ensures InOrder(t) && AllEarlier(t, arrivals)
  {
  }

  lemma {:induction false} TrimmedKeepsOrder(p: seq<Entry>, q: seq<Entry>, o: OB.Options, arrivals: nat)
    requires InOrder(p + q) && AllEarlier(p + q, arrivals)
    ensures InOrder(p + Trimmed(q, o)) && AllEarlier(p + Trimmed(q, o), arrivals)
  {
    var cut := TrimmedIsLongestFit(q, o);
    var t := p + q[cut..];
    forall i | 0 <= i < |t|
      ensures t[i] == (p + q)[if i < |p| then i else i + cut]
    {
    }
    SubsequenceKeepsOrder(p + q, t, i => if i < |p| then i else i + cut, arrivals);
  }

  lemma ArrivalKeepsOrder(q: seq<Entry>, e: Entry)
    requires InOrder(q) && AllEarlier(q, e.order)
    ensures InOrder(q + [e]) && AllEarlier(q + [e], e.order + 1)
  {
  }

  lemma {:induction false} BufferedKeepsOrder(s: Sink, updates: seq<Update>)
    requires Ordered(s)
    ensures Ordered(Buffered(s, updates))
  {
    hide InOrder, AllEarlier, Lost, CountUpdates, Trimmed;
    var e := Entry(updates, s.arrivals, 0);
    var held := if s.flushes == [] then [] else s.flushes[0];
    ArrivalKeepsOrder(Backlog(s), e);
    assert held + (s.queue + [e]) == Backlog(s) + [e];
    TrimmedKeepsOrder(held, s.queue + [e], s.options, s.arrivals + 1);
    LaterKeepsEarlier(Backlog(s), s.arrivals);
  }

  lemma LaterKeepsEarlier(q: seq<Entry>, arrivals: nat)
    requires AllEarlier(q, arrivals)
    ensures AllEarlier(q, arrivals + 1)
  {
  }

  /** A flush that has lost its head keeps order. */
  lemma ContinuedKeepsOrder(s: Sink, t: Sink)
    requires Ordered(s) && |s.flushes| == 1 && s.flushes[0] != []
    requires t.flushes == s.flushes && t.queue == s.queue && t.arrivals == s.arrivals
    ensures Ordered(Continued(t, 0, s.flushes[0][1..]))
  {
    var rest, after := s.flushes[0][1..], Continued(t, 0, s.flushes[0][1..]);
    assert Backlog(s) == [s.flushes[0][0]] + (rest + s.queue);
    assert |Backlog(after)| == |rest + s.queue|;
    forall i | 0 <= i < |Backlog(after)|
      ensures Backlog(after)[i].order == Backlog(s)[i + 1].order
    {
    }
    SubsequenceKeepsOrder(Backlog(s), Backlog(after), i => i + 1, s.arrivals);
  }

  /** A flush that goes back, or is lost, keeps order. */
  lemma {:induction false} RefusedKeepsOrder(s: Sink)
    requires Ordered(s) && |s.flushes| == 1
    ensures Ordered(Refused(s, 0))
  {
    hide InOrder, AllEarlier, Lost, CountUpdates, Trimmed;
    var held := s.flushes[0];
    assert [] + (held + s.queue) == Backlog(s);
    TrimmedKeepsOrder([], held + s.queue, s.options, s.arrivals);
    TailKeepsOrder(held, s.queue, s.arrivals);
    assert [] + s.queue == s.queue && [] + Trimmed(held + s.queue, s.options) == Trimmed(held + s.queue, s.options);
  }

  lemma {:induction false} TailKeepsOrder(p: seq<Entry>, q: seq<Entry>, arrivals: nat)
    requires InOrder(p + q) && AllEarlier(p + q, arrivals)
    ensures InOrder(p) && AllEarlier(p, arrivals) && InOrder(q) && AllEarlier(q, arrivals)
  {
    forall i | 0 <= i < |q|
      ensures q[i] == (p + q)[|p| + i]
    {
    }
    SubsequenceKeepsOrder(p + q, q, i => |p| + i, arrivals);
    SubsequenceKeepsOrder(p + q, p, i => i, arrivals);
  }

  lemma {:induction false} AnsweredKeepsOrder(s: Sink, ok: bool)
    requires Ordered(s) && |s.flushes| == 1 && s.flushes[0] != []
    ensures Ordered(Answered(s, 0, ok))
  {
    hide Ordered, Continued, Refused, CountUpdates;
    var entry := s.flushes[0][0];
    ContinuedKeepsOrder(s, s.(redelivered := s.redelivered + |entry.updates|));
    ContinuedKeepsOrder(s, s.(dropped := s.dropped + |entry.updates|));
    RefusedKeepsOrder(s);
  }

  /** Emptying or trimming the queue keeps order. */
  lemma {:induction false} ConfiguredKeepsOrder(s: Sink, breaker: CB.Options, outbox: OB.Options)
    requires Ordered(s)
    ensures Ordered(Configured(s, breaker, outbox)) && Ordered(Next(s, Discard))
  {
    hide InOrder, AllEarlier, Lost, CountUpdates, Trimmed, CB.After;
    var held := if s.flushes == [] then [] else s.flushes[0];
    TailKeepsOrder(held, s.queue, s.arrivals);
    TrimmedKeepsOrder(held, s.queue, outbox, s.arrivals);
    assert held + [] == held;
  }

  lemma {:induction false} BeginFlushKeepsOrder(s: Sink)
    requires Ordered(s) && s.flushes == []
    ensures Ordered(Next(s, BeginFlush))
  {
    hide InOrder, AllEarlier;
    assert [] + s.queue == s.queue && Sent(s.queue) + [] == Sent(s.queue);
    SubsequenceKeepsOrder(s.queue, Sent(s.queue), i => i, s.arrivals);
  }

  lemma StepKeepsOrder(s: Sink, step: Step)
    requires Ordered(s) && (step.BeginFlush? ==> s.flushes == [])
    ensures Ordered(Next(s, step))
  {
    hide Ordered, Published, Settled, Answered, Configured, CB.After;
    OnlyFlush(s);
    match step {
      case Publish(updates, now) => PublishedKeepsOrder(s, updates, now);
      case Settle(i, outcome, now) => if i < |s.publishing| { SettledKeepsOrder(s, i, outcome, now); }
      case BeginFlush => BeginFlushKeepsOrder(s);
      case FlushAnswer(f, ok) => if f < |s.flushes| && s.flushes[f] != [] { AnsweredKeepsOrder(s, ok); }
      case SinkHealthy => SameBacklog(s, Next(s, SinkHealthy));
      case Discard => ConfiguredKeepsOrder(s, s.breaker.options, s.options);
      case Configure(breaker, outbox) => ConfiguredKeepsOrder(s, breaker, outbox);
    }
  }

  lemma OnlyFlush(s: Sink)
    requires Ordered(s)
    ensures |s.flushes| <= 1
  {
  }

  lemma SameBacklog(s: Sink, t: Sink)
    requires Ordered(s) && t.flushes == s.flushes && t.queue == s.queue && t.arrivals == s.arrivals
    ensures Ordered(t)
  {
  }

  lemma PublishedKeepsOrder(s: Sink, updates: seq<Update>, now: int)
    requires Ordered(s)
    ensures Ordered(Published(s, updates, now))
  {
    hide Ordered, Buffered, CB.After, CB.Admits;
    var asked := s.(offered := s.offered + |updates|, breaker := CB.After(s.breaker, CB.Allow(now)));
    SameBacklog(s, asked);
    SameBacklog(s, asked.(publishing := s.publishing + [updates]));
    BufferedKeepsOrder(asked, updates);
  }

  lemma SettledKeepsOrder(s: Sink, i: nat, outcome: Outcome, now: int)
    requires Ordered(s) && i < |s.publishing|
    ensures Ordered(Settled(s, i, outcome, now))
  {
    hide Buffered, CB.After;
    var updates, answered := s.publishing[i], s.(publishing := Without(s.publishing, i));
    SameBacklog(s, Settled(s, i, Delivered, now));
    hide Ordered;
    var partly := answered.(breaker := CB.After(s.breaker, CB.Partial));
    var failed := answered.(breaker := CB.After(s.breaker, CB.Failure(now)));
    SameBacklog(s, partly);
    SameBacklog(s, failed);
    SameBacklog(s, partly.(unretained := s.unretained + |updates|));
    BufferedKeepsOrder(partly, updates);
    BufferedKeepsOrder(failed, updates);
  }

  lemma OneFlushBefore(breaker: CB.Options, outbox: OB.Options, steps: seq<Step>, n: nat)
    requires OneFlushAtATime(breaker, outbox, steps) && n <= |steps|
    ensures OneFlushAtATime(breaker, outbox, steps[..n])
  {
    forall i | 0 <= i < n && steps[..n][i].BeginFlush?
      ensures Run(breaker, outbox, steps[..n][..i]).flushes == []
    {
      assert steps[..n][..i] == steps[..i];
    }
  }

  lemma {:induction false} OneFlushGrows(breaker: CB.Options, outbox: OB.Options, steps: seq<Step>, step: Step)
    ensures OneFlushAtATime(breaker, outbox, steps + [step]) <==>
            && OneFlushAtATime(breaker, outbox, steps)
            && (step.BeginFlush? ==> Run(breaker, outbox, steps).flushes == [])
  {
    hide Run;
    assert forall i :: 0 <= i <= |steps| ==> (steps + [step])[..i] == steps[..i];
    assert steps[..|steps|] == steps;
  }

  /** With one flush at a time, what is still to send stays in order of arrival, also around requeues. */
  lemma {:induction false} QueueStaysInOrder(breaker: CB.Options, outbox: OB.Options, steps: seq<Step>)
    requires OneFlushAtATime(breaker, outbox, steps)
    ensures Ordered(Run(breaker, outbox, steps))
  {
    if steps != [] {
      hide Next, Ordered;
      var front := steps[..|steps| - 1];
      OneFlushBefore(breaker, outbox, steps, |steps| - 1);
      QueueStaysInOrder(breaker, outbox, front);
      StepKeepsOrder(Run(breaker, outbox, front), steps[|steps| - 1]);
    }
  }

  // ---- Overlapping flushes ----

  lemma {:induction false} SuffixFits(p: seq<Entry>, q: seq<Entry>, o: OB.Options)
    requires Fits(p + q, o)
    ensures Fits(q, o)
  {
    CountOfConcat(p, q);
  }

  lemma {:induction false} RefusedWhole(s: Sink)
    requires s.options.enabled && s.flushes != [] && s.flushes[0] != [] && Fits(s.flushes[0] + s.queue, s.options)
    requires s.flushes[0][0].attempts < s.options.maxAttempts
    ensures Next(s, FlushAnswer(0, false)).queue == s.flushes[0] + s.queue
    ensures Next(s, FlushAnswer(0, false)).flushes == s.flushes[1..]
    ensures Next(s, FlushAnswer(0, false)).options == s.options
  {
    assert Without(s.flushes, 0) == s.flushes[1..];
    hide CountUpdates, Lost;
  }

  /** In any state: of two running flushes that are refused in turn, the later one ends up in front of the earlier. */
  lemma OverlappingRefusalsReorder(s: Sink)
    requires s.options.enabled && |s.flushes| >= 2 && s.flushes[0] != [] && s.flushes[1] != []
    requires s.flushes[0][0].attempts < s.options.maxAttempts && s.flushes[1][0].attempts < s.options.maxAttempts
    requires s.flushes[0][0].order < s.flushes[1][0].order
    requires Fits(s.flushes[1] + (s.flushes[0] + s.queue), s.options)
    ensures var after := Next(Next(s, FlushAnswer(0, false)), FlushAnswer(0, false));
            after.queue == s.flushes[1] + (s.flushes[0] + s.queue) && !InOrder(after.queue)
  {
    hide Next, Fits;
    SuffixFits(s.flushes[1], s.flushes[0] + s.queue, s.options);
    RefusedWhole(s);
    RefusedWhole(Next(s, FlushAnswer(0, false)));
    var q := s.flushes[1] + (s.flushes[0] + s.queue);
    assert q[0] == s.flushes[1][0] && q[|s.flushes[1]|] == s.flushes[0][0];
  }

  /** Ready for a publish, with nothing queued or being published, and failures to spare. */
  predicate Clear(s: Sink, failures: nat) {
    && s.breaker.state == CB.Closed && s.breaker.failures + failures < s.breaker.options.failureThreshold
    && s.publishing == [] && s.queue == [] && s.options.enabled
  }

  lemma StartIsClear(breaker: CB.Options, outbox: OB.Options, failures: nat)
    requires failures < breaker.failureThreshold && outbox.enabled
    ensures var s := Run(breaker, outbox, []);
            && Clear(s, failures) && s.flushes == [] && s.arrivals == 0 && s.queue == [] && s.options == outbox
            && s.breaker == CB.Fresh(breaker)
    ensures OneFlushAtATime(breaker, outbox, [])
  {
  }

  /** A publish that throws leaves its batch in the queue. */
  lemma PublishFails(s: Sink, u: Update) returns (after: Sink)
    requires Clear(s, 1) && s.options.maxEntries >= 1 && s.options.maxUpdates >= 1
    ensures after == Next(Next(s, Publish([u], 0)), Settle(0, Threw, 0))
    ensures after.queue == [Entry([u], s.arrivals, 0)] && after.flushes == s.flushes && after.publishing == []
    ensures after.arrivals == s.arrivals + 1 && after.options == s.options
    ensures after.breaker.state == CB.Closed && after.breaker.options == s.breaker.options
    ensures after.breaker.failures <= s.breaker.failures + 1
  {
    var sent := Next(s, Publish([u], 0));
    assert sent.publishing == [[u]] && Without(sent.publishing, 0) == [];
    after := Next(sent, Settle(0, Threw, 0));
    var e := Entry([u], s.arrivals, 0);
    assert [] + [e] == [e] && CountUpdates([e]) == 1;
  }

  /** A publish that throws, and a flush of what it left. */
  function FailThenFlush(before: seq<Step>, u: Update): seq<Step> {
    before + [Publish([u], 0)] + [Settle(0, Threw, 0)] + [BeginFlush]
  }

  lemma FailureThenFlush(breaker: CB.Options, outbox: OB.Options, before: seq<Step>, u: Update)
    requires var s := Run(breaker, outbox, before); Clear(s, 2) && s.options.maxEntries >= 1 && s.options.maxUpdates >= 1
    ensures var s, after := Run(breaker, outbox, before), Run(breaker, outbox, FailThenFlush(before, u));
            && after.flushes == s.flushes + [[Entry([u], s.arrivals, 1)]] && after.arrivals == s.arrivals + 1
            && Clear(after, 1) && after.options == s.options && after.breaker.options == s.breaker.options
            && after.breaker.failures <= s.breaker.failures + 1
    ensures OneFlushAtATime(breaker, outbox, before) && Run(breaker, outbox, before).flushes == [] ==>
              OneFlushAtATime(breaker, outbox, FailThenFlush(before, u))
  {
    hide Run, Next, OneFlushAtATime;
    var s := Run(breaker, outbox, before);
    var p1 := before + [Publish([u], 0)];
    var p2 := p1 + [Settle(0, Threw, 0)];
    RunOneMore(breaker, outbox, before, Publish([u], 0));
    RunOneMore(breaker, outbox, p1, Settle(0, Threw, 0));
    RunOneMore(breaker, outbox, p2, BeginFlush);
    var failed := PublishFails(s, u);
    FlushTaken(failed, Entry([u], s.arrivals, 0));
    OneFlushGrows(breaker, outbox, before, Publish([u], 0));
    OneFlushGrows(breaker, outbox, p1, Settle(0, Threw, 0));
    OneFlushGrows(breaker, outbox, p2, BeginFlush);
  }

  lemma {:induction false} FlushTaken(s: Sink, e: Entry)
    requires s.options.enabled && s.queue == [e]
    ensures Next(s, BeginFlush) == s.(queue := [], flushes := s.flushes + [[e.(attempts := e.attempts + 1)]])
  {
    assert Sent([e]) == [e.(attempts := e.attempts + 1)];
  }

  lemma {:induction false} TwoHeldFit(first: Entry, second: Entry, o: OB.Options)
    requires |first.updates| == |second.updates| == 1 && o.maxEntries >= 2 && o.maxUpdates >= 2
    ensures Fits([second] + ([first] + []), o)
  {
    assert [second] + ([first] + []) == [second, first];
    assert [second, first][1..] == [first];
    assert CountUpdates([first]) == 1;
  }

  /** Two publishes that throw, each with a flush of what it left. */
  lemma TwoFlushesAtOnce(breaker: CB.Options, outbox: OB.Options, u: Update) returns (steps: seq<Step>)
    requires breaker.failureThreshold > 3 && outbox.enabled && outbox.maxEntries >= 1 && outbox.maxUpdates >= 1
    ensures var s := Run(breaker, outbox, steps);
            s.flushes == [[Entry([u], 0, 1)], [Entry([u], 1, 1)]] && s.queue == [] && s.options == outbox
  {
    hide Run, FailThenFlush, OneFlushAtATime;
    StartIsClear(breaker, outbox, 3);
    FailureThenFlush(breaker, outbox, [], u);
    steps := FailThenFlush(FailThenFlush([], u), u);
    FailureThenFlush(breaker, outbox, FailThenFlush([], u), u);
  }

  /** Such a state is reached from the start, so without the condition order is lost. */
  lemma OverlappingFlushesReorder(breaker: CB.Options, outbox: OB.Options, u: Update)
    requires breaker.failureThreshold > 3 && outbox.enabled
    requires outbox.maxEntries >= 2 && outbox.maxUpdates >= 2 && outbox.maxAttempts >= 2
    ensures exists steps :: !InOrder(Run(breaker, outbox, steps).queue)
  {
    hide Next, Run, Fits, InOrder;
    var p6 := TwoFlushesAtOnce(breaker, outbox, u);
    var p7 := p6 + [FlushAnswer(0, false)];
    var p8 := p7 + [FlushAnswer(0, false)];
    RunOneMore(breaker, outbox, p6, FlushAnswer(0, false));
    RunOneMore(breaker, outbox, p7, FlushAnswer(0, false));
    TwoHeldFit(Entry([u], 0, 1), Entry([u], 1, 1), outbox);
    OverlappingRefusalsReorder(Run(breaker, outbox, p6));
    assert !InOrder(Run(breaker, outbox, p8).queue);
  }

  lemma {:induction false} CutOffHeldVanishes(s: Sink, breaker: CB.Options, e: Entry)
    requires s.flushes == [[e]] && e.attempts < s.options.maxAttempts && |e.updates| > 0
    ensures Next(Next(s, Configure(breaker, s.options.(enabled := false))), FlushAnswer(0, false)).vanished > s.vanished
  {
    assert CountUpdates([e]) == |e.updates|;
    hide CountUpdates, Trimmed, Lost, CB.After;
  }

  /** A run in which the outbox is switched off under a flush, and its batch vanishes. */
  lemma {:induction false} CutOffFlushVanishes(breaker: CB.Options, outbox: OB.Options, u: Update)
    requires breaker.failureThreshold > 2 && outbox.enabled
    requires outbox.maxEntries >= 1 && outbox.maxUpdates >= 1 && outbox.maxAttempts >= 2
    ensures exists steps :: Run(breaker, outbox, steps).vanished > 0
  {
    hide Run, Next, FailThenFlush, OneFlushAtATime;
    StartIsClear(breaker, outbox, 2);
    var p3 := FailThenFlush([], u);
    FailureThenFlush(breaker, outbox, [], u);
    var p4 := p3 + [Configure(breaker, outbox.(enabled := false))];
    var p5 := p4 + [FlushAnswer(0, false)];
    RunOneMore(breaker, outbox, p3, Configure(breaker, outbox.(enabled := false)));
    RunOneMore(breaker, outbox, p4, FlushAnswer(0, false));
    CutOffHeldVanishes(Run(breaker, outbox, p3), breaker, Entry([u], 0, 1));
    assert Run(breaker, outbox, p5).vanished > 0;
  }
}
