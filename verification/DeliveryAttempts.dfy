/**
 * Whether queued entries have attempts left (publisher.ts:69-88, 217-265), over
 * every run of `Delivery`: always, as long as their number is not lowered, and
 * with one flush at a time exactly as long as no configuration strands one.
 */
module DeliveryAttempts {
  import CB = CircuitBreakers
  import opened OB = Outboxes
  import opened Delivery
  import opened DeliveryQueue

  // ---- As long as their number is not lowered ----

  predicate AllBelow(q: seq<Entry>, max: int) {
    forall i :: 0 <= i < |q| ==> q[i].attempts < max
  }

  /** The head of a flush has been sent once more. */
  predicate HeldBelow(held: seq<Entry>, max: int) {
    held != [] && held[0].attempts <= max && AllBelow(held[1..], max)
  }

  /** Queued entries can still be tried, and so can what waits behind the head of a flush. */
  ghost predicate Retriable(s: Sink) {
    && s.options.maxAttempts >= 1
    && AllBelow(s.queue, s.options.maxAttempts)
    && forall f :: 0 <= f < |s.flushes| ==> HeldBelow(s.flushes[f], s.options.maxAttempts)
  }

  lemma {:induction false} TrimmedBelow(q: seq<Entry>, o: OB.Options, max: int)
    requires AllBelow(q, max)
    ensures AllBelow(Trimmed(q, o), max)
  {
    var cut := TrimmedIsLongestFit(q, o);
  }

  lemma BelowConcat(p: seq<Entry>, q: seq<Entry>, max: int)
    requires AllBelow(p, max) && AllBelow(q, max)
    ensures AllBelow(p + q, max)
  {
  }

  lemma SentBelow(q: seq<Entry>, max: int)
    requires AllBelow(q, max) && q != []
    ensures HeldBelow(Sent(q), max)
  {
    assert Sent(q)[1..] == q[1..];
  }

  /** A flush whose head may be tried again goes back whole. */
  lemma RefusedBelow(held: seq<Entry>, max: int)
    requires HeldBelow(held, max) && held[0].attempts < max
    ensures AllBelow(held, max)
  {
    forall i | 0 <= i < |held|
      ensures held[i].attempts < max
    {
      assert i > 0 ==> held[i] == held[1..][i - 1];
    }
  }

  lemma {:induction false} BufferedRetriable(s: Sink, updates: seq<Update>)
    requires Retriable(s)
    ensures Retriable(Buffered(s, updates))
  {
    hide HeldBelow, Lost, CountUpdates, Trimmed;
    var e := Entry(updates, s.arrivals, 0);
    BelowConcat(s.queue, [e], s.options.maxAttempts);
    TrimmedBelow(s.queue + [e], s.options, s.options.maxAttempts);
  }

  lemma {:induction false} AnsweredRetriable(s: Sink, f: nat, ok: bool)
    requires Retriable(s) && f < |s.flushes|
    ensures Retriable(Answered(s, f, ok))
  {
    hide HeldBelow, AllBelow, Lost, CountUpdates, Trimmed, Sent;
    var held, max := s.flushes[f], s.options.maxAttempts;
    assert HeldBelow(held, max);
    HeldParts(held, max);
    if held[1..] != [] {
      SentBelow(held[1..], max);
    }
    if held[0].attempts < max {
      RefusedBelow(held, max);
      BelowConcat(held, s.queue, max);
      TrimmedBelow(held + s.queue, s.options, max);
    }
  }

  lemma HeldParts(held: seq<Entry>, max: int)
    requires HeldBelow(held, max)
    ensures held != [] && held[0].attempts <= max && AllBelow(held[1..], max)
  {
  }

  lemma FlushBegunRetriable(s: Sink)
    requires Retriable(s)
    ensures Retriable(Next(s, BeginFlush))
  {
    hide HeldBelow, Sent;
    if s.queue != [] {
      SentBelow(s.queue, s.options.maxAttempts);
    }
  }

  lemma RaisedBelow(held: seq<Entry>, max: int, higher: int)
    requires HeldBelow(held, max) && max <= higher
    ensures HeldBelow(held, higher)
  {
  }

  lemma {:induction false} ConfiguredRetriable(s: Sink, breaker: CB.Options, outbox: OB.Options)
    requires Retriable(s) && outbox.maxAttempts >= s.options.maxAttempts
    ensures Retriable(Configured(s, breaker, outbox))
  {
    hide HeldBelow, Lost, CountUpdates, Trimmed, CB.After;
    TrimmedBelow(s.queue, outbox, s.options.maxAttempts);
    forall f | 0 <= f < |s.flushes|
      ensures HeldBelow(s.flushes[f], outbox.maxAttempts)
    {
      RaisedBelow(s.flushes[f], s.options.maxAttempts, outbox.maxAttempts);
    }
  }

  lemma StepKeepsRetriable(s: Sink, step: Step)
    requires Retriable(s) && (step.Configure? ==> step.outbox.maxAttempts >= s.options.maxAttempts)
    ensures Retriable(Next(s, step))
  {
    hide HeldBelow, AllBelow, Buffered, Answered, Configured, CB.After, CB.Admits, CountUpdates, Lost, Sent;
    match step {
      case Publish(updates, now) =>
        BufferedRetriable(s.(offered := s.offered + |updates|, breaker := CB.After(s.breaker, CB.Allow(now))), updates);
      case Settle(i, outcome, now) =>
        if i < |s.publishing| {
          var updates, answered := s.publishing[i], s.(publishing := Without(s.publishing, i));
          BufferedRetriable(answered.(breaker := CB.After(s.breaker, CB.Partial)), updates);
          BufferedRetriable(answered.(breaker := CB.After(s.breaker, CB.Failure(now))), updates);
        }
      case BeginFlush => FlushBegunRetriable(s);
      case FlushAnswer(f, ok) => if f < |s.flushes| { AnsweredRetriable(s, f, ok); }
      case Configure(breaker, outbox) => ConfiguredRetriable(s, breaker, outbox);
      case SinkHealthy =>
      case Discard => NoneBelow(s.options.maxAttempts);
    }
  }

  lemma NoneBelow(max: int)
    ensures AllBelow([], max)
  {
  }

  /** No step lowers the number of attempts. */
  ghost predicate AttemptsNotLowered(breaker: CB.Options, outbox: OB.Options, steps: seq<Step>) {
    forall i :: 0 <= i < |steps| && steps[i].Configure? ==>
      steps[i].outbox.maxAttempts >= Run(breaker, outbox, steps[..i]).options.maxAttempts
  }

  lemma AttemptsNotLoweredBefore(breaker: CB.Options, outbox: OB.Options, steps: seq<Step>, n: nat)
    requires AttemptsNotLowered(breaker, outbox, steps) && n <= |steps|
    ensures AttemptsNotLowered(breaker, outbox, steps[..n])
  {
    forall i | 0 <= i < n && steps[..n][i].Configure?
      ensures steps[..n][i].outbox.maxAttempts >= Run(breaker, outbox, steps[..n][..i]).options.maxAttempts
    {
      assert steps[..n][..i] == steps[..i];
    }
  }

  /** Unless the number of attempts is lowered, every queued entry has attempts left. */
  lemma {:induction false} QueueStaysRetriable(breaker: CB.Options, outbox: OB.Options, steps: seq<Step>)
    requires outbox.maxAttempts >= 1 && AttemptsNotLowered(breaker, outbox, steps)
    ensures Retriable(Run(breaker, outbox, steps))
  {
    if steps != [] {
      hide Next, Retriable;
      var front := steps[..|steps| - 1];
      AttemptsNotLoweredBefore(breaker, outbox, steps, |steps| - 1);
      QueueStaysRetriable(breaker, outbox, front);
      StepKeepsRetriable(Run(breaker, outbox, front), steps[|steps| - 1]);
    }
  }

  // ---- With one flush at a time, whatever is configured ----

  /** Every entry of the queue may be tried once more. */
  predicate AttemptsLeft(s: Sink) {
    s.options.maxAttempts >= 1 && AllBelow(s.queue, s.options.maxAttempts)
  }

  predicate OnlyOldestTried(q: seq<Entry>) {
    forall i :: 0 < i < |q| ==> q[i].attempts == 0
  }

  /** Of all that is still to send only the oldest entry has ever been tried. */
  ghost predicate Tidy(s: Sink) {
    |s.flushes| <= 1 && (s.flushes != [] ==> s.flushes[0] != []) && OnlyOldestTried(Backlog(s))
  }

  /** A configuration that leaves the queue whole, and its oldest entry without another attempt. */
  predicate Strands(s: Sink, step: Step) {
    && step.Configure? && s.options.enabled && step.outbox.enabled
    && s.flushes == [] && s.queue != [] && Fits(s.queue, step.outbox)
    && s.queue[0].attempts >= step.outbox.maxAttempts
  }

  lemma {:induction false} TrimmedTidy(p: seq<Entry>, q: seq<Entry>, o: OB.Options)
    requires OnlyOldestTried(p + q)
    ensures OnlyOldestTried(p + Trimmed(q, o))
  {
    var cut := TrimmedIsLongestFit(q, o);
    var t := p + q[cut..];
    forall i | 0 < i < |t|
      ensures t[i].attempts == 0
    {
      assert t[i] == (p + q)[if i < |p| then i else i + cut];
    }
  }

  lemma UntriedJoins(q: seq<Entry>, e: Entry)
    requires OnlyOldestTried(q) && e.attempts == 0
    ensures OnlyOldestTried(q + [e])
  {
  }

  /** Behind another entry nothing has been tried. */
  lemma BehindIsUntried(p: seq<Entry>, q: seq<Entry>, max: int)
    requires OnlyOldestTried(p + q) && max >= 1
    ensures OnlyOldestTried(p) && OnlyOldestTried(q)
    ensures p != [] ==> AllBelow(q, max)
    ensures p != [] && p[0].attempts < max ==> AllBelow(p + q, max)
  {
    forall i | 0 <= i < |q|
      ensures q[i] == (p + q)[|p| + i]
    {
    }
    forall i | 0 <= i < |p|
      ensures p[i] == (p + q)[i]
    {
    }
  }

  /** What a step other than a configuration keeps. */
  ghost predicate Keeps(s: Sink, t: Sink) {
    Tidy(t) && (AttemptsLeft(s) ==> AttemptsLeft(t))
  }

  /** What is still to send, and with which options, is all that counts. */
  lemma SameKeeps(s: Sink, t: Sink, u: Sink)
    requires t.flushes == s.flushes && t.queue == s.queue && t.options == s.options
    ensures Keeps(t, u) ==> Keeps(s, u)
    ensures Tidy(s) ==> Tidy(t) && Keeps(s, t)
  {
  }

  lemma {:induction false} BufferedKeeps(s: Sink, updates: seq<Update>)
    requires Tidy(s)
    ensures Keeps(s, Buffered(s, updates))
  {
    var held, e := if s.flushes == [] then [] else s.flushes[0], Entry(updates, s.arrivals, 0);
    var q, max := s.queue + [e], s.options.maxAttempts;
    UntriedJoins(held + s.queue, e);
    assert held + q == (held + s.queue) + [e];
    TrimmedTidy(held, q, s.options);
    if AttemptsLeft(s) {
      assert AllBelow([e], max);
      BelowConcat(s.queue, [e], max);
      TrimmedBelow(q, s.options, max);
    }
    hide OnlyOldestTried, AllBelow, Trimmed, CountUpdates, Lost;
  }

  lemma PublishedKeeps(s: Sink, updates: seq<Update>, now: int)
    requires Tidy(s)
    ensures Keeps(s, Published(s, updates, now))
  {
    hide Tidy, Keeps, Buffered, CB.After, CB.Admits;
    var asked := s.(offered := s.offered + |updates|, breaker := CB.After(s.breaker, CB.Allow(now)));
    SameKeeps(s, asked, Buffered(asked, updates));
    SameKeeps(s, asked.(publishing := s.publishing + [updates]), asked);
    BufferedKeeps(asked, updates);
  }

  lemma SettledKeeps(s: Sink, i: nat, outcome: Outcome, now: int)
    requires Tidy(s) && i < |s.publishing|
    ensures Keeps(s, Settled(s, i, outcome, now))
  {
    hide Tidy, Keeps, Buffered, CB.After;
    var updates, answered := s.publishing[i], s.(publishing := Without(s.publishing, i));
    var partly := answered.(breaker := CB.After(s.breaker, CB.Partial));
    var failed := answered.(breaker := CB.After(s.breaker, CB.Failure(now)));
    SameKeeps(s, Settled(s, i, Delivered, now), s);
    SameKeeps(s, partly.(unretained := s.unretained + |updates|), s);
    SameKeeps(s, partly, Buffered(partly, updates));
    SameKeeps(s, failed, Buffered(failed, updates));
    BufferedKeeps(partly, updates);
    BufferedKeeps(failed, updates);
  }

  lemma BeginFlushKeeps(s: Sink)
    requires Tidy(s) && s.flushes == []
    ensures Keeps(s, Next(s, BeginFlush))
  {
    assert [] + s.queue == s.queue && Sent(s.queue) + [] == Sent(s.queue);
  }

  /** A flush that has lost its head keeps what is behind it untried. */
  lemma ContinuedKeeps(s: Sink, t: Sink)
    requires Tidy(s) && |s.flushes| == 1
    requires t.flushes == s.flushes && t.queue == s.queue && t.options == s.options
    ensures Keeps(s, Continued(t, 0, s.flushes[0][1..]))
  {
    var rest, after := s.flushes[0][1..], Continued(t, 0, s.flushes[0][1..]);
    forall i | 0 < i < |Backlog(after)|
      ensures Backlog(after)[i].attempts == 0
    {
      assert Backlog(after)[i] == Backlog(s)[i + 1];
    }
  }

  lemma {:induction false} RefusedKeeps(s: Sink)
    requires Tidy(s) && |s.flushes| == 1 && s.flushes[0][0].attempts < s.options.maxAttempts
    ensures Keeps(s, Refused(s, 0))
  {
    var held, max := s.flushes[0], s.options.maxAttempts;
    TrimmedTidy([], held + s.queue, s.options);
    assert [] + (held + s.queue) == held + s.queue && [] + s.queue == s.queue;
    assert [] + Trimmed(held + s.queue, s.options) == Trimmed(held + s.queue, s.options);
    BehindIsUntried(held, s.queue, max);
    TrimmedBelow(held + s.queue, s.options, max);
    hide OnlyOldestTried, AllBelow, Trimmed, CountUpdates, Lost;
  }

  lemma {:induction false} AnsweredKeeps(s: Sink, ok: bool)
    requires Tidy(s) && |s.flushes| == 1 && s.flushes[0] != []
    ensures Keeps(s, Answered(s, 0, ok))
  {
    hide Tidy, Keeps, Continued, Refused, CountUpdates;
    var entry := s.flushes[0][0];
    ContinuedKeeps(s, s.(redelivered := s.redelivered + |entry.updates|));
    ContinuedKeeps(s, s.(dropped := s.dropped + |entry.updates|));
    if entry.attempts < s.options.maxAttempts {
      RefusedKeeps(s);
    }
  }

  lemma {:induction false} EmptiedKeeps(s: Sink, t: Sink)
    requires Tidy(s) && t.flushes == s.flushes && t.queue == []
    ensures Tidy(t) && (t.options.maxAttempts >= 1 ==> AttemptsLeft(t))
  {
    var held := if s.flushes == [] then [] else s.flushes[0];
    BehindIsUntried(held, s.queue, 1);
    assert held + [] == held;
  }

  /** Cutting the queue keeps its oldest entry exactly when nothing is cut. */
  lemma {:induction false} TrimmedBelowIff(q: seq<Entry>, o: OB.Options, max: int)
    requires OnlyOldestTried(q) && max >= 1
    ensures AllBelow(Trimmed(q, o), max) <==> !(q != [] && Fits(q, o) && q[0].attempts >= max)
  {
    var cut := TrimmedIsLongestFit(q, o);
    assert q[0..] == q;
    assert cut == 0 <==> q == [] || Fits(q, o);
  }

  /** A new number of attempts strands an entry exactly as `Strands` says. */
  lemma {:induction false} ConfiguredStrandsIff(s: Sink, breaker: CB.Options, outbox: OB.Options)
    requires Tidy(s) && outbox.maxAttempts >= 1
    ensures Tidy(Configured(s, breaker, outbox))
    ensures AttemptsLeft(Configured(s, breaker, outbox)) <==> !Strands(s, Configure(breaker, outbox))
  {
    var held, t, max := if s.flushes == [] then [] else s.flushes[0], Configured(s, breaker, outbox), outbox.maxAttempts;
    if s.options.enabled && outbox.enabled {
      TrimmedTidy(held, s.queue, outbox);
      BehindIsUntried(held, s.queue, max);
      TrimmedBelowIff(s.queue, outbox, max);
      if held != [] {
        TrimmedBelow(s.queue, outbox, max);
      }
    } else {
      EmptiedKeeps(s, t);
    }
    hide OnlyOldestTried, AllBelow, Trimmed, Fits, CountUpdates, Lost, CB.After;
  }

  lemma {:induction false} DiscardedKeeps(s: Sink)
    requires Tidy(s)
    ensures Keeps(s, Next(s, Discard))
  {
    if s.options.enabled {
      hide Tidy, AttemptsLeft;
      EmptiedKeeps(s, Next(s, Discard));
    }
    hide Tidy, OnlyOldestTried, AllBelow, CountUpdates, Lost;
  }

  lemma StepKeeps(s: Sink, step: Step)
    requires Tidy(s) && !step.Configure? && (step.BeginFlush? ==> s.flushes == [])
    ensures Keeps(s, Next(s, step))
  {
    hide Tidy, Keeps, Published, Settled, Answered, CB.After;
    FlushIsWaiting(s);
    match step {
      case Publish(updates, now) => PublishedKeeps(s, updates, now);
      case Settle(i, outcome, now) =>
        SameKeeps(s, s, s);
        if i < |s.publishing| { SettledKeeps(s, i, outcome, now); }
      case BeginFlush => BeginFlushKeeps(s);
      case FlushAnswer(f, ok) =>
        SameKeeps(s, s, s);
        if f < |s.flushes| { AnsweredKeeps(s, ok); }
      case SinkHealthy => SameKeeps(s, Next(s, SinkHealthy), s);
      case Discard => DiscardedKeeps(s);
    }
  }

  lemma FlushIsWaiting(s: Sink)
    requires Tidy(s)
    ensures |s.flushes| <= 1 && (s.flushes != [] ==> s.flushes[0] != [])
  {
  }

  /**
   * From any state in which only the oldest entry has been tried and every entry
   * has attempts left, a step takes the last one from an entry of the queue
   * exactly when it is a configuration that strands the oldest.
   */
  lemma StrandsIff(s: Sink, step: Step)
    requires Tidy(s) && (step.BeginFlush? ==> s.flushes == []) && (step.Configure? ==> step.outbox.maxAttempts >= 1)
    ensures Tidy(Next(s, step))
    ensures AttemptsLeft(s) ==> (AttemptsLeft(Next(s, step)) <==> !Strands(s, step))
  {
    if step.Configure? {
      ConfiguredStrandsIff(s, step.breaker, step.outbox);
    } else {
      StepKeeps(s, step);
    }
    hide Tidy, AttemptsLeft, Published, Settled, Answered, Configured, CB.After;
  }

  // ---- Over every run ----

  predicate AttemptsAtLeastOne(outbox: OB.Options, steps: seq<Step>) {
    outbox.maxAttempts >= 1 && forall i :: 0 <= i < |steps| && steps[i].Configure? ==> steps[i].outbox.maxAttempts >= 1
  }

  /** With one flush at a time only the oldest entry still to send has ever been tried. */
  lemma {:induction false} OnlyOldestIsTried(breaker: CB.Options, outbox: OB.Options, steps: seq<Step>)
    requires OneFlushAtATime(breaker, outbox, steps) && AttemptsAtLeastOne(outbox, steps)
    ensures Tidy(Run(breaker, outbox, steps))
  {
    if steps != [] {
      hide Next, Tidy;
      var front := steps[..|steps| - 1];
      OneFlushBefore(breaker, outbox, steps, |steps| - 1);
      OnlyOldestIsTried(breaker, outbox, front);
      StrandsIff(Run(breaker, outbox, front), steps[|steps| - 1]);
    }
  }

  /** After every step of the run every entry of the queue has attempts left. */
  ghost predicate AlwaysAttemptsLeft(breaker: CB.Options, outbox: OB.Options, steps: seq<Step>) {
    forall n :: 0 <= n <= |steps| ==> AttemptsLeft(Run(breaker, outbox, steps[..n]))
  }

  ghost predicate NothingStrands(breaker: CB.Options, outbox: OB.Options, steps: seq<Step>) {
    forall i :: 0 <= i < |steps| ==> !Strands(Run(breaker, outbox, steps[..i]), steps[i])
  }

  lemma {:induction false} AlwaysOneMore(breaker: CB.Options, outbox: OB.Options, steps: seq<Step>)
    requires steps != []
    ensures var front := steps[..|steps| - 1];
            && (AlwaysAttemptsLeft(breaker, outbox, steps) <==>
                AlwaysAttemptsLeft(breaker, outbox, front) && AttemptsLeft(Run(breaker, outbox, steps)))
            && (NothingStrands(breaker, outbox, steps) <==>
                NothingStrands(breaker, outbox, front) && !Strands(Run(breaker, outbox, front), steps[|steps| - 1]))
  {
    hide Run, AttemptsLeft, Strands;
    var front := steps[..|steps| - 1];
    assert forall n :: 0 <= n <= |front| ==> front[..n] == steps[..n];
    assert steps[..|steps|] == steps && front[..|front|] == front;
  }

  /**
   * Over every run with one flush at a time, whatever is configured meanwhile:
   * every queued entry always has attempts left exactly when no configuration
   * strands one.
   */
  lemma {:induction false} AlwaysAttemptsLeftIff(breaker: CB.Options, outbox: OB.Options, steps: seq<Step>)
    requires OneFlushAtATime(breaker, outbox, steps) && AttemptsAtLeastOne(outbox, steps)
    ensures AlwaysAttemptsLeft(breaker, outbox, steps) <==> NothingStrands(breaker, outbox, steps)
  {
    if steps != [] {
      var front := steps[..|steps| - 1];
      OneFlushBefore(breaker, outbox, steps, |steps| - 1);
      OnlyOldestIsTried(breaker, outbox, front);
      AlwaysAttemptsLeftIff(breaker, outbox, front);
      AlwaysOneMore(breaker, outbox, steps);
      assert AlwaysAttemptsLeft(breaker, outbox, front) ==> AttemptsLeft(Run(breaker, outbox, front)) by {
        assert front[..|front|] == front;
      }
      StrandsIff(Run(breaker, outbox, front), steps[|steps| - 1]);
      hide AlwaysAttemptsLeft, NothingStrands, Tidy, AttemptsLeft, Strands, Next;
    }
  }

  // ---- Runs that leave an entry without another attempt ----

  lemma {:induction false} LoweredHeldStrands(s: Sink, breaker: CB.Options, e: Entry)
    requires s.options.enabled && s.flushes == [[e]] && s.queue == [] && |e.updates| == 1 && e.attempts == 1
    requires s.options.maxEntries >= 1 && s.options.maxUpdates >= 1 && s.options.maxAttempts >= 2
    ensures var after := Next(Next(s, FlushAnswer(0, false)), Configure(breaker, s.options.(maxAttempts := 1)));
            !AttemptsLeft(after)
  {
    assert [e] + [] == [e] && CountUpdates([e]) == 1;
    RefusedWhole(s);
    var lowered := s.options.(maxAttempts := 1);
    assert Trimmed([e], lowered) == [e];
    hide Answered, CountUpdates, Trimmed, Lost, CB.After;
    assert Next(Next(s, FlushAnswer(0, false)), Configure(breaker, lowered)).queue[0].attempts == 1;
  }

  /** With one flush at a time: an entry is refused, and the number of attempts is lowered to those it has had. */
  lemma {:induction false} LoweredAttemptsStrand(breaker: CB.Options, outbox: OB.Options, u: Update)
    requires breaker.failureThreshold > 2 && outbox.enabled
    requires outbox.maxEntries >= 1 && outbox.maxUpdates >= 1 && outbox.maxAttempts >= 2
    ensures exists steps :: OneFlushAtATime(breaker, outbox, steps) && !AttemptsLeft(Run(breaker, outbox, steps))
  {
    hide Run, Next, AttemptsLeft, FailThenFlush, OneFlushAtATime;
    StartIsClear(breaker, outbox, 2);
    var lowered := Configure(breaker, outbox.(maxAttempts := 1));
    var p3 := FailThenFlush([], u);
    var p4 := p3 + [FlushAnswer(0, false)];
    FailureThenFlush(breaker, outbox, [], u);
    RunOneMore(breaker, outbox, p3, FlushAnswer(0, false));
    RunOneMore(breaker, outbox, p4, lowered);
    OneFlushGrows(breaker, outbox, p3, FlushAnswer(0, false));
    OneFlushGrows(breaker, outbox, p4, lowered);
    LoweredHeldStrands(Run(breaker, outbox, p3), breaker, Entry([u], 0, 1));
    assert OneFlushAtATime(breaker, outbox, p4 + [lowered]) && !AttemptsLeft(Run(breaker, outbox, p4 + [lowered]));
  }

  // ---- Flushes that overlap ----

  /**
   * In any state, a refused flush of which nothing is cut strands an entry
   * exactly when one waiting behind its head has had all its attempts.  With one
   * flush at a time there is none.
   */
  lemma {:induction false} RefusalStrandsIff(s: Sink, f: nat)
    requires AttemptsLeft(s) && s.options.enabled && f < |s.flushes| && s.flushes[f] != []
    requires s.flushes[f][0].attempts < s.options.maxAttempts && Fits(s.flushes[f] + s.queue, s.options)
    ensures AttemptsLeft(Next(s, FlushAnswer(f, false))) <==> AllBelow(s.flushes[f][1..], s.options.maxAttempts)
  {
    var held, max := s.flushes[f], s.options.maxAttempts;
    assert Next(s, FlushAnswer(f, false)).queue == held + s.queue;
    forall i | 0 <= i < |held[1..]|
      ensures held[1..][i] == (held + s.queue)[i + 1]
    {
    }
    if AllBelow(held[1..], max) {
      RefusedBelow(held, max);
      BelowConcat(held, s.queue, max);
    }
    hide CountUpdates, Trimmed, Fits, Lost;
  }

  lemma NothingStrandsAtStart(breaker: CB.Options, outbox: OB.Options)
    ensures NothingStrands(breaker, outbox, [])
  {
  }

  lemma StrandsNothingMore(breaker: CB.Options, outbox: OB.Options, steps: seq<Step>, step: Step)
    requires NothingStrands(breaker, outbox, steps) && !Strands(Run(breaker, outbox, steps), step)
    ensures NothingStrands(breaker, outbox, steps + [step])
  {
    assert (steps + [step])[..|steps|] == steps;
    AlwaysOneMore(breaker, outbox, steps + [step]);
  }

  /** A step that configures nothing, at the end of a run. */
  lemma OneMore(breaker: CB.Options, outbox: OB.Options, steps: seq<Step>, step: Step) returns (more: seq<Step>)
    requires NothingStrands(breaker, outbox, steps) && !step.Configure?
    ensures NothingStrands(breaker, outbox, more)
    ensures Run(breaker, outbox, more) == Next(Run(breaker, outbox, steps), step)
  {
    more := steps + [step];
    RunOneMore(breaker, outbox, steps, step);
    StrandsNothingMore(breaker, outbox, steps, step);
  }

  lemma {:induction false} RefusedHeld(s: Sink, e: Entry)
    requires s.options.enabled && s.flushes == [[e]] && s.queue == [] && |e.updates| == 1 && e.attempts < s.options.maxAttempts
    requires s.options.maxEntries >= 1 && s.options.maxUpdates >= 1
    ensures Next(s, FlushAnswer(0, false)) == s.(flushes := [], queue := [e])
  {
    assert Without([[e]], 0) == [];
    assert Requeued([], [e], s.options) == [e] by {
      assert [e] + [] == [e] && CountUpdates([e]) == 1;
    }
    assert Lost(CountUpdates([e]) + CountUpdates([]), [e]) == 0;
    hide CountUpdates, Requeued, Lost, CB.After, Trimmed;
  }

  lemma {:induction false} RetriedHeld(s: Sink, e: Entry)
    requires s.options.enabled && s.flushes == [[e]] && s.queue == [] && |e.updates| == 1 && e.attempts < s.options.maxAttempts
    requires s.options.maxEntries >= 1 && s.options.maxUpdates >= 1
    ensures Next(Next(s, FlushAnswer(0, false)), BeginFlush) == s.(flushes := [[e.(attempts := e.attempts + 1)]])
  {
    RefusedHeld(s, e);
    assert Sent([e]) == [e.(attempts := e.attempts + 1)];
    hide CountUpdates, Requeued, Lost, CB.After, Sent, Answered, Configured, Published, Settled;
  }

  /** A refused entry is taken and sent again. */
  lemma {:induction false} RetryOnce(breaker: CB.Options, outbox: OB.Options, steps: seq<Step>, e: Entry)
    returns (more: seq<Step>)
    requires NothingStrands(breaker, outbox, steps)
    requires var s := Run(breaker, outbox, steps);
             && s.options.enabled && s.flushes == [[e]] && s.queue == [] && |e.updates| == 1 && e.attempts < s.options.maxAttempts
             && s.options.maxEntries >= 1 && s.options.maxUpdates >= 1
    ensures NothingStrands(breaker, outbox, more)
    ensures Run(breaker, outbox, more) == Run(breaker, outbox, steps).(flushes := [[e.(attempts := e.attempts + 1)]])
  {
    hide Run, Next, NothingStrands;
    var refused := OneMore(breaker, outbox, steps, FlushAnswer(0, false));
    more := OneMore(breaker, outbox, refused, BeginFlush);
    RetriedHeld(Run(breaker, outbox, steps), e);
  }

  lemma {:induction false} FailThenFlushStrandsNothing(breaker: CB.Options, outbox: OB.Options, steps: seq<Step>, u: Update)
    requires NothingStrands(breaker, outbox, steps)
    ensures NothingStrands(breaker, outbox, FailThenFlush(steps, u))
  {
    hide Run, NothingStrands;
    var p1 := steps + [Publish([u], 0)];
    var p2 := p1 + [Settle(0, Threw, 0)];
    StrandsNothingMore(breaker, outbox, steps, Publish([u], 0));
    StrandsNothingMore(breaker, outbox, p1, Settle(0, Threw, 0));
    StrandsNothingMore(breaker, outbox, p2, BeginFlush);
  }

  /** A flush that holds an entry sent three times, and one that has been sent once. */
  lemma {:induction false} UnevenFlushes(breaker: CB.Options, outbox: OB.Options, u: Update) returns (steps: seq<Step>)
    requires breaker.failureThreshold > 3 && outbox.enabled
    requires outbox.maxEntries >= 1 && outbox.maxUpdates >= 1 && outbox.maxAttempts >= 3
    ensures NothingStrands(breaker, outbox, steps)
    ensures var s := Run(breaker, outbox, steps);
            s.flushes == [[Entry([u], 0, 3)], [Entry([u], 1, 1)]] && s.queue == [] && s.options == outbox
  {
    hide Run, FailThenFlush, OneFlushAtATime, NothingStrands, Next;
    StartIsClear(breaker, outbox, 3);
    NothingStrandsAtStart(breaker, outbox);
    FailureThenFlush(breaker, outbox, [], u);
    FailThenFlushStrandsNothing(breaker, outbox, [], u);
    var once := RetryOnce(breaker, outbox, FailThenFlush([], u), Entry([u], 0, 1));
    var twice := RetryOnce(breaker, outbox, once, Entry([u], 0, 2));
    FailureThenFlush(breaker, outbox, twice, u);
    FailThenFlushStrandsNothing(breaker, outbox, twice, u);
    steps := FailThenFlush(twice, u);
  }

  lemma {:induction false} TakenTogether(s: Sink, breaker: CB.Options, older: Entry, newer: Entry)
    requires s.options.enabled && s.flushes == [] && s.queue == [newer, older] && Fits([newer, older], s.options)
    requires older.attempts == 3 && newer.attempts == 1
    ensures var taken, lowered := Next(s, BeginFlush), Configure(breaker, s.options.(maxAttempts := 3));
            !Strands(taken, lowered) && !AttemptsLeft(Next(Next(taken, lowered), FlushAnswer(0, false)))
  {
    hide CountUpdates, Lost, CB.After;
    var taken, lowered := Next(s, BeginFlush), Configure(breaker, s.options.(maxAttempts := 3));
    var held := [newer.(attempts := 2), older];
    assert Sent([newer, older]) == held && held + [] == held;
    assert taken.flushes == [held] && taken.queue == [];
    var waiting := Next(taken, lowered);
    assert waiting.flushes == [held] && waiting.queue == [] && waiting.options == s.options.(maxAttempts := 3);
    SameCount(newer, older);
    RefusedWhole(waiting);
    assert Next(waiting, FlushAnswer(0, false)).queue[1].attempts == 3;
  }

  lemma SameCount(newer: Entry, older: Entry)
    ensures CountUpdates([newer.(attempts := 2), older]) == CountUpdates([newer, older])
  {
    assert [newer.(attempts := 2), older][1..] == [newer, older][1..];
  }

  /** Both are refused, taken together, and refused again with fewer attempts allowed than the second has had. */
  lemma {:induction false} TogetherStranded(s: Sink, breaker: CB.Options, older: Entry, newer: Entry)
    requires s.options.enabled && s.flushes == [[older], [newer]] && s.queue == []
    requires |older.updates| == |newer.updates| == 1 && s.options.maxEntries >= 2 && s.options.maxUpdates >= 2
    requires older.attempts == 3 && newer.attempts == 1 && s.options.maxAttempts >= 4
    ensures var taken := Next(Next(Next(s, FlushAnswer(0, false)), FlushAnswer(0, false)), BeginFlush);
            var lowered := Configure(breaker, s.options.(maxAttempts := 3));
            !Strands(taken, lowered) && !AttemptsLeft(Next(Next(taken, lowered), FlushAnswer(0, false)))
  {
    hide Next, Fits, AllBelow;
    TwoHeldFit(older, newer, s.options);
    SuffixFits([newer], [older] + [], s.options);
    RefusedWhole(s);
    var one := Next(s, FlushAnswer(0, false));
    RefusedWhole(one);
    var both := Next(one, FlushAnswer(0, false));
    TakenTogether(both, breaker, older, newer);
  }

  /**
   * Without that condition a run in which no configuration strands anything, as
   * far as the queue tells, can leave an entry without another attempt.
   */
  lemma {:induction false} OverlappingFlushesStrand(breaker: CB.Options, outbox: OB.Options, u: Update)
    requires breaker.failureThreshold > 3 && outbox.enabled
    requires outbox.maxEntries >= 2 && outbox.maxUpdates >= 2 && outbox.maxAttempts >= 4
    ensures exists steps :: NothingStrands(breaker, outbox, steps) && !AttemptsLeft(Run(breaker, outbox, steps))
  {
    hide Run, Next, NothingStrands, Strands, AttemptsLeft;
    var lowered := Configure(breaker, outbox.(maxAttempts := 3));
    var p0 := UnevenFlushes(breaker, outbox, u);
    TogetherStranded(Run(breaker, outbox, p0), breaker, Entry([u], 0, 3), Entry([u], 1, 1));
    var p1 := OneMore(breaker, outbox, p0, FlushAnswer(0, false));
    var p2 := OneMore(breaker, outbox, p1, FlushAnswer(0, false));
    var p3 := OneMore(breaker, outbox, p2, BeginFlush);
    StrandsNothingMore(breaker, outbox, p3, lowered);
    RunOneMore(breaker, outbox, p3, lowered);
    var p5 := OneMore(breaker, outbox, p3 + [lowered], FlushAnswer(0, false));
  }
}
