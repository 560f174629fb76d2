/**
 * The publisher's own state (publisher.ts:61-327): a breaker per sink, made on
 * first use, and the shared outbox, if it is on.  Its methods are the stretches
 * between two awaits.  Each is proved to be, for every sink at once, the step of
 * `Delivery` it stands for; `history` gathers those steps, so that what is proved
 * of every run of one sink holds of the object after any sequence of calls.
 */
module Publishers {
  import opened Common
  import CB = CircuitBreakers
  import opened OB = Outboxes
  import opened Delivery
  import opened DeliveryQueue
  import opened SinkHealth

  /** What the publisher stores of a sink; the rest of a `Sink` is in its pending promises and the metrics. */
  datatype Stored = Stored(breaker: CB.Status, options: OB.Options, queue: seq<Entry>, arrivals: nat, dropped: nat)

  function StoredOf(s: Sink): Stored {
    Stored(s.breaker, s.options, s.queue, s.arrivals, s.dropped)
  }

  /** The step does to the stored part what `Next` does, whatever the rest of the sink. */
  ghost predicate Steps(was: Stored, step: Step, now: Stored) {
    forall s: Sink :: StoredOf(s) == was ==> StoredOf(Next(s, step)) == now
  }

  /** Likewise for the result of a publish of `updates`, whichever of the pending ones it is. */
  ghost predicate Settles(was: Stored, updates: seq<Update>, outcome: Outcome, at: int, now: Stored) {
    forall s: Sink, i: nat :: StoredOf(s) == was && i < |s.publishing| && s.publishing[i] == updates ==>
      StoredOf(Next(s, Settle(i, outcome, at))) == now
  }

  /** Likewise for an answer to the flush that holds `held`, which goes on with `rest`, or ends. */
  ghost predicate Answers(was: Stored, held: seq<Entry>, ok: bool, now: Stored, rest: seq<Entry>) {
    forall s: Sink, f: nat :: StoredOf(s) == was && f < |s.flushes| && s.flushes[f] == held ==>
      && StoredOf(Next(s, FlushAnswer(f, ok))) == now
      && Next(s, FlushAnswer(f, ok)).flushes == if rest == [] then Without(s.flushes, f) else s.flushes[f := rest]
  }

  // ---- The stored part after each step ----

  function StoredRequeuing(was: Stored, q: seq<Entry>, count: nat): Stored {
    was.(queue := q, dropped := was.dropped + Lost(count, q))
  }

  function StoredBuffered(was: Stored, updates: seq<Update>): Stored {
    if !was.options.enabled then was
    else
      StoredRequeuing(was.(arrivals := was.arrivals + 1), Enqueued(was.queue, Entry(updates, was.arrivals, 0), was.options),
                      CountUpdates(was.queue) + |updates|)
  }

  function StoredOffered(was: Stored, updates: seq<Update>, now: int): Stored {
    var asked := was.(breaker := CB.After(was.breaker, CB.Allow(now)));
    if CB.Admits(was.breaker, now) then asked else StoredBuffered(asked, updates)
  }

  /** What a breaker is told of an outcome. */
  function Telling(outcome: Outcome, now: int): CB.Call {
    match outcome
    case Delivered => CB.Success
    case PartlyFailed => CB.Partial
    case Threw => CB.Failure(now)
  }

  function StoredSettled(was: Stored, updates: seq<Update>, outcome: Outcome, now: int): Stored {
    var told := was.(breaker := CB.After(was.breaker, Telling(outcome, now)));
    if outcome == Threw || (outcome == PartlyFailed && was.options.retryPartial) then StoredBuffered(told, updates) else told
  }

  function StoredRefused(was: Stored, held: seq<Entry>): Stored {
    if was.options.enabled then
      StoredRequeuing(was, Requeued(was.queue, held, was.options), CountUpdates(held) + CountUpdates(was.queue))
    else was
  }

  function StoredDiscarded(was: Stored): Stored {
    if was.options.enabled then StoredRequeuing(was, [], CountUpdates(was.queue)) else was
  }

  lemma OfferIsPublish(was: Stored, updates: seq<Update>, now: int)
    ensures Steps(was, Publish(updates, now), StoredOffered(was, updates, now))
  {
    hide CB.After, CB.Admits, Enqueued, Lost, CountUpdates;
  }

  lemma AnswerSettles(was: Stored, updates: seq<Update>, outcome: Outcome, now: int)
    ensures Settles(was, updates, outcome, now, StoredSettled(was, updates, outcome, now))
  {
    hide CB.After, Enqueued, Lost, CountUpdates;
  }

  lemma DiscardIsStep(was: Stored)
    ensures Steps(was, Discard, StoredDiscarded(was))
  {
    hide Lost, CountUpdates;
  }

  /** Whatever leaves the right queue and counts what it loses is the configure step. */
  lemma {:induction false} ConfigureIsStep(was: Stored, breaker: CB.Options, outbox: OB.Options, now: Stored)
    requires now.breaker == CB.After(was.breaker, CB.Reconfigure(breaker))
    requires now.options == outbox && now.arrivals == was.arrivals
    requires now.queue == if was.options.enabled && outbox.enabled then Trimmed(was.queue, outbox) else []
    requires now.dropped + CountUpdates(now.queue) == was.dropped + CountUpdates(was.queue)
    ensures Steps(was, Configure(breaker, outbox), now)
  {
    TrimmedCounts(was.queue, outbox);
    assert CountUpdates([]) == 0;
    hide CB.After, Trimmed, CountUpdates;
  }

  lemma SentAnswers(was: Stored, held: seq<Entry>)
    requires held != []
    ensures Answers(was, held, true, was, Sent(held[1..]))
  {
    assert Sent(held[1..]) == [] <==> held[1..] == [];
    hide Refused, Sent, CountUpdates;
    forall s: Sink, f: nat | StoredOf(s) == was && f < |s.flushes| && s.flushes[f] == held
      ensures Next(s, FlushAnswer(f, true)) == Continued(s.(redelivered := s.redelivered + |held[0].updates|), f, held[1..])
    {
    }
  }

  /** A failure without attempts left: the entry is given up, and the flush goes on. */
  lemma PoisonAnswers(was: Stored, held: seq<Entry>)
    requires held != [] && held[0].attempts >= was.options.maxAttempts
    ensures Answers(was, held, false, was.(dropped := was.dropped + |held[0].updates|), Sent(held[1..]))
  {
    assert Sent(held[1..]) == [] <==> held[1..] == [];
    hide Refused, Sent, CountUpdates;
    forall s: Sink, f: nat | StoredOf(s) == was && f < |s.flushes| && s.flushes[f] == held
      ensures Next(s, FlushAnswer(f, false)) == Continued(s.(dropped := s.dropped + |held[0].updates|), f, held[1..])
    {
    }
  }

  lemma RefusalAnswers(was: Stored, held: seq<Entry>)
    requires held != [] && held[0].attempts < was.options.maxAttempts
    ensures Answers(was, held, false, StoredRefused(was, held), [])
  {
    hide Requeued, Continued, Lost, CountUpdates;
  }

  /** Whatever stores the batch as the outbox does and counts what it loses has buffered it. */
  lemma {:induction false} BufferedIs(was: Stored, updates: seq<Update>, now: Stored)
    requires was.options.enabled && now == was.(queue := now.queue, arrivals := was.arrivals + 1, dropped := now.dropped)
    requires now.queue == Enqueued(was.queue, Entry(updates, was.arrivals, 0), was.options)
    requires now.dropped + CountUpdates(now.queue) == was.dropped + CountUpdates(was.queue) + |updates|
    ensures now == StoredBuffered(was, updates)
  {
    EnqueuedCounts(was.queue, Entry(updates, was.arrivals, 0), was.options);
    hide Enqueued, CountUpdates;
  }

  lemma BufferingOff(was: Stored, updates: seq<Update>)
    ensures !was.options.enabled ==> StoredBuffered(was, updates) == was
  {
  }

  // ---- For the sink at hand ----

  lemma StepsAt(was: Stored, s: Sink, step: Step, now: Stored)
    requires Steps(was, step, now) && StoredOf(s) == was
    ensures StoredOf(Next(s, step)) == now
  {
  }

  lemma SettlesAt(was: Stored, s: Sink, i: nat, outcome: Outcome, at: int, now: Stored)
    requires i < |s.publishing| && StoredOf(s) == was && Settles(was, s.publishing[i], outcome, at, now)
    ensures StoredOf(Next(s, Settle(i, outcome, at))) == now
  {
  }

  lemma AnswersAt(was: Stored, s: Sink, f: nat, ok: bool, now: Stored, rest: seq<Entry>)
    requires f < |s.flushes| && StoredOf(s) == was && Answers(was, s.flushes[f], ok, now, rest)
    ensures StoredOf(Next(s, FlushAnswer(f, ok))) == now
  {
  }

  /** What has happened to each sink: the steps of its run. */
  type History = string -> seq<Step>

  function Grown(h: History, sink: string, step: Step): History {
    name => if name == sink then h(name) + [step] else h(name)
  }

  /** Each of the sinks has been offered the updates, in order. */
  function Offered(h: History, sinks: seq<string>, updates: seq<Update>, now: string -> int): History {
    if sinks == [] then h
    else
      var last := sinks[|sinks| - 1];
      Grown(Offered(h, sinks[..|sinks| - 1], updates, now), last, Publish(updates, now(last)))
  }

  lemma {:induction false} OfferedOnce(h: History, sinks: seq<string>, updates: seq<Update>, now: string -> int, sink: string)
    requires NoDuplicates(sinks)
    ensures Offered(h, sinks, updates, now)(sink) == h(sink) + if sink in sinks then [Publish(updates, now(sink))] else []
  {
    if sinks != [] {
      var front, last := sinks[..|sinks| - 1], sinks[|sinks| - 1];
      assert sinks == front + [last] && last !in front;
      OfferedOnce(h, front, updates, now, sink);
    }
  }

  lemma NothingOffered(h: History, sinks: seq<string>, updates: seq<Update>, now: string -> int)
    ensures Offered(h, sinks[..0], updates, now) == h
  {
  }

  lemma {:induction false} OfferedOneMore(h: History, sinks: seq<string>, k: nat, updates: seq<Update>, now: string -> int)
    requires NoDuplicates(sinks) && k < |sinks|
    ensures Offered(h, sinks[..k + 1], updates, now)
            == Grown(Offered(h, sinks[..k], updates, now), sinks[k], Publish(updates, now(sinks[k])))
    ensures Offered(h, sinks[..k], updates, now)(sinks[k]) == h(sinks[k])
    ensures sinks[k] !in sinks[..k] && sinks[..k + 1] == sinks[..k] + [sinks[k]]
  {
    assert sinks[..k + 1][..k] == sinks[..k];
    OfferedOnce(h, sinks[..k], updates, now, sinks[k]);
  }

  lemma OfferedSteps(breaker: CB.Options, outbox: OB.Options, steps: seq<Step>, updates: seq<Update>, now: int)
    ensures var was, after := Run(breaker, outbox, steps), Run(breaker, outbox, steps + [Publish(updates, now)]);
            && Steps(StoredOf(was), Publish(updates, now), StoredOf(after))
            && (CB.Admits(was.breaker, now) <==> after.publishing == was.publishing + [updates])
            && (!CB.Admits(was.breaker, now) ==> after.publishing == was.publishing)
  {
    var was := Run(breaker, outbox, steps);
    RunOneMore(breaker, outbox, steps, Publish(updates, now));
    assert |was.publishing + [updates]| == |was.publishing| + 1;
    assert CB.Admits(was.breaker, now) <==> Next(was, Publish(updates, now)).publishing == was.publishing + [updates];
    assert !CB.Admits(was.breaker, now) ==> Next(was, Publish(updates, now)).publishing == was.publishing;
    hide Run, Next;
    OfferIsPublish(StoredOf(was), updates, now);
    StepsAt(StoredOf(was), was, Publish(updates, now), StoredOffered(StoredOf(was), updates, now));
  }

  function AllGrown(h: History, step: Step): History {
    name => h(name) + [step]
  }

  // ---- Results ----

  /** One sink's part of the response; `buffered` is how many updates the outbox has kept for later. */
  datatype SinkResult = SinkResult(sink: string, success: bool, buffered: nat)

  datatype PublishStatus = AllDelivered | SomeDelivered | NoneDelivered

  /** `publishUpdates`' last lines; without sinks nothing has failed. */
  method StatusOf(results: seq<SinkResult>) returns (status: PublishStatus)
    ensures status == AllDelivered <==> forall i :: 0 <= i < |results| ==> results[i].success
    ensures status == SomeDelivered <==> (exists i :: 0 <= i < |results| && results[i].success)
                                         && exists i :: 0 <= i < |results| && !results[i].success
  {
    var failCount := 0;
    var k := 0;
    while k < |results|
      invariant 0 <= k <= |results| && 0 <= failCount <= k
      invariant failCount == 0 <==> forall i :: 0 <= i < k ==> results[i].success
      invariant failCount == k <==> forall i :: 0 <= i < k ==> !results[i].success
    {
      if !results[k].success {
        failCount := failCount + 1;
      }
      k := k + 1;
    }
    return if failCount == 0 then AllDelivered else if failCount < |results| then SomeDelivered else NoneDelivered;
  }

  /** What `enqueue` reports as buffered, if there is an outbox. */
  function BufferedCount(o: OB.Options, updates: seq<Update>): nat {
    if o.enabled && |updates| <= o.maxUpdates then |updates| else 0
  }

  // ---- The object ----

  class Publisher {
    var breakerOptions: CB.Options
    var outboxOptions: OB.Options
    /** Null while the outbox is off. */
    var outbox: SinkOutbox?
    var breakers: map<string, CB.CircuitBreaker>
    /** Stands for the clock that stamps buffered batches. */
    var arrivals: map<string, nat>
    /** Updates counted as dropped, by sink, other than by the present outbox. */
    ghost var counted: map<string, nat>
    /** The options at the start, and what has happened since. */
    ghost const breaker0: CB.Options
    ghost const outbox0: OB.Options
    ghost var history: History

    ghost function Store(): set<object>
      reads this`outbox
    {
      if outbox == null then {} else {outbox}
    }

    /** No two sinks share a breaker, and the outbox follows the options. */
    ghost predicate Consistent()
      reads this`breakers, this`outboxOptions, this`outbox, Store()
    {
      && (forall a, b :: a in breakers && b in breakers && a != b ==> breakers[a] != breakers[b])
      && (outbox != null <==> outboxOptions.enabled)
      && (outbox != null ==> outbox.options == outboxOptions)
    }

    ghost function Breaker(sink: string): CB.Status
      reads this`breakers, this`breakerOptions, breakers.Values
    {
      if sink in breakers then breakers[sink].View() else CB.Fresh(breakerOptions)
    }

    ghost function Queue(sink: string): seq<Entry>
      reads this`outbox, Store()
    {
      if outbox == null then [] else outbox.Queue(sink)
    }

    ghost function Dropped(sink: string): nat
      reads this`outbox, this`counted, Store()
    {
      DroppedIn(counted, sink) + if outbox == null then 0 else outbox.Dropped(sink)
    }

    ghost function Of(sink: string): Stored
      reads this`breakers, this`breakerOptions, this`outboxOptions, this`outbox, this`arrivals, this`counted
      reads breakers.Values, Store()
    {
      Stored(Breaker(sink), outboxOptions, Queue(sink), if sink in arrivals then arrivals[sink] else 0, Dropped(sink))
    }

    /** The sink as its run has left it, with what is pending on it. */
    ghost function SinkOf(sink: string): Sink
      reads this`history
    {
      Run(breaker0, outbox0, history(sink))
    }

    /** What is stored of every sink is what its run has left. */
    ghost predicate Valid()
      reads this, breakers.Values, Store()
    {
      Consistent() && forall sink :: StoredOf(SinkOf(sink)) == Of(sink)
    }

    constructor (breakerOptions: CB.Options, outboxOptions: OB.Options)
      ensures Valid() && fresh(Store()) && this.outboxOptions == outboxOptions
      ensures breaker0 == breakerOptions && outbox0 == outboxOptions && forall sink :: history(sink) == []
      ensures forall sink :: Of(sink) == StoredOf(Idle(breakerOptions, outboxOptions))
    {
      this.breakerOptions, this.outboxOptions := breakerOptions, outboxOptions;
      breakers, arrivals, counted, outbox := map[], map[], map[], null;
      breaker0, outbox0, history := breakerOptions, outboxOptions, _ => [];
      new;
      if outboxOptions.enabled {
        outbox := new SinkOutbox(outboxOptions);
      }
    }

    /** The sink has taken the step, and no other sink has. */
    ghost method Took(sink: string, step: Step)
      requires Consistent() && StoredOf(Next(SinkOf(sink), step)) == Of(sink)
      requires forall other :: other != sink ==> StoredOf(SinkOf(other)) == Of(other)
      modifies this`history
      ensures Valid() && history == Grown(old(history), sink, step)
    {
      hide Run, Next, StoredOf;
      RunOneMore(breaker0, outbox0, history(sink), step);
      ghost var grown := Grown(history, sink, step);
      forall name: string
        ensures StoredOf(Run(breaker0, outbox0, grown(name))) == Of(name)
      {
        assert grown(name) == if name == sink then history(name) + [step] else history(name);
      }
      history := grown;
    }

    /** Every sink has taken the step. */
    ghost method AllTook(step: Step)
      requires Consistent() && forall sink :: StoredOf(Next(SinkOf(sink), step)) == Of(sink)
      modifies this`history
      ensures Valid() && history == AllGrown(old(history), step)
    {
      hide Run, Next, StoredOf;
      ghost var grown := AllGrown(history, step);
      forall name: string
        ensures StoredOf(Run(breaker0, outbox0, grown(name))) == Of(name)
      {
        assert grown(name) == history(name) + [step];
        RunOneMore(breaker0, outbox0, history(name), step);
      }
      history := grown;
    }

    /** Over every sequence of calls no update is lost track of. */
    lemma Conserves(sink: string)
      requires Valid()
      ensures var s := SinkOf(sink);
              s.offered == s.delivered + s.redelivered + Dropped(sink) + CountUpdates(Queue(sink))
                           + Waiting(s.publishing) + Held(s.flushes) + s.unretained + s.vanished
    {
      DeliveryConserves(breaker0, outbox0, history(sink));
      assert StoredOf(SinkOf(sink)) == Of(sink);
    }

    /** With the breaker on and left alone, the sinks a publish attempts are those that `SinkHealth` says are asked. */
    lemma AsksIff(sink: string, updates: seq<Update>, now: int)
      requires Valid() && Steady(breaker0, history(sink))
      ensures CB.Admits(Of(sink).breaker, now) <==> Asked(SinkOf(sink), updates, now)
    {
      hide Run;
      assert StoredOf(SinkOf(sink)) == Of(sink);
      assert |SinkOf(sink).publishing + [updates]| == |SinkOf(sink).publishing| + 1;
    }

    /** Nor does a queue outgrow its bounds, or, with one flush at a time, leave order of arrival. */
    lemma KeepsQueues(sink: string)
      requires Valid()
      ensures AllSensible(outbox0, history(sink)) ==> Fits(Queue(sink), outboxOptions)
      ensures OneFlushAtATime(breaker0, outbox0, history(sink)) ==> InOrder(Queue(sink))
    {
      hide Run;
      assert StoredOf(SinkOf(sink)) == Of(sink);
      if AllSensible(outbox0, history(sink)) {
        QueueStaysBounded(breaker0, outbox0, history(sink));
      }
      if OneFlushAtATime(breaker0, outbox0, history(sink)) {
        var s := SinkOf(sink);
        QueueStaysInOrder(breaker0, outbox0, history(sink));
        TailKeepsOrder(if s.flushes == [] then [] else s.flushes[0], s.queue, s.arrivals);
      }
    }

    /** `breakerFor`. */
    method BreakerFor(sink: string) returns (breaker: CB.CircuitBreaker)
      requires Consistent()
      modifies this`breakers
      ensures Consistent() && sink in breakers && breakers[sink] == breaker
      ensures sink in old(breakers) ==> breakers == old(breakers)
      ensures sink !in old(breakers) ==> fresh(breaker) && breakers == old(breakers)[sink := breaker]
      ensures forall other :: Breaker(other) == old(Breaker(other))
    {
      if sink in breakers {
        return breakers[sink];
      }
      breaker := new CB.CircuitBreaker(breakerOptions);
      breakers := breakers[sink := breaker];
    }

    /** `buffer`, with buffering called for. */
    method Buffer(sink: string, updates: seq<Update>) returns (buffered: nat)
      requires Consistent()
      modifies this`arrivals, Store()
      ensures Consistent() && buffered == BufferedCount(outboxOptions, updates)
      ensures Of(sink) == StoredBuffered(old(Of(sink)), updates)
      ensures forall other :: other != sink ==> Of(other) == old(Of(other))
    {
      hide Enqueued, CountUpdates, StoredBuffered, Breaker;
      BufferingOff(Of(sink), updates);
      if outbox == null {
        return 0;
      }
      ghost var was := Of(sink);
      var order := if sink in arrivals then arrivals[sink] else 0;
      buffered := outbox.Enqueue(sink, Entry(updates, order, 0));
      arrivals := arrivals[sink := order + 1];
      BufferedIs(was, updates, Of(sink));
    }

    /** `allowRequest` of the sink's breaker. */
    method AskBreaker(sink: string, now: int) returns (admitted: bool)
      requires Consistent()
      modifies this`breakers, breakers.Values
      ensures Consistent() && fresh(breakers.Values - old(breakers.Values))
      ensures admitted == CB.Admits(old(Breaker(sink)), now)
      ensures Breaker(sink) == CB.After(old(Breaker(sink)), CB.Allow(now))
      ensures forall other :: other != sink ==> Breaker(other) == old(Breaker(other))
    {
      hide CB.After, CB.Admits;
      var breaker := BreakerFor(sink);
      admitted := breaker.AllowRequest(now);
    }

    /** One round of the first loop of `publishUpdates`: ask the sink's breaker, or skip it and buffer. */
    method Offer(sink: string, updates: seq<Update>, now: int) returns (skipped: Option<SinkResult>)
      requires Valid()
      modifies this`breakers, this`arrivals, this`history, breakers.Values, Store()
      ensures Valid() && fresh(breakers.Values - old(breakers.Values))
      ensures history == Grown(old(history), sink, Publish(updates, now))
      ensures skipped == if CB.Admits(old(Of(sink)).breaker, now) then None
                         else Some(SinkResult(sink, false, BufferedCount(outboxOptions, updates)))
      ensures Steps(old(Of(sink)), Publish(updates, now), Of(sink))
      ensures forall other :: other != sink ==> Of(other) == old(Of(other))
    {
      hide Steps, StoredBuffered, BufferedCount, CB.After, CB.Admits, Run, Next;
      ghost var was := Of(sink);
      OfferIsPublish(was, updates, now);
      skipped := AskOrBuffer(sink, updates, now);
      StepsAt(was, SinkOf(sink), Publish(updates, now), Of(sink));
      Took(sink, Publish(updates, now));
    }

    /** The breaker is asked; if it refuses, the batch is buffered. */
    method AskOrBuffer(sink: string, updates: seq<Update>, now: int) returns (skipped: Option<SinkResult>)
      requires Consistent()
      modifies this`breakers, this`arrivals, breakers.Values, Store()
      ensures Consistent() && fresh(breakers.Values - old(breakers.Values))
      ensures skipped == if CB.Admits(old(Of(sink)).breaker, now) then None
                         else Some(SinkResult(sink, false, BufferedCount(outboxOptions, updates)))
      ensures Of(sink) == StoredOffered(old(Of(sink)), updates, now)
      ensures forall other :: other != sink ==> Of(other) == old(Of(other))
    {
      hide StoredBuffered, BufferedCount, CB.After, CB.Admits;
      var admitted := AskBreaker(sink, now);
      if admitted {
        return None;
      }
      var buffered := Buffer(sink, updates);
      return Some(SinkResult(sink, false, buffered));
    }

    /** The first loop, over the active sinks: the sinks to send to now, and the results of the others. */
    method OfferAll(sinks: seq<string>, updates: seq<Update>, now: string -> int)
      returns (attempts: seq<string>, results: map<string, SinkResult>)
      requires Valid() && NoDuplicates(sinks)
      modifies this`breakers, this`arrivals, this`history, breakers.Values, Store()
      ensures Valid() && fresh(breakers.Values - old(breakers.Values))
      ensures history == Offered(old(history), sinks, updates, now)
      ensures forall sink :: sink in attempts <==> sink in sinks && CB.Admits(old(Of(sink)).breaker, now(sink))
      ensures forall sink :: sink in attempts <==>
                sink in sinks && SinkOf(sink).publishing == old(SinkOf(sink)).publishing + [updates]
      ensures forall sink :: sink in results <==> sink in sinks && sink !in attempts
      ensures forall sink :: sink in results ==> results[sink] == SinkResult(sink, false, BufferedCount(outboxOptions, updates))
      ensures forall sink :: sink in sinks ==> Steps(old(Of(sink)), Publish(updates, now(sink)), Of(sink))
      ensures forall sink :: sink !in sinks ==> Of(sink) == old(Of(sink))
    {
      hide Steps, CB.Admits, BufferedCount, Of, Consistent, Run, Offered, Grown;
      ghost var h := history;
      attempts, results := [], map[];
      var k := 0;
      NothingOffered(h, sinks, updates, now);
      while k < |sinks|
        invariant 0 <= k <= |sinks| && Valid() && fresh(breakers.Values - old(breakers.Values))
        invariant history == Offered(h, sinks[..k], updates, now)
        invariant forall sink :: sink in attempts <==> sink in sinks[..k] && CB.Admits(old(Of(sink)).breaker, now(sink))
        invariant forall sink :: sink in results <==> sink in sinks[..k] && sink !in attempts
        invariant forall sink :: sink in results ==>
                    results[sink] == SinkResult(sink, false, BufferedCount(outboxOptions, updates))
      {
        var sink := sinks[k];
        OfferedOneMore(h, sinks, k, updates, now);
        assert Of(sink) == StoredOf(SinkOf(sink)) == old(Of(sink));
        var skipped := Offer(sink, updates, now(sink));
        if skipped.None? {
          attempts := attempts + [sink];
        } else {
          results := results[sink := skipped.value];
        }
        k := k + 1;
      }
      assert sinks[..k] == sinks;
      forall sink: string
        ensures if sink in sinks then Steps(old(Of(sink)), Publish(updates, now(sink)), Of(sink)) else Of(sink) == old(Of(sink))
        ensures sink in attempts <==> sink in sinks && SinkOf(sink).publishing == old(SinkOf(sink)).publishing + [updates]
      {
        OfferedOnce(h, sinks, updates, now, sink);
        assert Of(sink) == StoredOf(SinkOf(sink)) && old(Of(sink)) == StoredOf(Run(breaker0, outbox0, h(sink)));
        OfferedSteps(breaker0, outbox0, h(sink), updates, now(sink));
        assert h(sink) + [] == h(sink);
      }
    }

    /** `recordSuccess`, `recordPartial` or `recordFailure` on the sink's breaker. */
    method TellBreaker(sink: string, outcome: Outcome, now: int)
      requires Consistent()
      modifies this`breakers, breakers.Values
      ensures Consistent() && fresh(breakers.Values - old(breakers.Values))
      ensures Breaker(sink) == CB.After(old(Breaker(sink)), Telling(outcome, now))
      ensures forall other :: other != sink ==> Breaker(other) == old(Breaker(other))
    {
      hide CB.After;
      var breaker := BreakerFor(sink);
      match outcome {
        case Delivered => breaker.RecordSuccess();
        case PartlyFailed => breaker.RecordPartial();
        case Threw => breaker.RecordFailure(now);
      }
    }

    /**
     * One round of the second loop: what a sink's answer means for its breaker,
     * its queue and the response.  It answers the `i`-th of the sink's pending
     * publishes.
     */
    method Settled(sink: string, ghost i: nat, updates: seq<Update>, outcome: Outcome, now: int) returns (result: SinkResult)
      requires Valid() && i < |SinkOf(sink).publishing| && SinkOf(sink).publishing[i] == updates
      modifies this`breakers, this`arrivals, this`history, breakers.Values, Store()
      ensures Valid() && fresh(breakers.Values - old(breakers.Values))
      ensures history == Grown(old(history), sink, Settle(i, outcome, now))
      ensures Settles(old(Of(sink)), updates, outcome, now, Of(sink))
      ensures result == SinkResult(sink, outcome == Delivered,
                                   if outcome == Threw || (outcome == PartlyFailed && outboxOptions.retryPartial)
                                   then BufferedCount(outboxOptions, updates) else 0)
      ensures forall other :: other != sink ==> Of(other) == old(Of(other))
    {
      hide Settles, StoredSettled, BufferedCount, Run, Next;
      ghost var was := Of(sink);
      AnswerSettles(was, updates, outcome, now);
      var buffered := TellAndBuffer(sink, updates, outcome, now);
      SettlesAt(was, SinkOf(sink), i, outcome, now, Of(sink));
      Took(sink, Settle(i, outcome, now));
      return SinkResult(sink, outcome == Delivered, buffered);
    }

    /** The breaker is told; a batch that is to be tried again is buffered. */
    method TellAndBuffer(sink: string, updates: seq<Update>, outcome: Outcome, now: int) returns (buffered: nat)
      requires Consistent()
      modifies this`breakers, this`arrivals, breakers.Values, Store()
      ensures Consistent() && fresh(breakers.Values - old(breakers.Values))
      ensures Of(sink) == StoredSettled(old(Of(sink)), updates, outcome, now)
      ensures buffered == if outcome == Threw || (outcome == PartlyFailed && outboxOptions.retryPartial)
                          then BufferedCount(outboxOptions, updates) else 0
      ensures forall other :: other != sink ==> Of(other) == old(Of(other))
    {
      hide StoredBuffered, BufferedCount, CB.After;
      TellBreaker(sink, outcome, now);
      buffered := 0;
      if outcome == Threw || (outcome == PartlyFailed && outboxOptions.retryPartial) {
        buffered := Buffer(sink, updates);
      }
    }

    /** `onSinkHealthy`. */
    method OnSinkHealthy(sink: string)
      requires Valid()
      modifies this`history, breakers.Values
      ensures Valid() && history == Grown(old(history), sink, SinkHealthy)
      ensures Steps(old(Of(sink)), SinkHealthy, Of(sink))
      ensures forall other :: other != sink ==> Of(other) == old(Of(other))
    {
      hide Run;
      ghost var was := Of(sink);
      if sink in breakers {
        breakers[sink].CloseBreaker();
      }
      StepsAt(was, SinkOf(sink), SinkHealthy, Of(sink));
      Took(sink, SinkHealthy);
    }

    /** The start of `flushOutbox`: everything buffered is taken, and the first entry is sent. */
    method BeginFlushing(sink: string) returns (held: seq<Entry>)
      requires Valid()
      modifies this`history, Store()
      ensures Valid() && held == Sent(old(Queue(sink))) && history == Grown(old(history), sink, BeginFlush)
      ensures Steps(old(Of(sink)), BeginFlush, Of(sink))
      ensures forall other :: other != sink ==> Of(other) == old(Of(other))
    {
      hide Run, Sent;
      ghost var was := Of(sink);
      var entries := [];
      if outbox != null {
        entries := outbox.Take(sink);
      }
      assert Of(sink) == was.(queue := []) && entries == was.queue;
      StepsAt(was, SinkOf(sink), BeginFlush, Of(sink));
      Took(sink, BeginFlush);
      return Sent(entries);
    }

    /**
     * The flush's loop from one answer to the next entry sent, or to its end, for
     * the `f`-th of the sink's running flushes.  At its end it puts back what
     * remains; with the outbox off it throws there.
     */
    method FlushAnswered(sink: string, ghost f: nat, held: seq<Entry>, ok: bool) returns (rest: seq<Entry>, threw: bool)
      requires Valid() && held != [] && f < |SinkOf(sink).flushes| && SinkOf(sink).flushes[f] == held
      modifies this`counted, this`history, Store()
      ensures Valid() && history == Grown(old(history), sink, FlushAnswer(f, ok))
      ensures Answers(old(Of(sink)), held, ok, Of(sink), rest)
      ensures threw <==> rest == [] && !outboxOptions.enabled
      ensures forall other :: other != sink ==> Of(other) == old(Of(other))
    {
      hide Answers, Run, Next;
      ghost var was := Of(sink);
      rest := GoOn(sink, held, ok);
      AnswersAt(was, SinkOf(sink), f, ok, Of(sink), rest);
      Took(sink, FlushAnswer(f, ok));
      threw := rest == [] && outbox == null;
    }

    /** One answer: the flush goes on, gives its head up, or puts all back. */
    method GoOn(sink: string, held: seq<Entry>, ok: bool) returns (rest: seq<Entry>)
      requires Consistent() && held != []
      modifies this`counted, Store()
      ensures Consistent() && Answers(old(Of(sink)), held, ok, Of(sink), rest)
      ensures forall other :: other != sink ==> Of(other) == old(Of(other))
    {
      hide Answers, StoredRefused;
      if ok {
        SentAnswers(Of(sink), held);
        rest := Sent(held[1..]);
      } else if held[0].attempts >= outboxOptions.maxAttempts {
        PoisonAnswers(Of(sink), held);
        counted := counted[sink := DroppedIn(counted, sink) + |held[0].updates|];
        rest := Sent(held[1..]);
      } else {
        RefusalAnswers(Of(sink), held);
        rest := [];
        PutBack(sink, held);
      }
    }

    /** `requeueFront`, if there is an outbox. */
    method PutBack(sink: string, held: seq<Entry>)
      requires Consistent()
      modifies Store()
      ensures Consistent() && Of(sink) == StoredRefused(old(Of(sink)), held)
      ensures forall other :: other != sink ==> Of(other) == old(Of(other))
    {
      if outbox != null {
        RequeuedCounts(outbox.Queue(sink), held, outbox.options);
        outbox.RequeueFront(sink, held);
      }
    }

    /** `discardOutbox`: every queue is emptied; what was pending is reported. */
    method DiscardOutbox() returns (pending: map<string, nat>)
      requires Valid()
      modifies this`history, Store()
      ensures Valid() && history == AllGrown(old(history), Discard)
      ensures forall sink :: Steps(old(Of(sink)), Discard, Of(sink))
      ensures forall sink :: sink in pending <==> CountUpdates(old(Queue(sink))) > 0
      ensures forall sink :: sink in pending ==> pending[sink] == CountUpdates(old(Queue(sink)))
    {
      pending := map[];
      if outbox != null {
        pending := ClearAll(outbox);
      }
      hide Steps, Run, Next;
      forall sink: string
        ensures Steps(old(Of(sink)), Discard, Of(sink)) && StoredOf(Next(SinkOf(sink), Discard)) == Of(sink)
      {
        DiscardIsStep(old(Of(sink)));
        assert Of(sink) == StoredDiscarded(old(Of(sink)));
        StepsAt(old(Of(sink)), SinkOf(sink), Discard, Of(sink));
      }
      AllTook(Discard);
    }

    /**
     * `configure`, given the options merged.  Every breaker learns them; the
     * outbox is cut to them, or discarded, or made.
     */
    method Reconfigure(breaker: CB.Options, outbox: OB.Options)
      requires Valid()
      modifies this`breakerOptions, this`outboxOptions, this`outbox, this`counted, this`history, breakers.Values, Store()
      ensures Valid() && fresh(Store() - old(Store())) && history == AllGrown(old(history), Configure(breaker, outbox))
      ensures forall sink :: Steps(old(Of(sink)), Configure(breaker, outbox), Of(sink))
    {
      hide Steps, Of, Run, Next;
      Rebuild(breaker, outbox);
      forall sink: string
        ensures StoredOf(Next(SinkOf(sink), Configure(breaker, outbox))) == Of(sink)
      {
        StepsAt(old(Of(sink)), SinkOf(sink), Configure(breaker, outbox), Of(sink));
      }
      AllTook(Configure(breaker, outbox));
    }

    /** Breakers first, then the outbox. */
    method Rebuild(breaker: CB.Options, outbox: OB.Options)
      requires Consistent()
      modifies this`breakerOptions, this`outboxOptions, this`outbox, this`counted, breakers.Values, Store()
      ensures Consistent() && fresh(Store() - old(Store()))
      ensures forall sink :: Steps(old(Of(sink)), Configure(breaker, outbox), Of(sink))
    {
      hide Steps, CB.After, Trimmed, CountUpdates, DroppedIn, QueueIn;
      ReconfigureBreakers(breaker);
      ReconfigureOutbox(outbox);
      forall sink: string
        ensures Steps(old(Of(sink)), Configure(breaker, outbox), Of(sink))
      {
        ConfigureIsStep(old(Of(sink)), breaker, outbox, Of(sink));
      }
    }

    method ReconfigureBreakers(options: CB.Options)
      requires Consistent()
      modifies this`breakerOptions, breakers.Values
      ensures Consistent() && breakerOptions == options
      ensures forall sink :: Breaker(sink) == CB.After(old(Breaker(sink)), CB.Reconfigure(options))
    {
      breakerOptions := options;
      var todo := breakers.Keys;
      while todo != {}
        invariant todo <= breakers.Keys && breakerOptions == options
        invariant forall sink :: sink in todo ==> breakers[sink].View() == old(breakers[sink].View())
        invariant forall sink :: sink in breakers && sink !in todo ==>
                    breakers[sink].View() == CB.After(old(breakers[sink].View()), CB.Reconfigure(options))
        decreases todo
      {
        var sink :| sink in todo;
        todo := todo - {sink};
        breakers[sink].Reconfigure(options);
      }
    }

    method ReconfigureOutbox(options: OB.Options)
      requires Consistent()
      modifies this`outboxOptions, this`outbox, this`counted, Store()
      ensures Consistent() && outboxOptions == options && fresh(Store() - old(Store()))
      ensures forall sink ::
                Queue(sink) == if old(outboxOptions).enabled && options.enabled then Trimmed(old(Queue(sink)), options) else []
      ensures forall sink :: Dropped(sink) + CountUpdates(Queue(sink)) == old(Dropped(sink)) + CountUpdates(old(Queue(sink)))
    {
      outboxOptions := options;
      if !options.enabled {
        if outbox != null {
          var lost := ClearAll(outbox);
          counted := Counted(counted, outbox.droppedTotal);
        }
        outbox := null;
      } else if outbox != null {
        outbox.Reconfigure(options);
      } else {
        outbox := new SinkOutbox(options);
      }
    }
  }

  /** Two counters by sink, added up. */
  function Counted(c: map<string, nat>, d: map<string, nat>): (sum: map<string, nat>)
    ensures forall sink :: DroppedIn(sum, sink) == DroppedIn(c, sink) + DroppedIn(d, sink)
  {
    map sink | sink in c.Keys + d.Keys :: DroppedIn(c, sink) + DroppedIn(d, sink)
  }

  /** Every sink but those of `todo` has been cleared, and reported if it held something; those are as they were. */
  ghost predicate ClearedBut(q0: map<string, seq<Entry>>, d0: map<string, nat>, q1: map<string, seq<Entry>>, d1: map<string, nat>,
                             todo: set<string>, pending: map<string, nat>) {
    forall sink: string ::
      if sink in todo then
        QueueIn(q1, sink) == QueueIn(q0, sink) && DroppedIn(d1, sink) == DroppedIn(d0, sink) && sink !in pending
      else
        && QueueIn(q1, sink) == [] && DroppedIn(d1, sink) == DroppedIn(d0, sink) + CountUpdates(QueueIn(q0, sink))
        && (sink in pending <==> CountUpdates(QueueIn(q0, sink)) > 0)
        && (sink in pending ==> pending[sink] == CountUpdates(QueueIn(q0, sink)))
  }

  lemma {:induction false} ClearedOneMore(q0: map<string, seq<Entry>>, d0: map<string, nat>,
                                          q1: map<string, seq<Entry>>, d1: map<string, nat>,
                                          q2: map<string, seq<Entry>>, d2: map<string, nat>,
                                          todo: set<string>, pending: map<string, nat>, sink: string)
    requires ClearedBut(q0, d0, q1, d1, todo, pending) && sink in todo
    requires QueueIn(q2, sink) == [] && DroppedIn(d2, sink) == DroppedIn(d1, sink) + CountUpdates(QueueIn(q1, sink))
    requires forall other: string :: other != sink ==>
               QueueIn(q2, other) == QueueIn(q1, other) && DroppedIn(d2, other) == DroppedIn(d1, other)
    ensures var lost := CountUpdates(QueueIn(q1, sink));
            ClearedBut(q0, d0, q2, d2, todo - {sink}, if lost > 0 then pending[sink := lost] else pending)
  {
    hide CountUpdates;
  }

  /** Every queue is cleared; the counts of those that held something are returned. */
  method ClearAll(outbox: SinkOutbox) returns (pending: map<string, nat>)
    modifies outbox`queues, outbox`droppedTotal
    ensures ClearedBut(old(outbox.queues), old(outbox.droppedTotal), outbox.queues, outbox.droppedTotal, {}, pending)
  {
    pending := map[];
    var todo := outbox.queues.Keys;
    assert CountUpdates([]) == 0;
    hide CountUpdates;
    while todo != {}
      invariant ClearedBut(old(outbox.queues), old(outbox.droppedTotal), outbox.queues, outbox.droppedTotal, todo, pending)
      decreases todo
    {
      var sink :| sink in todo;
      ghost var q1, d1 := outbox.queues, outbox.droppedTotal;
      var lost := outbox.Clear(sink);
      ClearedOneMore(old(outbox.queues), old(outbox.droppedTotal), q1, d1, outbox.queues, outbox.droppedTotal,
                     todo, pending, sink);
      if lost > 0 {
        pending := pending[sink := lost];
      }
      todo := todo - {sink};
    }
  }
}
