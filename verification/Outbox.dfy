/**
 * The bounded per-sink retry buffer (outbox.ts:91-281): drop-oldest overflow,
 * whole-queue take, and requeueing in front of later arrivals.
 */
module Outboxes {

  datatype Update = Update(payload: string)

  /** `order` numbers the batches of a sink as they arrive; the source keeps the arrival time. */
  datatype Entry = Entry(updates: seq<Update>, order: nat, attempts: nat)

  datatype Options = Options(enabled: bool, maxEntries: int, maxUpdates: int, maxAttempts: int, retryPartial: bool)

  /** What configuration admits: every bound at least one (utils/config.ts:83-87). */
  predicate Sensible(o: Options) {
    o.maxEntries >= 1 && o.maxUpdates >= 1 && o.maxAttempts >= 1
  }

  /** `countUpdates`. */
  function CountUpdates(q: seq<Entry>): nat {
    if q == [] then 0 else |q[0].updates| + CountUpdates(q[1..])
  }

  lemma {:induction false} CountOfConcat(p: seq<Entry>, q: seq<Entry>)
    ensures CountUpdates(p + q) == CountUpdates(p) + CountUpdates(q)
  {
    if p == [] {
      assert p + q == q;
    } else {
      CountOfConcat(p[1..], q);
      assert (p + q)[1..] == p[1..] + q;
    }
  }

  predicate Fits(q: seq<Entry>, o: Options) {
    |q| <= o.maxEntries && CountUpdates(q) <= o.maxUpdates
  }

  /** The queue after drop-oldest eviction. */
  function Trimmed(q: seq<Entry>, o: Options): seq<Entry> {
    if q == [] || Fits(q, o) then q else Trimmed(q[1..], o)
  }

  /** Eviction leaves the longest suffix that fits. */
  lemma {:induction false} TrimmedIsLongestFit(q: seq<Entry>, o: Options) returns (cut: nat)
    ensures cut <= |q| && Trimmed(q, o) == q[cut..]
    ensures cut < |q| ==> Fits(q[cut..], o)
    ensures forall k :: 0 <= k < cut ==> !Fits(q[k..], o)
  {
    if q == [] || Fits(q, o) {
      cut := 0;
    } else {
      var rest := TrimmedIsLongestFit(q[1..], o);
      cut := rest + 1;
      assert forall k :: 0 < k <= |q| ==> q[k..] == q[1..][k - 1..];
      assert q[0..] == q;
    }
  }

  lemma {:induction false} TrimmedCounts(q: seq<Entry>, o: Options)
    ensures CountUpdates(Trimmed(q, o)) <= CountUpdates(q)
  {
    var cut := TrimmedIsLongestFit(q, o);
    CountOfConcat(q[..cut], q[cut..]);
    assert q == q[..cut] + q[cut..];
  }

  lemma {:induction false} TrimmedFits(q: seq<Entry>, o: Options)
    requires o.maxEntries >= 0 && o.maxUpdates >= 0
    ensures Fits(Trimmed(q, o), o)
  {
    var cut := TrimmedIsLongestFit(q, o);
  }

  /** A batch within the update bound survives its own arrival exactly when the queue may hold a batch at all. */
  lemma {:induction false} OwnBatchSurvives(q: seq<Entry>, e: Entry, o: Options)
    requires |e.updates| <= o.maxUpdates
    ensures (Trimmed(q + [e], o) != [] && Trimmed(q + [e], o)[|Trimmed(q + [e], o)| - 1] == e) <==> o.maxEntries >= 1
  {
    if q == [] {
      assert ([e])[1..] == [];
      assert [] + [e] == [e];
      assert CountUpdates([e]) == |e.updates|;
    } else if !Fits(q + [e], o) {
      OwnBatchSurvives(q[1..], e, o);
      assert (q + [e])[1..] == q[1..] + [e];
    }
  }

  // ---- One sink's queue ----

  /** `enqueue`: empty batches are ignored and batches over the bound are refused. */
  function Enqueued(q: seq<Entry>, e: Entry, o: Options): seq<Entry> {
    if e.updates == [] || |e.updates| > o.maxUpdates then q else Trimmed(q + [e], o)
  }

  function Requeued(q: seq<Entry>, entries: seq<Entry>, o: Options): seq<Entry> {
    if entries == [] then q else Trimmed(entries + q, o)
  }

  function QueueIn(queues: map<string, seq<Entry>>, sink: string): seq<Entry> {
    if sink in queues then queues[sink] else []
  }

  function DroppedIn(droppedTotal: map<string, nat>, sink: string): nat {
    if sink in droppedTotal then droppedTotal[sink] else 0
  }

  /** A sink's queue has been cut to its bounds, and what was cut is counted. */
  predicate Cut(q0: seq<Entry>, d0: nat, q1: seq<Entry>, d1: nat, o: Options) {
    q1 == Trimmed(q0, o) && d1 + CountUpdates(q1) == d0 + CountUpdates(q0)
  }

  /** Every sink but those of `todo` has been cut; those are as they were. */
  ghost predicate CutBut(q0: map<string, seq<Entry>>, d0: map<string, nat>, q1: map<string, seq<Entry>>, d1: map<string, nat>,
                         todo: set<string>, o: Options) {
    forall sink: string ::
      if sink in todo then QueueIn(q1, sink) == QueueIn(q0, sink) && DroppedIn(d1, sink) == DroppedIn(d0, sink)
      else Cut(QueueIn(q0, sink), DroppedIn(d0, sink), QueueIn(q1, sink), DroppedIn(d1, sink), o)
  }

  lemma CutOneMore(q0: map<string, seq<Entry>>, d0: map<string, nat>, q1: map<string, seq<Entry>>, d1: map<string, nat>,
                   q2: map<string, seq<Entry>>, d2: map<string, nat>, todo: set<string>, sink: string, o: Options)
    requires CutBut(q0, d0, q1, d1, todo, o) && sink in todo
    requires Cut(QueueIn(q1, sink), DroppedIn(d1, sink), QueueIn(q2, sink), DroppedIn(d2, sink), o)
    requires forall other: string :: other != sink ==>
               QueueIn(q2, other) == QueueIn(q1, other) && DroppedIn(d2, other) == DroppedIn(d1, other)
    ensures CutBut(q0, d0, q2, d2, todo - {sink}, o)
  {
  }

  class SinkOutbox {
    var queues: map<string, seq<Entry>>
    /** The dropped-updates counter, by sink. */
    var droppedTotal: map<string, nat>
    var options: Options

    ghost function Queue(sink: string): seq<Entry>
      reads this`queues
    {
      QueueIn(queues, sink)
    }

    ghost function Dropped(sink: string): nat
      reads this`droppedTotal
    {
      DroppedIn(droppedTotal, sink)
    }

    constructor (options: Options)
      ensures this.options == options
      ensures forall sink :: Queue(sink) == [] && Dropped(sink) == 0
    {
      queues, droppedTotal, this.options := map[], map[], options;
    }

    method RecordDropped(sink: string, count: nat)
      modifies this`droppedTotal
      ensures Dropped(sink) == old(Dropped(sink)) + count
      ensures forall other :: other != sink ==> DroppedIn(droppedTotal, other) == DroppedIn(old(droppedTotal), other)
    {
      droppedTotal := droppedTotal[sink := (if sink in droppedTotal then droppedTotal[sink] else 0) + count];
    }

    /** `enforceBounds`: shift from the front until both bounds hold. */
    method EnforceBounds(sink: string)
      modifies this`queues, this`droppedTotal
      ensures Cut(old(Queue(sink)), old(Dropped(sink)), Queue(sink), Dropped(sink), options)
      ensures forall other :: other != sink ==>
                && QueueIn(queues, other) == QueueIn(old(queues), other)
                && DroppedIn(droppedTotal, other) == DroppedIn(old(droppedTotal), other)
    {
      var queue := if sink in queues then queues[sink] else [];
      ghost var before := queue;
      var evicted := 0;
      while |queue| > 0 && (|queue| > options.maxEntries || CountUpdates(queue) > options.maxUpdates
                            || (|queue| == 1 && |queue[0].updates| > options.maxUpdates))
        invariant Trimmed(queue, options) == Trimmed(before, options)
        invariant evicted >= 0 && evicted + CountUpdates(queue) == CountUpdates(before)
        decreases |queue|
      {
        evicted := evicted + |queue[0].updates|;
        queue := queue[1..];
      }
      queues := queues[sink := queue];
      if evicted > 0 {
        RecordDropped(sink, evicted);
      }
    }

    /** `reconfigure`: every queue is cut to the new bounds at once. */
    method Reconfigure(options: Options)
      modifies this
      ensures this.options == options
      ensures CutBut(old(queues), old(droppedTotal), queues, droppedTotal, {}, options)
    {
      this.options := options;
      var todo := queues.Keys;
      while todo != {}
        invariant this.options == options
        invariant CutBut(old(queues), old(droppedTotal), queues, droppedTotal, todo, options)
        decreases todo
      {
        var sink :| sink in todo;
        ghost var q1, d1 := queues, droppedTotal;
        EnforceBounds(sink);
        CutOneMore(old(queues), old(droppedTotal), q1, d1, queues, droppedTotal, todo, sink, options);
        todo := todo - {sink};
      }
    }

    method Enqueue(sink: string, e: Entry) returns (buffered: nat)
      modifies this`queues, this`droppedTotal
      ensures Queue(sink) == Enqueued(old(Queue(sink)), e, options)
      ensures Dropped(sink) + CountUpdates(Queue(sink)) == old(Dropped(sink)) + CountUpdates(old(Queue(sink))) + |e.updates|
      ensures buffered == if |e.updates| > options.maxUpdates then 0 else |e.updates|
      ensures forall other :: other != sink ==>
                && QueueIn(queues, other) == QueueIn(old(queues), other)
                && DroppedIn(droppedTotal, other) == DroppedIn(old(droppedTotal), other)
    {
      if |e.updates| == 0 {
        return 0;
      }
      if |e.updates| > options.maxUpdates {
        RecordDropped(sink, |e.updates|);
        return 0;
      }
      var queue := if sink in queues then queues[sink] else [];
      CountOfConcat(queue, [e]);
      assert CountUpdates([e]) == |e.updates|;
      queues := queues[sink := queue + [e]];
      EnforceBounds(sink);
      return |e.updates|;
    }

    method Take(sink: string) returns (entries: seq<Entry>)
      modifies this`queues
      ensures entries == old(Queue(sink)) && Queue(sink) == []
      ensures forall other :: other != sink ==> QueueIn(queues, other) == QueueIn(old(queues), other)
    {
      entries := if sink in queues then queues[sink] else [];
      if entries != [] {
        queues := queues[sink := []];
      }
    }

    method RequeueFront(sink: string, entries: seq<Entry>)
      modifies this`queues, this`droppedTotal
      ensures Queue(sink) == Requeued(old(Queue(sink)), entries, options)
      ensures Dropped(sink) + CountUpdates(Queue(sink)) ==
              old(Dropped(sink)) + CountUpdates(old(Queue(sink))) + CountUpdates(entries)
      ensures forall other :: other != sink ==>
                && QueueIn(queues, other) == QueueIn(old(queues), other)
                && DroppedIn(droppedTotal, other) == DroppedIn(old(droppedTotal), other)
    {
      if entries == [] {
        return;
      }
      var queue := if sink in queues then queues[sink] else [];
      CountOfConcat(entries, queue);
      queues := queues[sink := entries + queue];
      EnforceBounds(sink);
    }

    method Clear(sink: string) returns (lost: nat)
      modifies this`queues, this`droppedTotal
      ensures Queue(sink) == [] && lost == CountUpdates(old(Queue(sink)))
      ensures Dropped(sink) == old(Dropped(sink)) + lost
      ensures forall other :: other != sink ==>
                && QueueIn(queues, other) == QueueIn(old(queues), other)
                && DroppedIn(droppedTotal, other) == DroppedIn(old(droppedTotal), other)
    {
      var queue := if sink in queues then queues[sink] else [];
      if queue == [] {
        return 0;
      }
      lost := CountUpdates(queue);
      queues := queues[sink := []];
      RecordDropped(sink, lost);
    }
  }
}
