/**
 * The loop of `flushOutbox` (publisher.ts:217-273): where it stops, that it
 * loses nothing, and that it is its answers taken one by one.
 */
module Flushing {
  import opened OB = Outboxes
  import opened Delivery

  // ---- The flush loop, uninterrupted ----

  /** The updates of the entries with a given answer. */
  function AnsweredUpdates(entries: seq<Entry>, answers: seq<bool>, answer: bool): nat
    requires |entries| <= |answers|
  {
    if entries == [] then 0
    else (if answers[0] == answer then |entries[0].updates| else 0) + AnsweredUpdates(entries[1..], answers[1..], answer)
  }

  lemma {:induction false} AnsweredOneMore(entries: seq<Entry>, answers: seq<bool>, answer: bool, n: nat)
    requires n < |entries| <= |answers|
    ensures AnsweredUpdates(entries[..n + 1], answers, answer) ==
            AnsweredUpdates(entries[..n], answers, answer) + if answers[n] == answer then |entries[n].updates| else 0
  {
    if n > 0 {
      AnsweredOneMore(entries[1..], answers[1..], answer, n - 1);
      assert entries[..n + 1][1..] == entries[1..][..n] && entries[..n][1..] == entries[1..][..n - 1];
    }
  }

  /** Every entry before `stop` is done with: it went through, or has no attempts left. */
  predicate DoneBefore(entries: seq<Entry>, answers: seq<bool>, maxAttempts: int, stop: nat)
    requires stop <= |entries| <= |answers|
  {
    forall i :: 0 <= i < stop ==> answers[i] || entries[i].attempts + 1 >= maxAttempts
  }

  /** The entry at `stop` is refused, with attempts left. */
  predicate StopsAt(entries: seq<Entry>, answers: seq<bool>, maxAttempts: int, stop: nat)
    requires stop < |entries| <= |answers|
  {
    !answers[stop] && entries[stop].attempts + 1 < maxAttempts
  }

  /** Where the loop stands after `n` entries: those before `stop` are done with, the others remain. */
  ghost predicate FlushedTo(entries: seq<Entry>, answers: seq<bool>, maxAttempts: int, n: nat, stop: nat,
                            redelivered: nat, dropped: nat, remaining: seq<Entry>)
    requires |entries| <= |answers|
  {
    && stop <= n <= |entries|
    && remaining == Sent(entries[stop..n])
    && DoneBefore(entries, answers, maxAttempts, stop)
    && (stop < n ==> StopsAt(entries, answers, maxAttempts, stop))
    && redelivered == AnsweredUpdates(entries[..stop], answers, true)
    && dropped == AnsweredUpdates(entries[..stop], answers, false)
  }

  lemma NothingFlushed(entries: seq<Entry>, answers: seq<bool>, maxAttempts: int)
    requires |entries| <= |answers|
    ensures FlushedTo(entries, answers, maxAttempts, 0, 0, 0, 0, [])
  {
  }

  /** An entry that goes through, or is given up, while all before it have. */
  lemma EntryDone(entries: seq<Entry>, answers: seq<bool>, maxAttempts: int, n: nat, redelivered: nat, dropped: nat)
    requires n < |entries| <= |answers| && FlushedTo(entries, answers, maxAttempts, n, n, redelivered, dropped, [])
    requires answers[n] || entries[n].attempts + 1 >= maxAttempts
    ensures FlushedTo(entries, answers, maxAttempts, n + 1, n + 1,
                      redelivered + (if answers[n] then |entries[n].updates| else 0),
                      dropped + (if answers[n] then 0 else |entries[n].updates|), [])
  {
    AnsweredOneMore(entries, answers, true, n);
    AnsweredOneMore(entries, answers, false, n);
  }

  /** An entry that stays, in front or behind the one the loop stopped at. */
  lemma EntryStays(entries: seq<Entry>, answers: seq<bool>, maxAttempts: int, n: nat, stop: nat,
                   redelivered: nat, dropped: nat, remaining: seq<Entry>)
    requires n < |entries| <= |answers| && FlushedTo(entries, answers, maxAttempts, n, stop, redelivered, dropped, remaining)
    requires stop == n ==> !answers[n] && entries[n].attempts + 1 < maxAttempts
    ensures FlushedTo(entries, answers, maxAttempts, n + 1, stop, redelivered, dropped,
                      remaining + [if stop == n then entries[n].(attempts := entries[n].attempts + 1) else entries[n]])
  {
    assert entries[stop..n + 1] == entries[stop..n] + [entries[n]];
  }

  lemma {:induction false} AnsweredEitherWay(entries: seq<Entry>, answers: seq<bool>)
    requires |entries| <= |answers|
    ensures AnsweredUpdates(entries, answers, true) + AnsweredUpdates(entries, answers, false) == CountUpdates(entries)
  {
    if entries != [] {
      AnsweredEitherWay(entries[1..], answers[1..]);
    }
  }

  /**
   * The loop of `flushOutbox`.  It stops at the first entry that fails with
   * attempts left, which goes back with all behind it; those before it are
   * delivered, or given up as poison.
   */
  method FlushEntries(entries: seq<Entry>, answers: seq<bool>, maxAttempts: int)
    returns (redelivered: nat, dropped: nat, remaining: seq<Entry>, ghost stop: nat)
    requires |entries| <= |answers|
    ensures FlushedTo(entries, answers, maxAttempts, |entries|, stop, redelivered, dropped, remaining)
    ensures CountUpdates(entries) == redelivered + dropped + CountUpdates(remaining)
  {
    hide *;
    redelivered, dropped, remaining, stop := 0, 0, [], 0;
    var aborted := false;
    var n := 0;
    NothingFlushed(entries, answers, maxAttempts);
    while n < |entries|
      invariant 0 <= n <= |entries| && stop <= n && (aborted <==> stop < n) && (!aborted ==> remaining == [])
      invariant FlushedTo(entries, answers, maxAttempts, n, stop, redelivered, dropped, remaining)
    {
      var entry := entries[n];
      if aborted {
        EntryStays(entries, answers, maxAttempts, n, stop, redelivered, dropped, remaining);
        remaining := remaining + [entry];
        n := n + 1;
        continue;
      }
      entry := entry.(attempts := entry.attempts + 1);
      if answers[n] {
        EntryDone(entries, answers, maxAttempts, n, redelivered, dropped);
        redelivered := redelivered + |entry.updates|;
        stop := n + 1;
      } else if entry.attempts >= maxAttempts {
        EntryDone(entries, answers, maxAttempts, n, redelivered, dropped);
        dropped := dropped + |entry.updates|;
        stop := n + 1;
      } else {
        EntryStays(entries, answers, maxAttempts, n, stop, redelivered, dropped, remaining);
        remaining := remaining + [entry];
        aborted := true;
      }
      n := n + 1;
    }
    FlushConserves(entries, answers, maxAttempts, stop, redelivered, dropped, remaining);
  }

  /** The finished loop loses no update. */
  lemma {:induction false} FlushConserves(entries: seq<Entry>, answers: seq<bool>, maxAttempts: int, stop: nat,
                       redelivered: nat, dropped: nat, remaining: seq<Entry>)
    requires |entries| <= |answers| && FlushedTo(entries, answers, maxAttempts, |entries|, stop, redelivered, dropped, remaining)
    ensures CountUpdates(entries) == redelivered + dropped + CountUpdates(remaining)
  {
    assert entries == entries[..stop] + entries[stop..] && entries[stop..|entries|] == entries[stop..];
    hide AnsweredUpdates, CountUpdates, Sent;
    AnsweredEitherWay(entries[..stop], answers);
    CountOfConcat(entries[..stop], entries[stop..]);
    SentCounts(entries[stop..]);
  }

  // ---- The loop is its steps ----

  /** The answers to one flush, one after the other with nothing in between. */
  function AfterAnswers(s: Sink, f: nat, answers: seq<bool>): Sink
    decreases |answers|
  {
    if answers == [] then s else AfterAnswers(Next(s, FlushAnswer(f, answers[0])), f, answers[1..])
  }

  /** What the end of `flushOutbox` makes of a sink: what remains goes back, as a refused flush does. */
  function FlushEnded(s: Sink, f: nat, redelivered: nat, dropped: nat, remaining: seq<Entry>): Sink
    requires f < |s.flushes|
  {
    var counted := s.(redelivered := s.redelivered + redelivered, dropped := s.dropped + dropped);
    if remaining == [] then counted.(flushes := Without(s.flushes, f))
    else Refused(counted.(flushes := s.flushes[f := remaining]), f)
  }

  /** The answers the loop waits for: up to the first that stops it. */
  function AnswersTaken(stop: nat, count: nat): nat {
    if stop < count then stop + 1 else count
  }

  lemma FirstAnswered(entries: seq<Entry>, answers: seq<bool>, maxAttempts: int, stop: nat,
                      redelivered: nat, dropped: nat, remaining: seq<Entry>) returns (r: nat, d: nat)
    requires 0 < stop && entries != [] && |entries| <= |answers|
    requires FlushedTo(entries, answers, maxAttempts, |entries|, stop, redelivered, dropped, remaining)
    ensures FlushedTo(entries[1..], answers[1..], maxAttempts, |entries| - 1, stop - 1, r, d, remaining)
    ensures redelivered == r + (if answers[0] then |entries[0].updates| else 0)
    ensures dropped == d + (if answers[0] then 0 else |entries[0].updates|)
    ensures answers[0] || entries[0].attempts + 1 >= maxAttempts
  {
    var tail, later := entries[1..], answers[1..];
    r, d := AnsweredUpdates(tail[..stop - 1], later, true), AnsweredUpdates(tail[..stop - 1], later, false);
    AnsweredHead(entries[..stop], answers, true);
    AnsweredHead(entries[..stop], answers, false);
    assert entries[..stop][1..] == tail[..stop - 1];
    assert entries[stop..|entries|] == tail[stop - 1..|tail|];
    hide AnsweredUpdates, Sent, DoneBefore, StopsAt;
    DoneTail(entries, answers, maxAttempts, stop);
  }

  lemma DoneTail(entries: seq<Entry>, answers: seq<bool>, maxAttempts: int, stop: nat)
    requires 0 < stop <= |entries| <= |answers| && DoneBefore(entries, answers, maxAttempts, stop)
    ensures answers[0] || entries[0].attempts + 1 >= maxAttempts
    ensures DoneBefore(entries[1..], answers[1..], maxAttempts, stop - 1)
    ensures stop < |entries| ==> StopsAt(entries[1..], answers[1..], maxAttempts, stop - 1)
                                 == StopsAt(entries, answers, maxAttempts, stop)
  {
    forall i | 0 <= i < stop - 1
      ensures answers[1..][i] || entries[1..][i].attempts + 1 >= maxAttempts
    {
      assert answers[1..][i] == answers[i + 1] && entries[1..][i] == entries[i + 1];
    }
  }

  lemma {:induction false} AnsweredHead(entries: seq<Entry>, answers: seq<bool>, answer: bool)
    requires entries != [] && |entries| <= |answers|
    ensures AnsweredUpdates(entries, answers, answer) ==
            (if answers[0] == answer then |entries[0].updates| else 0) + AnsweredUpdates(entries[1..], answers[1..], answer)
  {
  }

  /** One answer that lets the loop go on. */
  lemma AnswerGoesOn(s: Sink, f: nat, entries: seq<Entry>, ok: bool)
    requires f < |s.flushes| && entries != [] && s.flushes[f] == Sent(entries)
    requires ok || entries[0].attempts + 1 >= s.options.maxAttempts
    ensures Next(s, FlushAnswer(f, ok)) ==
            var n := |entries[0].updates|;
            Continued(if ok then s.(redelivered := s.redelivered + n) else s.(dropped := s.dropped + n), f, entries[1..])
  {
    assert Sent(entries)[1..] == entries[1..];
  }

  /** The answer that stops the loop at once. */
  lemma FirstAnswerStops(s: Sink, f: nat, entries: seq<Entry>, answers: seq<bool>,
                         redelivered: nat, dropped: nat, remaining: seq<Entry>)
    requires f < |s.flushes| && entries != [] && s.flushes[f] == Sent(entries) && |entries| <= |answers|
    requires FlushedTo(entries, answers, s.options.maxAttempts, |entries|, 0, redelivered, dropped, remaining)
    ensures Next(s, FlushAnswer(f, answers[0])) == FlushEnded(s, f, redelivered, dropped, remaining)
  {
    assert entries[0..|entries|] == entries && entries[..0] == [];
    assert s.flushes[f := Sent(entries)] == s.flushes;
    hide Refused, CountUpdates;
  }

  lemma NothingLeft(answers: seq<bool>, maxAttempts: int, stop: nat, redelivered: nat, dropped: nat, remaining: seq<Entry>)
    requires FlushedTo([], answers, maxAttempts, 0, stop, redelivered, dropped, remaining)
    ensures redelivered == dropped == 0 && remaining == []
  {
  }

  /** Going on and then ending is ending with the sums of both. */
  lemma EndsAfterGoingOn(s: Sink, f: nat, rest: seq<Entry>, more: nat, gone: nat, redelivered: nat, dropped: nat,
                         remaining: seq<Entry>)
    requires f < |s.flushes|
    ensures var t := Continued(s.(redelivered := s.redelivered + more, dropped := s.dropped + gone), f, rest);
            && t.options == s.options
            && (rest != [] ==> f < |t.flushes| && t.flushes[f] == Sent(rest)
                               && FlushEnded(t, f, redelivered, dropped, remaining)
                                  == FlushEnded(s, f, redelivered + more, dropped + gone, remaining))
            && (rest == [] ==> t == FlushEnded(s, f, more, gone, []))
  {
    hide Requeued, Lost, CountUpdates, Sent;
    if rest != [] {
      assert s.flushes[f := Sent(rest)][f := remaining] == s.flushes[f := remaining];
      assert Without(s.flushes[f := Sent(rest)], f) == Without(s.flushes, f);
    }
  }

  /** The loop, uninterrupted, does what its answers do as single steps. */
  lemma {:induction false} FlushIsItsAnswers(s: Sink, f: nat, entries: seq<Entry>, answers: seq<bool>, stop: nat,
                                             redelivered: nat, dropped: nat, remaining: seq<Entry>)
    requires f < |s.flushes| && entries != [] && s.flushes[f] == Sent(entries) && |entries| <= |answers|
    requires FlushedTo(entries, answers, s.options.maxAttempts, |entries|, stop, redelivered, dropped, remaining)
    ensures AfterAnswers(s, f, answers[..AnswersTaken(stop, |entries|)]) == FlushEnded(s, f, redelivered, dropped, remaining)
    decreases |entries|
  {
    hide Next, Continued, FlushEnded, FlushedTo, Sent, CountUpdates;
    var taken := answers[..AnswersTaken(stop, |entries|)];
    var next := Next(s, FlushAnswer(f, answers[0]));
    assert AfterAnswers(s, f, taken) == AfterAnswers(next, f, taken[1..]);
    if stop == 0 {
      FirstAnswerStops(s, f, entries, answers, redelivered, dropped, remaining);
      assert taken[1..] == [];
    } else {
      var r, d := FirstAnswered(entries, answers, s.options.maxAttempts, stop, redelivered, dropped, remaining);
      AnswerGoesOn(s, f, entries, answers[0]);
      var n := |entries[0].updates|;
      EndsAfterGoingOn(s, f, entries[1..], if answers[0] then n else 0, if answers[0] then 0 else n, r, d, remaining);
      assert taken[1..] == answers[1..][..AnswersTaken(stop - 1, |entries| - 1)];
      if |entries| > 1 {
        FlushIsItsAnswers(next, f, entries[1..], answers[1..], stop - 1, r, d, remaining);
      } else {
        NothingLeft(answers[1..], s.options.maxAttempts, stop - 1, r, d, remaining);
        assert taken[1..] == [];
      }
    }
  }
}
