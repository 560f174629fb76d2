/**
 * The per-sink circuit breaker (circuit-breaker.ts:57-179).
 *
 * `After` says what each call does to the breaker's state; the class is proved
 * to follow it, and the safety properties are proved over every sequence of
 * calls, so over late results and reconfiguration as well.
 */
module CircuitBreakers {

  datatype BreakerState = Closed | HalfOpen | Open

  datatype Options = Options(enabled: bool, failureThreshold: int, cooldownMs: int)

  /** A breaker's whole state. */
  datatype Status = Status(state: BreakerState, failures: nat, openedAt: int, probeInFlight: bool, options: Options)

  /** A call, with what the clock reads where the call reads it. */
  datatype Call =
    | Allow(now: int)
    | Success
    | Partial
    | Failure(now: int)
    | Close
    | Reconfigure(options: Options)

  function Fresh(options: Options): Status {
    Status(Closed, 0, 0, false, options)
  }

  /** The answer of `allowRequest`. */
  predicate Admits(s: Status, now: int) {
    match s.state
    case Closed => true
    case Open => !s.options.enabled || now - s.openedAt >= s.options.cooldownMs
    case HalfOpen => !s.options.enabled || !s.probeInFlight
  }

  function After(s: Status, c: Call): Status {
    match c
    case Allow(now) =>
      if s.options.enabled && s.state != Closed && Admits(s, now) then s.(state := HalfOpen, probeInFlight := true) else s
    case Success => s.(state := Closed, failures := 0, probeInFlight := false)
    case Partial => s.(state := if s.state == HalfOpen then Closed else s.state, probeInFlight := false)
    case Failure(now) =>
      if !s.options.enabled then s
      else if s.state == HalfOpen || (s.state == Closed && s.failures + 1 >= s.options.failureThreshold) then
        s.(state := Open, failures := s.failures + 1, openedAt := now, probeInFlight := false)
      else s.(failures := s.failures + 1, probeInFlight := false)
    case Close =>
      if s.state == Closed then s else s.(state := Closed, failures := 0, probeInFlight := false)
    case Reconfigure(options) =>
      if !options.enabled && s.state != Closed
      then s.(state := Closed, failures := 0, probeInFlight := false, options := options)
      else s.(options := options)
  }

  class CircuitBreaker {
    var state: BreakerState
    var consecutiveFailures: nat
    var openedAt: int
    var probeInFlight: bool
    var options: Options

    ghost function View(): Status
      reads this
    {
      Status(state, consecutiveFailures, openedAt, probeInFlight, options)
    }

    constructor (options: Options)
      ensures View() == Fresh(options)
    {
      state, consecutiveFailures, openedAt, probeInFlight := Closed, 0, 0, false;
      this.options := options;
    }

    method Reconfigure(options: Options)
      modifies this
      ensures View() == After(old(View()), Call.Reconfigure(options))
    {
      this.options := options;
      if !options.enabled && state != Closed {
        state := Closed;
        consecutiveFailures := 0;
        probeInFlight := false;
      }
    }

    method AllowRequest(now: int) returns (allowed: bool)
      modifies this
      ensures allowed == Admits(old(View()), now)
      ensures View() == After(old(View()), Allow(now))
    {
      if !options.enabled {
        return true;
      }
      if state == Closed {
        return true;
      }
      if state == Open {
        if now - openedAt < options.cooldownMs {
          return false;
        }
        state := HalfOpen;
        probeInFlight := true;
        return true;
      }
      if probeInFlight {
        return false;
      }
      probeInFlight := true;
      return true;
    }

    method RecordSuccess()
      modifies this
      ensures View() == After(old(View()), Success)
    {
      probeInFlight := false;
      consecutiveFailures := 0;
      if state != Closed {
        state := Closed;
      }
    }

    method RecordPartial()
      modifies this
      ensures View() == After(old(View()), Partial)
    {
      probeInFlight := false;
      if state == HalfOpen {
        state := Closed;
      }
    }

    method RecordFailure(now: int)
      modifies this
      ensures View() == After(old(View()), Failure(now))
    {
      if !options.enabled {
        return;
      }
      probeInFlight := false;
      consecutiveFailures := consecutiveFailures + 1;
      if state == HalfOpen {
        Trip(now);
        return;
      }
      if state == Closed && consecutiveFailures >= options.failureThreshold {
        Trip(now);
      }
    }

    method CloseBreaker()
      modifies this
      ensures View() == After(old(View()), Close)
    {
      if state == Closed {
        return;
      }
      consecutiveFailures := 0;
      probeInFlight := false;
      state := Closed;
    }

    /** `open`. */
    method Trip(now: int)
      modifies this
      ensures View() == old(View()).(state := Open, openedAt := now)
    {
      openedAt := now;
      state := Open;
    }
  }

  // ---- Safety over every sequence of calls ----

  /** The state of a fresh breaker after the calls. */
  function Run(options: Options, calls: seq<Call>): Status {
    if calls == [] then Fresh(options)
    else After(Run(options, calls[..|calls| - 1]), calls[|calls| - 1])
  }

  /** The state just before call `i`. */
  function Before(options: Options, calls: seq<Call>, i: nat): Status
    requires i <= |calls|
  {
    Run(options, calls[..i])
  }

  lemma RunStep(options: Options, calls: seq<Call>, i: nat)
    requires i < |calls|
    ensures Before(options, calls, i + 1) == After(Before(options, calls, i), calls[i])
  {
    assert calls[..i + 1][..i] == calls[..i];
  }

  lemma RunOneMore(options: Options, calls: seq<Call>, c: Call)
    ensures Run(options, calls + [c]) == After(Run(options, calls), c)
  {
    assert (calls + [c])[..|calls|] == calls;
  }

  /** Half-open exactly while a trial is in flight; a disabled breaker is closed. */
  lemma {:induction false} HalfOpenIffProbing(options: Options, calls: seq<Call>)
    ensures var s := Run(options, calls); (s.state == HalfOpen <==> s.probeInFlight) && (!s.options.enabled ==> s.state == Closed)
  {
    if calls != [] {
      HalfOpenIffProbing(options, calls[..|calls| - 1]);
    }
  }

  /** Call `i` asks to publish and is let through. */
  predicate AdmittedAt(options: Options, calls: seq<Call>, i: nat)
    requires i < |calls|
  {
    calls[i].Allow? && Admits(Before(options, calls, i), calls[i].now)
  }

  /**
   * A half-open period begins with an admitted request and admits no other: of
   * the calls that begin it or fall in it, exactly the first is let through.
   */
  lemma OneTrialPerPeriod(options: Options, calls: seq<Call>, first: nat, k: nat)
    requires first <= k < |calls|
    requires Before(options, calls, first).state != HalfOpen
    requires forall i :: first < i <= k ==> Before(options, calls, i).state == HalfOpen
    requires Before(options, calls, first + 1).state == HalfOpen
    ensures AdmittedAt(options, calls, k) <==> k == first
  {
    RunStep(options, calls, first);
    if k > first {
      HalfOpenIffProbing(options, calls[..k]);
      assert Before(options, calls, k).state == HalfOpen;
    }
  }

  /** Calls that may close an open breaker: a success, a health close, a disable. */
  predicate Reopens(c: Call) {
    c.Success? || c.Close? || (c.Reconfigure? && !c.options.enabled)
  }

  lemma OpenStays(s: Status, c: Call)
    requires s.state == Open && s.options.enabled && !Reopens(c)
    requires c.Allow? ==> c.now - s.openedAt < s.options.cooldownMs
    ensures After(s, c).state == Open && After(s, c).openedAt == s.openedAt && (c.Allow? ==> !Admits(s, c.now))
  {
  }

  /**
   * An open breaker lets nothing through before its cooldown: if it opened at
   * `t` and a later request is admitted, then in between either the sink was
   * shown healthy, the breaker was disabled, or the cooldown was over for some
   * request.
   */
  lemma {:induction false} OpenWaitsForCooldown(options: Options, calls: seq<Call>, start: nat, k: nat)
    requires start <= k <= |calls|
    requires Before(options, calls, start).state == Open
    requires forall i :: start <= i < k ==> !Reopens(calls[i])
    requires forall i :: start <= i < k && calls[i].Allow? ==>
               calls[i].now - Before(options, calls, start).openedAt < Before(options, calls, i).options.cooldownMs
    ensures Before(options, calls, k).state == Open
    ensures Before(options, calls, k).openedAt == Before(options, calls, start).openedAt
    ensures forall i :: start <= i < k ==> !AdmittedAt(options, calls, i)
  {
    hide After, Run, Admits, Reopens;
    if k > start {
      OpenWaitsForCooldown(options, calls, start, k - 1);
      RunStep(options, calls, k - 1);
      HalfOpenIffProbing(options, calls[..k - 1]);
      OpenStays(Before(options, calls, k - 1), calls[k - 1]);
    }
  }

  /** Call `i` starts the count of failures again: a success, or a close or disable that finds the breaker tripped. */
  predicate Resets(options: Options, calls: seq<Call>, i: nat)
    requires i < |calls|
  {
    || calls[i].Success?
    || (calls[i].Close? && Before(options, calls, i).state != Closed)
    || (calls[i].Reconfigure? && !calls[i].options.enabled && Before(options, calls, i).state != Closed)
  }

  /** How many of the calls from `first` on are whole-sink failures that found the breaker enabled. */
  function FailuresFrom(options: Options, calls: seq<Call>, first: nat, end: nat): nat
    requires first <= end <= |calls|
  {
    if end == first then 0
    else FailuresFrom(options, calls, first, end - 1)
         + if calls[end - 1].Failure? && Before(options, calls, end - 1).options.enabled then 1 else 0
  }

  /** `first` is where the current run of failures begins: right after the last reset. */
  predicate RunBegins(options: Options, calls: seq<Call>, first: nat, end: nat)
    requires first <= end <= |calls|
  {
    && (first == 0 || Resets(options, calls, first - 1))
    && forall i :: first <= i < end ==> !Resets(options, calls, i)
  }

  /** The counter is the number of failures since the last reset, whatever else was called in between. */
  lemma {:induction false} CounterCountsRun(options: Options, calls: seq<Call>, first: nat, end: nat)
    requires first <= end <= |calls| && RunBegins(options, calls, first, end)
    ensures Before(options, calls, end).failures == FailuresFrom(options, calls, first, end)
    decreases end
  {
    if end > first {
      CounterCountsRun(options, calls, first, end - 1);
      RunStep(options, calls, end - 1);
      var s, c := Before(options, calls, end - 1), calls[end - 1];
      assert !Resets(options, calls, end - 1);
      assert After(s, c).failures == s.failures + if c.Failure? && s.options.enabled then 1 else 0;
    } else if first > 0 {
      RunStep(options, calls, first - 1);
    }
  }

  /**
   * A closed breaker opens on a call exactly when the call is a failure, the
   * breaker is enabled, and with it the failures since the last reset reach
   * the threshold.
   */
  lemma TripsExactlyAtThreshold(options: Options, calls: seq<Call>, first: nat, k: nat)
    requires first <= k < |calls| && RunBegins(options, calls, first, k)
    requires Before(options, calls, k).state == Closed
    ensures Before(options, calls, k + 1).state == Open <==>
            calls[k].Failure? && Before(options, calls, k).options.enabled
            && FailuresFrom(options, calls, first, k + 1) >= Before(options, calls, k).options.failureThreshold
  {
    RunStep(options, calls, k);
    CounterCountsRun(options, calls, first, k);
  }

  // ---- When a closed breaker stands at its threshold ----

  /** One would expect this of no closed breaker. */
  predicate AtThreshold(s: Status) {
    s.state == Closed && s.failures >= s.options.failureThreshold
  }

  /**
   * The calls that bring it about: a partial result closes a trial without
   * forgetting the failures, and a new threshold is not held against them.
   */
  predicate Reaches(s: Status, c: Call) {
    || (c.Partial? && s.state == HalfOpen && s.failures >= s.options.failureThreshold)
    || (c.Reconfigure? && s.state == Closed && s.failures >= c.options.failureThreshold)
  }

  /** The calls a breaker at its threshold stays so through, other than another new threshold. */
  predicate Stays(s: Status, c: Call) {
    c.Allow? || c.Partial? || c.Close? || (c.Failure? && !s.options.enabled)
  }

  /** Thresholds as configuration admits them. */
  predicate ThresholdsAtLeastOne(options: Options, calls: seq<Call>) {
    && options.failureThreshold >= 1
    && forall i :: 0 <= i < |calls| && calls[i].Reconfigure? ==> calls[i].options.failureThreshold >= 1
  }

  lemma {:induction false} ThresholdIsAtLeastOne(options: Options, calls: seq<Call>, end: nat)
    requires ThresholdsAtLeastOne(options, calls) && end <= |calls|
    ensures Before(options, calls, end).options.failureThreshold >= 1
  {
    if end > 0 {
      ThresholdIsAtLeastOne(options, calls, end - 1);
      RunStep(options, calls, end - 1);
    }
  }

  /** One call, from any state. */
  lemma AtThresholdStep(s: Status, c: Call)
    requires s.options.failureThreshold >= 1 && (c.Reconfigure? ==> c.options.failureThreshold >= 1)
    ensures AtThreshold(After(s, c)) <==> Reaches(s, c) || (AtThreshold(s) && Stays(s, c))
  {
  }

  /** Call `i` brings the breaker to its threshold, and no later one before `end` takes it away. */
  ghost predicate StandsSince(options: Options, calls: seq<Call>, i: nat, end: nat)
    requires i < end <= |calls|
  {
    && Reaches(Before(options, calls, i), calls[i])
    && forall j :: i < j < end ==> Stays(Before(options, calls, j), calls[j])
  }

  ghost predicate Stands(options: Options, calls: seq<Call>, end: nat)
    requires end <= |calls|
  {
    exists i: nat :: i < end && StandsSince(options, calls, i, end)
  }

  lemma {:induction false} StandsOneMore(options: Options, calls: seq<Call>, end: nat)
    requires 0 < end <= |calls|
    ensures var s, c := Before(options, calls, end - 1), calls[end - 1];
            Stands(options, calls, end) <==> Reaches(s, c) || (Stands(options, calls, end - 1) && Stays(s, c))
  {
    hide Before, Reaches, Stays;
    var last := end - 1;
    if i: nat :| i < last && StandsSince(options, calls, i, end) {
      assert StandsSince(options, calls, i, last);
    }
    if i: nat :| i < last && StandsSince(options, calls, i, last) {
      assert Stays(Before(options, calls, last), calls[last]) ==> StandsSince(options, calls, i, end);
    }
    assert Reaches(Before(options, calls, last), calls[last]) <==> StandsSince(options, calls, last, end);
  }

  /** Over every run: a closed breaker stands at its threshold exactly when such a call brought it there and it stayed. */
  lemma {:induction false} AtThresholdIffStands(options: Options, calls: seq<Call>, end: nat)
    requires ThresholdsAtLeastOne(options, calls) && end <= |calls|
    ensures AtThreshold(Before(options, calls, end)) <==> Stands(options, calls, end)
  {
    if end > 0 {
      AtThresholdIffStands(options, calls, end - 1);
      ThresholdIsAtLeastOne(options, calls, end - 1);
      RunStep(options, calls, end - 1);
      StandsOneMore(options, calls, end);
      hide Before, After, Reaches, Stays, AtThreshold, Stands;
      AtThresholdStep(Before(options, calls, end - 1), calls[end - 1]);
    }
  }

  // ---- With the threshold left alone ----

  /** Nothing reconfigures the breaker's switch or threshold. */
  predicate KeepsThreshold(options: Options, calls: seq<Call>) {
    forall i :: 0 <= i < |calls| && calls[i].Reconfigure? ==>
      calls[i].options.enabled == options.enabled && calls[i].options.failureThreshold == options.failureThreshold
  }

  /** Call `i` closes a half-open breaker by a partial result. */
  predicate PartialTrial(options: Options, calls: seq<Call>, i: nat)
    requires i < |calls|
  {
    calls[i].Partial? && Before(options, calls, i).state == HalfOpen
  }

  ghost predicate SomePartialTrial(options: Options, calls: seq<Call>, first: nat, end: nat)
    requires first <= end <= |calls|
  {
    exists i :: first <= i < end && PartialTrial(options, calls, i)
  }

  lemma {:induction false} OptionsKept(options: Options, calls: seq<Call>, end: nat)
    requires KeepsThreshold(options, calls) && end <= |calls|
    ensures var o := Before(options, calls, end).options;
            o.enabled == options.enabled && o.failureThreshold == options.failureThreshold
  {
    if end > 0 {
      OptionsKept(options, calls, end - 1);
      RunStep(options, calls, end - 1);
    }
  }

  lemma SomePartialTrialGrows(options: Options, calls: seq<Call>, first: nat, end: nat)
    requires first < end <= |calls|
    ensures SomePartialTrial(options, calls, first, end) <==>
            SomePartialTrial(options, calls, first, end - 1) || PartialTrial(options, calls, end - 1)
  {
  }

  /** The failures reach the threshold exactly when the breaker is tripped, or a partial trial has closed it since. */
  lemma {:induction false} AtThresholdIff(options: Options, calls: seq<Call>, first: nat, end: nat)
    requires options.failureThreshold >= 1 && KeepsThreshold(options, calls)
    requires first <= end <= |calls| && RunBegins(options, calls, first, end)
    ensures var s := Before(options, calls, end);
            s.failures >= options.failureThreshold <==> s.state != Closed || SomePartialTrial(options, calls, first, end)
    decreases end
  {
    assert !SomePartialTrial(options, calls, end, end);
    hide SomePartialTrial, KeepsThreshold;
    OptionsKept(options, calls, end);
    HalfOpenIffProbing(options, calls[..end]);
    if end > first {
      AtThresholdIff(options, calls, first, end - 1);
      OptionsKept(options, calls, end - 1);
      SomePartialTrialGrows(options, calls, first, end);
      RunStep(options, calls, end - 1);
      assert !Resets(options, calls, end - 1);
    } else if first > 0 {
      RunStep(options, calls, first - 1);
    }
  }

  /**
   * As long as neither switch nor threshold changes, a closed breaker stands at
   * its threshold exactly when a trial since the last reset ended in a partial
   * result.
   */
  lemma ClosedAtThresholdIff(options: Options, calls: seq<Call>, first: nat, end: nat)
    requires options.failureThreshold >= 1 && KeepsThreshold(options, calls)
    requires first <= end <= |calls| && RunBegins(options, calls, first, end)
    requires Before(options, calls, end).state == Closed
    ensures Before(options, calls, end).failures >= options.failureThreshold <==>
            SomePartialTrial(options, calls, first, end)
  {
    AtThresholdIff(options, calls, first, end);
  }

  function Failures(n: nat): seq<Call> {
    if n == 0 then [] else Failures(n - 1) + [Failure(0)]
  }

  /** A breaker that has seen nothing but `n` failures, at most up to its threshold. */
  function Failed(options: Options, n: nat): Status {
    Status(if n == options.failureThreshold then Open else Closed, n, 0, false, options)
  }

  lemma OneMoreFailure(options: Options, n: nat)
    requires options.enabled && n < options.failureThreshold
    ensures After(Failed(options, n), Failure(0)) == Failed(options, n + 1)
  {
  }

  lemma NoFailures(options: Options)
    requires options.failureThreshold >= 1
    ensures Run(options, Failures(0)) == Failed(options, 0)
  {
  }

  lemma {:induction false} AfterFailures(options: Options, n: nat)
    requires options.enabled && n <= options.failureThreshold && options.failureThreshold >= 1
    ensures Run(options, Failures(n)) == Failed(options, n)
  {
    if n > 0 {
      hide Run, After, Failed;
      AfterFailures(options, n - 1);
      RunOneMore(options, Failures(n - 1), Failure(0));
      OneMoreFailure(options, n - 1);
    } else {
      NoFailures(options);
    }
  }

  /** For every threshold, a run that ends closed and at it: failures, a trial after the cooldown, a partial result. */
  lemma PartialTrialLeavesRun(options: Options)
    requires options.enabled && options.failureThreshold >= 1
    ensures var s := Run(options, Failures(options.failureThreshold) + [Allow(options.cooldownMs)] + [Partial]);
            AtThreshold(s) && s.failures == options.failureThreshold
  {
    hide Run;
    var failed := Failures(options.failureThreshold);
    AfterFailures(options, options.failureThreshold);
    RunOneMore(options, failed, Allow(options.cooldownMs));
    RunOneMore(options, failed + [Allow(options.cooldownMs)], Partial);
  }

  /** A run that ends closed and at its threshold without a trial: some failures, and a threshold lowered to them. */
  lemma LoweredThresholdMeetsRun(options: Options, n: nat)
    requires options.enabled && 1 <= n < options.failureThreshold
    ensures AtThreshold(Run(options, Failures(n) + [Reconfigure(options.(failureThreshold := n))]))
  {
    hide Run;
    AfterFailures(options, n);
    RunOneMore(options, Failures(n), Reconfigure(options.(failureThreshold := n)));
  }
}
