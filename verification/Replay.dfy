/**
 * Loading a recording and seeking in it (ReplayManager.ts:105-165, 272-398): a
 * seek starts from a keyframe and still restores what the whole log would.
 */
module Replay {
  import opened Common
  import opened RenderState
  import opened Recording

  datatype TimedEvent = TimedEvent(timestamp: int, event: Event)

  /** `eventIndex` counts the events the keyframe already includes. */
  datatype LoadedKeyframe = LoadedKeyframe(timestamp: int, eventIndex: nat, state: KeyframeState)

  function TimedEvents(lines: seq<Line>): seq<TimedEvent> {
    if lines == [] then []
    else
      var front, last := TimedEvents(lines[..|lines| - 1]), lines[|lines| - 1];
      if last.EventLine? then front + [TimedEvent(last.timestamp, last.event)] else front
  }

  function Keyframes(lines: seq<Line>): seq<LoadedKeyframe> {
    if lines == [] then []
    else
      var rest := lines[..|lines| - 1];
      var front, last := Keyframes(rest), lines[|lines| - 1];
      if last.KeyframeLine? then front + [LoadedKeyframe(last.timestamp, |TimedEvents(rest)|, last.state)] else front
  }

  /** The index of the newest keyframe that covers no event from `target` on, or -1. */
  ghost predicate IsChosen(kfs: seq<LoadedKeyframe>, target: nat, k: int) {
    && -1 <= k < |kfs|
    && (k >= 0 ==> kfs[k].eventIndex <= target)
    && forall j :: k < j < |kfs| ==> kfs[j].eventIndex > target
  }

  predicate Ascending(kfs: seq<LoadedKeyframe>) {
    forall i, j :: 0 <= i < j < |kfs| ==> kfs[i].eventIndex <= kfs[j].eventIndex
  }

  function StartIndex(kfs: seq<LoadedKeyframe>, k: int): nat
    requires k < |kfs|
  {
    if k < 0 then 0 else kfs[k].eventIndex
  }

  function StartState(kfs: seq<LoadedKeyframe>, k: int): State
    requires k < |kfs|
  {
    if k < 0 then Nothing() else Loaded(kfs[k].state)
  }

  function EventsIn(events: seq<TimedEvent>, from: nat, to: nat): seq<Event>
    requires from <= to <= |events|
  {
    seq(to - from, i requires 0 <= i < to - from => events[from + i].event)
  }

  lemma {:induction false} TimedAndPlain(lines: seq<Line>)
    ensures |TimedEvents(lines)| == |EventsOf(lines)|
    ensures forall i :: 0 <= i < |EventsOf(lines)| ==> TimedEvents(lines)[i].event == EventsOf(lines)[i]
  {
    if lines != [] {
      TimedAndPlain(lines[..|lines| - 1]);
    }
  }

  /** Keyframes are indexed in file order, so in order of the events they cover. */
  lemma {:induction false} KeyframesAscend(lines: seq<Line>)
    ensures Ascending(Keyframes(lines))
    ensures forall j :: 0 <= j < |Keyframes(lines)| ==> Keyframes(lines)[j].eventIndex <= |TimedEvents(lines)|
  {
    if lines != [] {
      KeyframesAscend(lines[..|lines| - 1]);
    }
  }

  /** A loaded keyframe is the line after exactly the events it counts. */
  lemma {:induction false} LineOfKeyframe(lines: seq<Line>, j: nat) returns (i: nat)
    requires j < |Keyframes(lines)|
    ensures i < |lines| && lines[i].KeyframeLine? && lines[i].state == Keyframes(lines)[j].state
    ensures Keyframes(lines)[j].eventIndex <= |EventsOf(lines)|
    ensures EventsOf(lines[..i]) == EventsOf(lines)[..Keyframes(lines)[j].eventIndex]
  {
    var rest := lines[..|lines| - 1];
    if j < |Keyframes(rest)| {
      i := LineOfKeyframe(rest, j);
      assert lines[..i] == rest[..i];
    } else {
      i := |lines| - 1;
      TimedAndPlain(rest);
      assert EventsOf(rest) == EventsOf(rest)[..|EventsOf(rest)|];
    }
  }

  // ---- What a seek restores ----

  /** Exactly in raw mode; in live mode all that shows is the same. */
  ghost predicate SameAsFold(raw: bool, restored: State, folded: State) {
    Shows(restored, folded) && (raw ==> restored == folded)
  }

  /** The state stands for all events before `target`, if the lines are those of a recorder in either mode. */
  ghost predicate RestoresFold(lines: seq<Line>, target: nat, state: State) {
    && target <= |EventsOf(lines)|
    && forall raw: bool :: Faithful(lines, raw) ==> SameAsFold(raw, state, Fold(EventsOf(lines)[..target]))
  }

  predicate InTimeOrder(events: seq<TimedEvent>) {
    forall i, j :: 0 <= i < j < |events| ==> events[i].timestamp <= events[j].timestamp
  }

  lemma EventsInAreSlice(lines: seq<Line>, from: nat, to: nat)
    requires from <= to <= |EventsOf(lines)|
    ensures |TimedEvents(lines)| == |EventsOf(lines)|
    ensures EventsIn(TimedEvents(lines), from, to) == EventsOf(lines)[from..to]
  {
    TimedAndPlain(lines);
  }

  lemma {:induction false} FoldKeepsSame(raw: bool, a: State, b: State, events: seq<Event>)
    requires SameAsFold(raw, a, b)
    ensures SameAsFold(raw, FoldFrom(a, events), FoldFrom(b, events))
  {
    FoldShows(a, b, events);
  }

  lemma {:induction false} StartIsRestored(lines: seq<Line>, raw: bool, k: int)
    requires Faithful(lines, raw) && -1 <= k < |Keyframes(lines)|
    ensures StartIndex(Keyframes(lines), k) <= |EventsOf(lines)|
    ensures SameAsFold(raw, StartState(Keyframes(lines), k), Fold(EventsOf(lines)[..StartIndex(Keyframes(lines), k)]))
  {
    if k >= 0 {
      var i := LineOfKeyframe(lines, k);
      assert Restores(raw, lines[i].state, EventsOf(lines[..i]));
    } else {
      assert EventsOf(lines)[..0] == [];
    }
  }

  /**
   * In a file the recorder wrote, a seek through a keyframe restores what
   * folding every earlier event would: exactly in raw mode; in live mode with
   * the same routes, incidents and heat zones, and with every vehicle of the
   * fold within the recording threshold.
   */
  lemma {:induction false} SeekRestoresFold(lines: seq<Line>, raw: bool, target: nat, k: int)
    requires Faithful(lines, raw) && target <= |TimedEvents(lines)|
    requires IsChosen(Keyframes(lines), target, k)
    ensures StartIndex(Keyframes(lines), k) <= target <= |EventsOf(lines)|
    ensures SameAsFold(raw,
                       FoldFrom(StartState(Keyframes(lines), k),
                                EventsIn(TimedEvents(lines), StartIndex(Keyframes(lines), k), target)),
                       Fold(EventsOf(lines)[..target]))
  {
    TimedAndPlain(lines);
    var events, start, from := EventsOf(lines), StartIndex(Keyframes(lines), k), StartState(Keyframes(lines), k);
    StartIsRestored(lines, raw, k);
    EventsInAreSlice(lines, start, target);
    hide Faithful, EventsOf, Keyframes, TimedEvents, StartState, SameAsFold, FoldFrom, Fold, EventsIn;
    FoldKeepsSame(raw, from, Fold(events[..start]), events[start..target]);
    FoldSplits(events, start, target);
  }

  lemma {:induction false} FoldSplits(events: seq<Event>, start: nat, target: nat)
    requires start <= target <= |events|
    ensures FoldFrom(Fold(events[..start]), events[start..target]) == Fold(events[..target])
  {
    hide FoldFrom;
    FoldOfConcat(Nothing(), events[..start], events[start..target]);
    assert events[..target] == events[..start] + events[start..target];
  }

  // ---- The reader ----

  /** The fields of a header that loading looks at. */
  datatype Header = Header(format: string, version: int)

  const RECORDING_FORMAT := Header("moveet-recording", 1)

  datatype LoadOutcome = Ready | WrongFormat | NoHeader | NoEvents

  /** What a seek restores: the state, the keyframe it used if any, and how many events it took. */
  datatype Restored = Restored(state: State, keyframe: int, rolledForward: nat)

  class ReplayManager {
    var events: seq<TimedEvent>
    var keyframes: seq<LoadedKeyframe>
    var currentIndex: nat
    /** The lines of the loaded file, after its header. */
    ghost var lines: seq<Line>

    ghost predicate Valid()
      reads this
    {
      events == TimedEvents(lines) && keyframes == Keyframes(lines)
    }

    constructor ()
      ensures Valid() && events == [] && keyframes == [] && currentIndex == 0
    {
      events, keyframes, currentIndex, lines := [], [], 0, [];
    }

    /**
     * `loadRecording`: the first line must be a header of the right format and
     * version, and without lines there is none; keyframe lines are an index, not
     * events.
     */
    method LoadRecording(header: Option<Header>, file: seq<Line>) returns (outcome: LoadOutcome)
      modifies this
      ensures Valid() && lines == if header == Some(RECORDING_FORMAT) then file else []
      ensures outcome == WrongFormat <==> header.Some? && header.value != RECORDING_FORMAT
      ensures outcome == Ready <==> header == Some(RECORDING_FORMAT) && events != []
      ensures outcome == NoHeader <==> header.None?
      ensures outcome == Ready ==> currentIndex == 0
    {
      events, keyframes, lines := [], [], [];
      if header.Some? && header.value != RECORDING_FORMAT {
        return WrongFormat;
      }
      if header.None? {
        return NoHeader;
      }
      var i := 0;
      while i < |file|
        invariant 0 <= i <= |file|
        invariant events == TimedEvents(file[..i]) && keyframes == Keyframes(file[..i])
      {
        assert file[..i + 1][..i] == file[..i];
        match file[i] {
          case KeyframeLine(ts, state) =>
            keyframes := keyframes + [LoadedKeyframe(ts, |events|, state)];
          case EventLine(ts, event) =>
            events := events + [TimedEvent(ts, event)];
        }
        i := i + 1;
      }
      assert file[..i] == file;
      lines := file;
      if events == [] {
        return NoEvents;
      }
      currentIndex := 0;
      return Ready;
    }

    /** The binary search for the first event at or after a timestamp. */
    method FirstAtOrAfter(targetTs: int) returns (index: nat)
      ensures index <= |events|
      ensures InTimeOrder(events) ==>
                forall i :: 0 <= i < |events| ==> (i < index <==> events[i].timestamp < targetTs)
    {
      var lo, hi := 0, |events|;
      while lo < hi
        invariant 0 <= lo <= hi <= |events|
        invariant lo > 0 ==> events[lo - 1].timestamp < targetTs
        invariant hi < |events| ==> events[hi].timestamp >= targetTs
      {
        var mid := (lo + hi) / 2;
        if events[mid].timestamp < targetTs {
          lo := mid + 1;
        } else {
          hi := mid;
        }
      }
      return lo;
    }

    /** The binary search for the last keyframe that covers no event from `target` on. */
    method ChooseKeyframe(target: nat) returns (k: int)
      requires Ascending(keyframes)
      ensures IsChosen(keyframes, target, k)
    {
      k := -1;
      var lo, hi := 0, |keyframes|;
      while lo < hi
        invariant 0 <= lo <= hi <= |keyframes| && k == lo - 1
        invariant k >= 0 ==> keyframes[k].eventIndex <= target
        invariant forall j :: hi <= j < |keyframes| ==> keyframes[j].eventIndex > target
      {
        var mid := (lo + hi) / 2;
        if keyframes[mid].eventIndex <= target {
          k := mid;
          lo := mid + 1;
        } else {
          hi := mid;
        }
      }
    }

    /** `restoreStateAt`: the state emitted, and how many events it took. */
    method RestoreStateAt(target: nat) returns (state: State, k: int, rolledForward: nat)
      requires target <= |events| && Ascending(keyframes)
      ensures IsChosen(keyframes, target, k)
      ensures StartIndex(keyframes, k) <= target && rolledForward == target - StartIndex(keyframes, k)
      ensures state == FoldFrom(StartState(keyframes, k), EventsIn(events, StartIndex(keyframes, k), target))
    {
      var accumulator := new KeyframeStateAccumulator();
      k := ChooseKeyframe(target);
      var startIndex := 0;
      if k >= 0 {
        accumulator.LoadFrom(keyframes[k].state);
        startIndex := keyframes[k].eventIndex;
      }
      rolledForward := 0;
      var i := startIndex;
      while i < target
        invariant startIndex <= i <= target && rolledForward == i - startIndex
        invariant accumulator.state == FoldFrom(StartState(keyframes, k), EventsIn(events, startIndex, i))
      {
        assert EventsIn(events, startIndex, i + 1)[..i - startIndex] == EventsIn(events, startIndex, i);
        accumulator.Apply(events[i].event);
        i := i + 1;
        rolledForward := rolledForward + 1;
      }
      state := accumulator.state;
    }

    /**
     * `seekTo`, up to the restored state; refused when no recording is loaded.
     * In a file the recorder wrote it restores what folding every earlier event
     * would: exactly in raw mode, to the eye in live mode.
     */
    method SeekTo(timestamp: int) returns (r: Option<Restored>)
      requires Valid()
      modifies this`currentIndex
      ensures r.None? <==> events == []
      ensures r.None? ==> currentIndex == old(currentIndex)
      ensures r.Some? ==> currentIndex <= |events| && IsChosen(keyframes, currentIndex, r.value.keyframe)
      ensures r.Some? ==> StartIndex(keyframes, r.value.keyframe) + r.value.rolledForward == currentIndex
      ensures r.Some? ==> RestoresFold(lines, currentIndex, r.value.state)
      ensures r.Some? && InTimeOrder(events) ==>
                forall i :: 0 <= i < |events| ==> (i < currentIndex <==> events[i].timestamp < events[0].timestamp + timestamp)
    {
      if events == [] {
        return None;
      }
      KeyframesAscend(lines);
      var targetTs := events[0].timestamp + timestamp;
      currentIndex := FirstAtOrAfter(targetTs);
      var state, k, rolledForward := RestoreStateAt(currentIndex);
      assert RestoresFold(lines, currentIndex, state) by {
        TimedAndPlain(lines);
        forall raw: bool | Faithful(lines, raw)
          ensures SameAsFold(raw, state, Fold(EventsOf(lines)[..currentIndex]))
        {
          SeekRestoresFold(lines, raw, currentIndex, k);
        }
      }
      return Some(Restored(state, k, rolledForward));
    }
  }

  // ---- What a seek costs ----

  /** When a keyframe is next due, as far as the first `j` events and the keyframes among them tell. */
  function DueAfter(kfs: seq<LoadedKeyframe>, interval: int, j: nat): int {
    if kfs == [] then interval
    else if kfs[|kfs| - 1].eventIndex <= j then kfs[|kfs| - 1].timestamp + interval
    else DueAfter(kfs[..|kfs| - 1], interval, j)
  }

  lemma {:induction false} DueIsNext(lines: seq<Line>, interval: int)
    ensures NextDue(lines, interval) == DueAfter(Keyframes(lines), interval, |TimedEvents(lines)|)
  {
    KeyframesAscend(lines);
    if lines != [] && lines[|lines| - 1].EventLine? {
      var rest := lines[..|lines| - 1];
      DueIsNext(rest, interval);
      KeyframesAscend(rest);
      assert Keyframes(lines) == Keyframes(rest);
    } else if lines != [] {
      assert Keyframes(lines)[|Keyframes(lines)| - 1].timestamp == lines[|lines| - 1].timestamp;
    }
  }

  /** Keyframes yet to come do not change when one was due. */
  lemma DueIgnoresLater(kfs: seq<LoadedKeyframe>, later: LoadedKeyframe, interval: int, j: nat)
    requires later.eventIndex > j
    ensures DueAfter(kfs + [later], interval, j) == DueAfter(kfs, interval, j)
  {
    assert (kfs + [later])[..|kfs|] == kfs;
  }

  /** Event `j` came before a keyframe was due, or a keyframe follows it directly. */
  ghost predicate InTime(lines: seq<Line>, interval: int, j: nat)
    requires j < |TimedEvents(lines)|
  {
    || TimedEvents(lines)[j].timestamp < DueAfter(Keyframes(lines), interval, j)
    || exists i :: 0 <= i < |Keyframes(lines)| && Keyframes(lines)[i].eventIndex == j + 1
  }

  lemma {:induction false} EventsAreInTime(lines: seq<Line>, interval: int, n: nat, j: nat)
    requires interval > 0 && n <= |lines|
    requires forall i :: 0 <= i < |lines| && Overdue(lines[..i], interval) ==> lines[i].KeyframeLine?
    requires j < |TimedEvents(lines[..n])|
    ensures InTime(lines[..n], interval, j) || (Overdue(lines[..n], interval) && j + 1 == |TimedEvents(lines[..n])|)
  {
    var now, rest := lines[..n], lines[..n - 1];
    assert now[..n - 1] == rest;
    KeyframesAscend(rest);
    if now[n - 1].EventLine? {
      assert Keyframes(now) == Keyframes(rest);
      if j < |TimedEvents(rest)| {
        EventsAreInTime(lines, interval, n - 1, j);
      } else {
        DueIsNext(rest, interval);
      }
    } else {
      EventsAreInTime(lines, interval, n - 1, j);
      var later := Keyframes(now)[|Keyframes(now)| - 1];
      assert Keyframes(now) == Keyframes(rest) + [later] && later.eventIndex == |TimedEvents(rest)|;
      DueIgnoresLater(Keyframes(rest), later, interval, j);
      if i :| 0 <= i < |Keyframes(rest)| && Keyframes(rest)[i].eventIndex == j + 1 {
        assert Keyframes(now)[i].eventIndex == j + 1;
      }
      assert Keyframes(now)[|Keyframes(rest)|].eventIndex == |TimedEvents(rest)|;
    }
  }

  /** Between the chosen keyframe and the target no other keyframe is in force. */
  lemma {:induction false} ChosenIsInForce(kfs: seq<LoadedKeyframe>, interval: int, target: nat, k: int, j: nat)
    requires IsChosen(kfs, target, k) && StartIndex(kfs, k) <= j < target
    ensures DueAfter(kfs, interval, j) == if k < 0 then interval else kfs[k].timestamp + interval
  {
    if kfs != [] && k < |kfs| - 1 {
      ChosenIsInForce(kfs[..|kfs| - 1], interval, target, k, j);
    }
  }

  /**
   * With keyframes on, every event a seek rolls forward lies less than one
   * interval after the chosen keyframe, or after the start when there is none:
   * the cost does not grow with the recording.
   */
  lemma SeekCostIsBounded(lines: seq<Line>, interval: int, target: nat, k: int, j: nat)
    requires interval > 0 && Paced(lines, interval)
    requires target <= |TimedEvents(lines)| && IsChosen(Keyframes(lines), target, k)
    requires StartIndex(Keyframes(lines), k) <= j < target
    ensures TimedEvents(lines)[j].timestamp < (if k < 0 then 0 else Keyframes(lines)[k].timestamp) + interval
  {
    assert lines[..|lines|] == lines;
    EventsAreInTime(lines, interval, |lines|, j);
    ChosenIsInForce(Keyframes(lines), interval, target, k, j);
    KeyframesAscend(lines);
    if i :| 0 <= i < |Keyframes(lines)| && Keyframes(lines)[i].eventIndex == j + 1 {
      assert i > k ==> Keyframes(lines)[i].eventIndex > target;
      assert i <= k ==> Keyframes(lines)[i].eventIndex <= Keyframes(lines)[k].eventIndex;
    }
  }
}
