/**
 * Line framing between the recorder and its readers: `toLines`
 * (ReplayEmitter.ts:114-126) against the recorder's flushed chunks
 * (RecordingManager.ts:583-589).
 */
module Framing {

  function Concat(chunks: seq<string>): string {
    if chunks == [] then "" else Concat(chunks[..|chunks| - 1]) + chunks[|chunks| - 1]
  }

  /** `indexOf("\n")`, or the length when there is none. */
  function NextBreak(s: string): (n: nat)
    ensures n <= |s| && (n < |s| ==> s[n] == '\n')
    ensures forall i :: 0 <= i < n ==> s[i] != '\n'
  {
    if s == [] || s[0] == '\n' then 0 else 1 + NextBreak(s[1..])
  }

  /** The lines that a text completes: everything up to each break. */
  function CompleteLines(s: string): seq<string>
    decreases |s|
  {
    var n := NextBreak(s);
    if n == |s| then [] else [s[..n]] + CompleteLines(s[n + 1..])
  }

  /** What follows the last break. */
  function Rest(s: string): string
    decreases |s|
  {
    var n := NextBreak(s);
    if n == |s| then s else Rest(s[n + 1..])
  }

  /** The lines of a whole text; an unfinished last line counts unless it is empty. */
  function Lines(s: string): seq<string> {
    CompleteLines(s) + if Rest(s) == [] then [] else [Rest(s)]
  }

  lemma BreakOfConcat(s: string, t: string)
    ensures NextBreak(s) < |s| ==> NextBreak(s + t) == NextBreak(s)
  {
    if NextBreak(s) < |s| {
      var n, m := NextBreak(s), NextBreak(s + t);
      assert (s + t)[n] == '\n';
      assert forall i :: 0 <= i < n ==> (s + t)[i] == s[i];
    }
  }

  /** The first line comes off the same way whatever follows. */
  lemma FirstLine(s: string, t: string)
    requires NextBreak(s) < |s|
    ensures CompleteLines(s + t) == [s[..NextBreak(s)]] + CompleteLines(s[NextBreak(s) + 1..] + t)
    ensures Rest(s + t) == Rest(s[NextBreak(s) + 1..] + t)
  {
    var n := NextBreak(s);
    BreakOfConcat(s, t);
    hide NextBreak;
    assert (s + t)[..n] == s[..n];
    assert (s + t)[n + 1..] == s[n + 1..] + t;
  }

  /** Text that arrives later is split as if it followed what is left over so far. */
  lemma {:induction false} LinesOfConcat(s: string, t: string)
    ensures CompleteLines(s + t) == CompleteLines(s) + CompleteLines(Rest(s) + t)
    ensures Rest(s + t) == Rest(Rest(s) + t)
    decreases |s|
  {
    if NextBreak(s) < |s| {
      hide CompleteLines, Rest, NextBreak;
      var line, tail := s[..NextBreak(s)], s[NextBreak(s) + 1..];
      LinesOfConcat(tail, t);
      FirstLine(s, t);
      FirstLine(s, "");
      assert s + "" == s && tail + "" == tail;
      LinesAssociate([line], CompleteLines(tail), CompleteLines(Rest(s) + t));
    } else {
      assert [] + CompleteLines(s + t) == CompleteLines(s + t);
    }
  }

  lemma LinesAssociate(a: seq<string>, b: seq<string>, c: seq<string>)
    ensures a + (b + c) == (a + b) + c
  {
  }

  lemma {:induction false} RestHasNoBreak(s: string)
    ensures NextBreak(Rest(s)) == |Rest(s)| && CompleteLines(Rest(s)) == [] && Rest(Rest(s)) == Rest(s)
    decreases |s|
  {
    if NextBreak(s) < |s| {
      RestHasNoBreak(s[NextBreak(s) + 1..]);
    }
  }

  /** Each line with its break. */
  ghost function Ended(lines: seq<string>): string {
    if lines == [] then "" else lines[0] + "\n" + Ended(lines[1..])
  }

  lemma {:induction false} EndedMore(lines: seq<string>, line: string)
    ensures Ended(lines + [line]) == Ended(lines) + (line + "\n")
  {
    if lines == [] {
      assert [] + [line] == [line];
    } else {
      EndedMore(lines[1..], line);
      assert (lines + [line])[1..] == lines[1..] + [line];
    }
  }

  lemma EndedHead(line: string, lines: seq<string>)
    ensures Ended([line] + lines) == line + ("\n" + Ended(lines))
  {
    assert ([line] + lines)[1..] == lines;
  }

  lemma SplitAt(s: string, n: nat)
    requires n < |s|
    ensures s == s[..n] + ([s[n]] + s[n + 1..])
  {
  }

  lemma BreakSplits(s: string)
    requires NextBreak(s) < |s|
    ensures s == s[..NextBreak(s)] + ("\n" + s[NextBreak(s) + 1..])
  {
    SplitAt(s, NextBreak(s));
    assert "\n" == ['\n'];
  }

  lemma BreakStep(s: string)
    requires NextBreak(s) < |s|
    ensures CompleteLines(s) == [s[..NextBreak(s)]] + CompleteLines(s[NextBreak(s) + 1..])
    ensures Rest(s) == Rest(s[NextBreak(s) + 1..])
  {
    hide NextBreak;
  }

  lemma TextAssociates(a: string, b: string, c: string, d: string)
    ensures (a + (b + c)) + d == a + (b + (c + d))
  {
  }

  lemma NoBreak(s: string)
    requires NextBreak(s) == |s|
    ensures CompleteLines(s) == [] && Rest(s) == s && OneLine(s) && Ended([]) == ""
  {
  }

  lemma {:induction false} CompleteAreTheText(s: string)
    ensures s == Ended(CompleteLines(s)) + Rest(s)
    ensures forall i :: 0 <= i < |CompleteLines(s)| ==> OneLine(CompleteLines(s)[i])
    decreases |s|
  {
    hide CompleteLines, Rest, Ended, NextBreak;
    var n := NextBreak(s);
    if n < |s| {
      var line, tail := s[..n], s[n + 1..];
      CompleteAreTheText(tail);
      BreakSplits(s);
      BreakStep(s);
      EndedHead(line, CompleteLines(tail));
      TextAssociates(line, "\n", Ended(CompleteLines(tail)), Rest(tail));
    } else {
      NoBreak(s);
      assert "" + s == s;
    }
  }

  lemma {:induction false} RestIsLast(s: string)
    ensures Rest(s) == "" <==> s == "" || s[|s| - 1] == '\n'
    ensures OneLine(Rest(s))
    decreases |s|
  {
    var n := NextBreak(s);
    if n < |s| {
      RestIsLast(s[n + 1..]);
    }
  }

  /** The lines are the text, with a break at its end if it had none; and no line has one inside. */
  lemma {:induction false} LinesAreTheText(s: string)
    ensures Ended(Lines(s)) == if s == "" || s[|s| - 1] == '\n' then s else s + "\n"
    ensures forall i :: 0 <= i < |Lines(s)| ==> OneLine(Lines(s)[i])
  {
    CompleteAreTheText(s);
    RestIsLast(s);
    hide CompleteLines, Rest, Ended;
    if Rest(s) != "" {
      EndedMore(CompleteLines(s), Rest(s));
      assert Ended(CompleteLines(s)) + (Rest(s) + "\n") == (Ended(CompleteLines(s)) + Rest(s)) + "\n";
    } else {
      assert CompleteLines(s) + [] == CompleteLines(s) && Ended(CompleteLines(s)) + "" == Ended(CompleteLines(s));
    }
  }

  /** The inner loop: complete lines leave the buffer. */
  method DrainLines(buf0: string) returns (lines: seq<string>, buf: string)
    ensures lines == CompleteLines(buf0) && buf == Rest(buf0)
  {
    buf, lines := buf0, [];
    var nl := NextBreak(buf);
    while nl < |buf|
      invariant nl == NextBreak(buf)
      invariant lines + CompleteLines(buf) == CompleteLines(buf0) && Rest(buf) == Rest(buf0)
      decreases |buf|
    {
      hide CompleteLines, Rest, NextBreak;
      FirstLine(buf, "");
      assert buf + "" == buf && buf[nl + 1..] + "" == buf[nl + 1..];
      LinesAssociate(lines, [buf[..nl]], CompleteLines(buf[nl + 1..]));
      lines := lines + [buf[..nl]];
      buf := buf[nl + 1..];
      nl := NextBreak(buf);
    }
  }

  /** `toLines`: the lines depend on the text alone, not on where the chunks end. */
  method ToLines(chunks: seq<string>) returns (lines: seq<string>)
    ensures lines == Lines(Concat(chunks))
  {
    var buf := "";
    lines := [];
    var i := 0;
    while i < |chunks|
      invariant 0 <= i <= |chunks|
      invariant lines == CompleteLines(Concat(chunks[..i])) && buf == Rest(Concat(chunks[..i]))
    {
      assert chunks[..i + 1][..i] == chunks[..i];
      LinesOfConcat(Concat(chunks[..i]), chunks[i]);
      buf := buf + chunks[i];
      var more;
      more, buf := DrainLines(buf);
      lines := lines + more;
      i := i + 1;
    }
    assert chunks[..i] == chunks;
    if |buf| > 0 {
      lines := lines + [buf];
    }
  }

  // ---- The recorder's side ----

  predicate OneLine(s: string) {
    forall i :: 0 <= i < |s| ==> s[i] != '\n'
  }

  /** `lines.join("\n") + "\n"`. */
  function Joined(lines: seq<string>): string
    requires lines != []
  {
    if |lines| == 1 then lines[0] + "\n" else lines[0] + "\n" + Joined(lines[1..])
  }

  /** What the flushes write: an empty buffer writes nothing. */
  function Flushed(buffers: seq<seq<string>>): string {
    if buffers == [] then ""
    else Flushed(buffers[..|buffers| - 1]) + if buffers[|buffers| - 1] == [] then "" else Joined(buffers[|buffers| - 1])
  }

  function Flatten(buffers: seq<seq<string>>): seq<string> {
    if buffers == [] then [] else Flatten(buffers[..|buffers| - 1]) + buffers[|buffers| - 1]
  }

  lemma OneLineThen(line: string, t: string)
    requires OneLine(line)
    ensures CompleteLines(line + "\n" + t) == [line] + CompleteLines(t) && Rest(line + "\n" + t) == Rest(t)
  {
    var s := line + "\n" + t;
    assert s[|line|] == '\n';
    var n := NextBreak(s);
    assert forall i :: 0 <= i < |line| ==> s[i] == line[i];
    assert s[..n] == line && s[n + 1..] == t;
  }

  lemma {:induction false} JoinedLines(lines: seq<string>)
    requires lines != [] && forall i :: 0 <= i < |lines| ==> OneLine(lines[i])
    ensures CompleteLines(Joined(lines)) == lines && Rest(Joined(lines)) == ""
  {
    if |lines| == 1 {
      OneLineThen(lines[0], "");
      assert lines[0] + "\n" + "" == lines[0] + "\n";
      assert CompleteLines("") == [];
    } else {
      JoinedLines(lines[1..]);
      OneLineThen(lines[0], Joined(lines[1..]));
    }
  }

  lemma {:induction false} FlushedLines(buffers: seq<seq<string>>)
    requires forall b, i :: 0 <= b < |buffers| && 0 <= i < |buffers[b]| ==> OneLine(buffers[b][i])
    ensures CompleteLines(Flushed(buffers)) == Flatten(buffers) && Rest(Flushed(buffers)) == ""
  {
    if buffers != [] {
      var front, last := buffers[..|buffers| - 1], buffers[|buffers| - 1];
      FlushedLines(front);
      if last != [] {
        JoinedLines(last);
        LinesOfConcat(Flushed(front), Joined(last));
        assert "" + Joined(last) == Joined(last);
      } else {
        assert Flushed(front) + "" == Flushed(front);
      }
    }
  }

  /**
   * Round trip: lines without breaks, written at any flush points and read in
   * any chunks, come back as they were, in order.  Empty lines come back too.
   */
  lemma FramingRoundTrip(buffers: seq<seq<string>>, chunks: seq<string>)
    requires forall b, i :: 0 <= b < |buffers| && 0 <= i < |buffers[b]| ==> OneLine(buffers[b][i])
    requires Concat(chunks) == Flushed(buffers)
    ensures Lines(Concat(chunks)) == Flatten(buffers)
  {
    FlushedLines(buffers);
  }
}
