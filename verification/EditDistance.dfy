/**
 * The typo hint of configuration validation (validation.ts:91-120): a two-row
 * Levenshtein distance, and the closest candidate by it.
 *
 * The distance means what it should: `Distance` is proved to be the length of a
 * shortest chain of single-character insertions, deletions and substitutions.
 */
module EditDistances {
  import opened Common

  function Min3(x: nat, y: nat, z: nat): nat { Lesser(x, Lesser(y, z)) }

  /** All but the last character. */
  function Init(s: string): string
    requires s != []
  {
    s[..|s| - 1]
  }

  function Last(s: string): char
    requires s != []
  {
    s[|s| - 1]
  }

  function Cost(x: char, y: char): nat { if x == y then 0 else 1 }

  /** The recurrence, on the last characters. */
  function Distance(a: string, b: string): nat
    decreases |a| + |b|
  {
    if a == [] then |b|
    else if b == [] then |a|
    else Min3(Distance(a, Init(b)) + 1, Distance(Init(a), b) + 1, Distance(Init(a), Init(b)) + Cost(Last(a), Last(b)))
  }

  // ---- The two rows ----

  /** Column `j` of row `i` of the table: the distance between two prefixes. */
  function Cell(a: string, b: string, i: nat, j: nat): nat
    requires i <= |a| && j <= |b|
  {
    Distance(a[..i], b[..j])
  }

  ghost predicate IsRow(row: seq<nat>, a: string, b: string, i: nat)
    requires i <= |a|
  {
    |row| == |b| + 1 && forall j :: 0 <= j <= |b| ==> row[j] == Cell(a, b, i, j)
  }

  lemma {:induction false} DistanceByLast(x: string, y: string)
    requires x != [] && y != []
    ensures Distance(x, y) ==
            Min3(Distance(x, Init(y)) + 1, Distance(Init(x), y) + 1, Distance(Init(x), Init(y)) + Cost(Last(x), Last(y)))
  {
  }

  lemma {:induction false} CellFromNeighbours(a: string, b: string, i: nat, j: nat)
    requires 0 < i <= |a| && 0 < j <= |b|
    ensures Cell(a, b, i, j) ==
            Min3(Cell(a, b, i, j - 1) + 1, Cell(a, b, i - 1, j) + 1, Cell(a, b, i - 1, j - 1) + Cost(a[i - 1], b[j - 1]))
  {
    hide Distance;
    assert Init(a[..i]) == a[..i - 1] && Init(b[..j]) == b[..j - 1];
    DistanceByLast(a[..i], b[..j]);
  }

  lemma {:induction false} EdgeCells(a: string, b: string)
    ensures forall i :: 0 <= i <= |a| ==> Cell(a, b, i, 0) == i
    ensures forall j :: 0 <= j <= |b| ==> Cell(a, b, 0, j) == j
    ensures Cell(a, b, |a|, |b|) == Distance(a, b)
  {
    assert a[..|a|] == a && b[..|b|] == b;
  }

  /** One row from the row above it. */
  method NextRow(prev: array<nat>, curr: array<nat>, a: string, b: string, i: nat)
    requires prev != curr && 0 < i <= |a| && curr.Length == |b| + 1
    requires IsRow(prev[..], a, b, i - 1)
    modifies curr
    ensures IsRow(curr[..], a, b, i)
  {
    hide Cell, Min3;
    EdgeCells(a, b);
    curr[0] := i;
    var j := 1;
    while j <= |b|
      invariant 1 <= j <= |b| + 1
      invariant IsRow(prev[..], a, b, i - 1)
      invariant forall k :: 0 <= k < j ==> curr[k] == Cell(a, b, i, k)
    {
      CellFromNeighbours(a, b, i, j);
      assert prev[j] == prev[..][j] && prev[j - 1] == prev[..][j - 1];
      curr[j] := Min3(curr[j - 1] + 1, prev[j] + 1, prev[j - 1] + Cost(a[i - 1], b[j - 1]));
      j := j + 1;
    }
  }

  /** The row just filled becomes the row above. */
  method CopyRow(from: array<nat>, to: array<nat>)
    requires from != to && from.Length == to.Length
    modifies to
    ensures to[..] == from[..]
  {
    var j := 0;
    while j < from.Length
      invariant 0 <= j <= from.Length
      invariant forall k :: 0 <= k < j ==> to[k] == from[k]
    {
      to[j] := from[j];
      j := j + 1;
    }
  }

  /** `editDistance`. */
  method EditDistance(a: string, b: string) returns (d: nat)
    ensures d == Distance(a, b)
  {
    var prev, curr := new nat[|b| + 1](i => i), new nat[|b| + 1](_ => 0);
    hide Cell;
    EdgeCells(a, b);
    var i := 1;
    while i <= |a|
      invariant 1 <= i <= |a| + 1
      invariant IsRow(prev[..], a, b, i - 1)
    {
      NextRow(prev, curr, a, b, i);
      CopyRow(curr, prev);
      i := i + 1;
    }
    assert prev[..][|b|] == Cell(a, b, |a|, |b|);
    d := prev[|b|];
  }

  // ---- A metric ----

  lemma {:induction false} DistanceBelowOneMore(a: string, b: string)
    ensures a != [] ==> Distance(a, b) <= Distance(Init(a), b) + 1
    ensures b != [] ==> Distance(a, b) <= Distance(a, Init(b)) + 1
  {
    if a != [] && b == [] {
      assert Distance(Init(a), b) == |a| - 1;
    }
  }

  lemma {:induction false} DistanceIsSymmetric(a: string, b: string)
    ensures Distance(a, b) == Distance(b, a)
    decreases |a| + |b|
  {
    if a != [] && b != [] {
      DistanceIsSymmetric(a, Init(b));
      DistanceIsSymmetric(Init(a), b);
      DistanceIsSymmetric(Init(a), Init(b));
    }
  }

  lemma {:induction false} ZeroIffEqual(a: string, b: string)
    ensures Distance(a, b) == 0 <==> a == b
    decreases |a| + |b|
  {
    if a != [] && b != [] {
      ZeroIffEqual(Init(a), Init(b));
      assert a == Init(a) + [Last(a)] && b == Init(b) + [Last(b)];
    }
  }

  /** Going through a third string is never shorter. */
  lemma {:induction false} TriangleInequality(a: string, b: string, c: string)
    ensures Distance(a, c) <= Distance(a, b) + Distance(b, c)
    decreases |a| + |b| + |c|
  {
    DistanceBelowOneMore(a, c);
    if a != [] && (b == [] || Distance(a, b) == Distance(Init(a), b) + 1) {
      // the last character of a is deleted on the way to b
      TriangleInequality(Init(a), b, c);
      assert b == [] ==> Distance(a, b) == Distance(Init(a), b) + 1;
    } else if c != [] && (b == [] || Distance(b, c) == Distance(b, Init(c)) + 1) {
      // the last character of c is inserted after b
      TriangleInequality(a, b, Init(c));
      assert b == [] ==> Distance(b, c) == Distance(b, Init(c)) + 1;
    } else if b != [] {
      MiddleLast(a, b, c);
    }
  }

  /** The last character of the middle string is inserted or kept on the way in, and deleted or kept on the way out. */
  lemma {:induction false} MiddleLast(a: string, b: string, c: string)
    requires b != []
    requires a != [] ==> Distance(a, b) != Distance(Init(a), b) + 1
    requires c != [] ==> Distance(b, c) != Distance(b, Init(c)) + 1
    ensures Distance(a, c) <= Distance(a, b) + Distance(b, c)
    decreases |a| + |b| + |c|, 0
  {
    DistanceBelowOneMore(a, c);
    var inserted := a == [] || Distance(a, b) == Distance(a, Init(b)) + 1;
    var deleted := c == [] || Distance(b, c) == Distance(Init(b), c) + 1;
    if inserted && deleted {
      TriangleInequality(a, Init(b), c);
      assert a == [] ==> Distance(a, b) == Distance(a, Init(b)) + 1;
      assert c == [] ==> Distance(b, c) == Distance(Init(b), c) + 1;
    } else if inserted {
      TriangleInequality(a, Init(b), Init(c));
      assert a == [] ==> Distance(a, b) == Distance(a, Init(b)) + 1;
    } else if deleted {
      TriangleInequality(Init(a), Init(b), c);
      assert c == [] ==> Distance(b, c) == Distance(Init(b), c) + 1;
    } else {
      TriangleInequality(Init(a), Init(b), Init(c));
    }
  }

  // ---- Edit scripts ----

  /** One insertion, deletion or substitution, anywhere. */
  datatype Edit = Insert(at: nat, c: char) | Delete(at: nat) | Substitute(at: nat, c: char)

  predicate Applies(e: Edit, s: string) {
    if e.Insert? then e.at <= |s| else e.at < |s|
  }

  function Edited(s: string, e: Edit): string
    requires Applies(e, s)
  {
    match e
    case Insert(at, c) => s[..at] + [c] + s[at..]
    case Delete(at) => s[..at] + s[at + 1..]
    case Substitute(at, c) => s[..at] + [c] + s[at + 1..]
  }

  /** The script turns `a` into `b`. */
  predicate Turns(script: seq<Edit>, a: string, b: string) {
    if script == [] then a == b
    else Applies(script[0], a) && Turns(script[1..], Edited(a, script[0]), b)
  }

  lemma {:induction false} SameTail(a: string, b: string, tail: string)
    ensures Distance(a + tail, b + tail) <= Distance(a, b)
    decreases |tail|
  {
    if tail == [] {
      assert a + tail == a && b + tail == b;
    } else {
      SameTail(a, b, Init(tail));
      assert Init(a + tail) == a + Init(tail) && Init(b + tail) == b + Init(tail);
      assert Last(a + tail) == Last(b + tail);
    }
  }

  lemma {:induction false} LastCostsOne(head: string, c: char, d: char)
    ensures Distance(head, head + [c]) <= 1 && Distance(head + [c], head) <= 1
    ensures Distance(head + [c], head + [d]) <= 1
  {
    hide Distance;
    ZeroIffEqual(head, head);
    assert Init(head + [c]) == head && Init(head + [d]) == head;
    DistanceBelowOneMore(head, head + [c]);
    DistanceBelowOneMore(head + [c], head);
    DistanceByLast(head + [c], head + [d]);
  }

  /** One edit costs at most one. */
  lemma OneEdit(s: string, e: Edit)
    requires Applies(e, s)
    ensures Distance(s, Edited(s, e)) <= 1
  {
    hide Distance;
    var at := e.at;
    var head := s[..at];
    match e {
      case Insert(_, c) =>
        LastCostsOne(head, c, c);
        SameTail(head, head + [c], s[at..]);
        assert s == head + s[at..];
      case Delete(_) =>
        LastCostsOne(head, s[at], s[at]);
        SameTail(head + [s[at]], head, s[at + 1..]);
        assert s == head + [s[at]] + s[at + 1..];
      case Substitute(_, c) =>
        LastCostsOne(head, s[at], c);
        SameTail(head + [s[at]], head + [c], s[at + 1..]);
        assert s == head + [s[at]] + s[at + 1..];
    }
  }

  /** No script is shorter than the distance. */
  lemma {:induction false} NoShorterScript(script: seq<Edit>, a: string, b: string)
    requires Turns(script, a, b)
    ensures Distance(a, b) <= |script|
  {
    if script == [] {
      ZeroIffEqual(a, b);
    } else {
      var next := Edited(a, script[0]);
      NoShorterScript(script[1..], next, b);
      OneEdit(a, script[0]);
      TriangleInequality(a, next, b);
    }
  }

  lemma EditBeforeLast(a: string, e: Edit, c: char)
    requires Applies(e, a)
    ensures Applies(e, a + [c]) && Edited(a + [c], e) == Edited(a, e) + [c]
  {
  }

  /** A script works as well in front of a common last character. */
  lemma {:induction false} TurnsBeforeLast(script: seq<Edit>, a: string, b: string, c: char)
    requires Turns(script, a, b)
    ensures Turns(script, a + [c], b + [c])
  {
    if script != [] {
      hide Edited, Applies;
      TurnsBeforeLast(script[1..], Edited(a, script[0]), b, c);
      EditBeforeLast(a, script[0], c);
    }
  }

  lemma {:induction false} TurnsThen(script: seq<Edit>, a: string, b: string, e: Edit)
    requires Turns(script, a, b) && Applies(e, b)
    ensures Turns(script + [e], a, Edited(b, e))
  {
    if script == [] {
      assert ([] + [e])[1..] == [];
      assert Turns([], Edited(b, e), Edited(b, e));
    } else {
      TurnsThen(script[1..], Edited(a, script[0]), b, e);
      assert (script + [e])[1..] == script[1..] + [e];
    }
  }

  lemma Split(s: string)
    requires s != []
    ensures s == Init(s) + [Last(s)]
  {
  }

  /** A script of exactly the distance exists. */
  lemma {:induction false} ShortestScript(a: string, b: string) returns (script: seq<Edit>)
    ensures Turns(script, a, b) && |script| == Distance(a, b)
    decreases |a| + |b|
  {
    if a == [] && b == [] {
      script := [];
    } else if b != [] && (a == [] || Distance(a, b) == Distance(a, Init(b)) + 1) {
      var s := ShortestScript(a, Init(b));
      var e := Insert(|b| - 1, Last(b));
      TurnsThen(s, a, Init(b), e);
      Split(b);
      assert Edited(Init(b), e) == b;
      script := s + [e];
    } else if a != [] && (b == [] || Distance(a, b) == Distance(Init(a), b) + 1) {
      var s := ShortestScript(Init(a), b);
      TurnsBeforeLast(s, Init(a), b, Last(a));
      Split(a);
      var e := Delete(|b|);
      TurnsThen(s, a, b + [Last(a)], e);
      assert Edited(b + [Last(a)], e) == b;
      script := s + [e];
    } else {
      script := ShortestByLast(a, b);
    }
  }

  lemma {:induction false} ShortestByLast(a: string, b: string) returns (script: seq<Edit>)
    requires a != [] && b != []
    requires Distance(a, b) == Distance(Init(a), Init(b)) + Cost(Last(a), Last(b))
    ensures Turns(script, a, b) && |script| == Distance(a, b)
    decreases |a| + |b|, 0
  {
    script := ShortestScript(Init(a), Init(b));
    TurnsBeforeLast(script, Init(a), Init(b), Last(a));
    Split(a);
    Split(b);
    if Last(a) != Last(b) {
      var e := Substitute(|b| - 1, Last(b));
      TurnsThen(script, a, Init(b) + [Last(a)], e);
      assert Edited(Init(b) + [Last(a)], e) == b;
      script := script + [e];
    }
  }

  /** The distance is the length of a shortest edit script. */
  lemma {:induction false} DistanceIsShortest(a: string, b: string)
    ensures exists script :: Turns(script, a, b) && |script| == Distance(a, b)
    ensures forall script :: Turns(script, a, b) ==> Distance(a, b) <= |script|
  {
    var script := ShortestScript(a, b);
    forall script | Turns(script, a, b)
      ensures Distance(a, b) <= |script|
    {
      NoShorterScript(script, a, b);
    }
  }

  // ---- The hint ----

  /** How far a typo may be from the hint. */
  function Threshold(value: string): nat {
    if |value| / 3 > 2 then |value| / 3 else 2
  }

  /** Close enough to hint at: two edits, or one for every three characters. */
  predicate WithinReach(distance: nat, length: nat) {
    distance <= 2 || 3 * distance <= length
  }

  /** Candidate `i` is the first of the closest. */
  ghost predicate IsClosest(value: string, candidates: seq<string>, lower: string -> string, i: nat)
    requires i < |candidates|
  {
    && (forall j :: 0 <= j < |candidates| ==>
          Distance(lower(value), lower(candidates[i])) <= Distance(lower(value), lower(candidates[j])))
    && forall j :: 0 <= j < i ==>
         Distance(lower(value), lower(candidates[i])) < Distance(lower(value), lower(candidates[j]))
  }

  ghost predicate IsHint(value: string, candidates: seq<string>, lower: string -> string, i: nat, hint: string)
    requires i < |candidates|
  {
    && hint == candidates[i] && IsClosest(value, candidates, lower, i)
    && Distance(lower(value), lower(candidates[i])) <= Threshold(value)
  }

  /** `suggest`, for any lower-casing. */
  method Suggest(value: string, candidates: seq<string>, lower: string -> string) returns (hint: Option<string>)
    ensures hint.Some? ==> exists i :: 0 <= i < |candidates| && IsHint(value, candidates, lower, i, hint.value)
    ensures hint.None? <==> forall i :: 0 <= i < |candidates| ==> Distance(lower(value), lower(candidates[i])) > Threshold(value)
    ensures hint.Some? <==>
              exists i :: 0 <= i < |candidates| && WithinReach(Distance(lower(value), lower(candidates[i])), |value|)
  {
    hide Distance;
    var best: Option<nat> := None;
    var bestScore := 0;
    var k := 0;
    while k < |candidates|
      invariant 0 <= k <= |candidates|
      invariant best.None? ==> k == 0
      invariant best.Some? ==> best.value < k && bestScore == Distance(lower(value), lower(candidates[best.value]))
      invariant best.Some? ==> forall j :: 0 <= j < k ==> bestScore <= Distance(lower(value), lower(candidates[j]))
      invariant best.Some? ==> forall j :: 0 <= j < best.value ==> bestScore < Distance(lower(value), lower(candidates[j]))
    {
      var score := EditDistance(lower(value), lower(candidates[k]));
      if best.None? || score < bestScore {
        bestScore := score;
        best := Some(k);
      }
      k := k + 1;
    }
    if best.Some? && bestScore <= Threshold(value) {
      assert IsHint(value, candidates, lower, best.value, candidates[best.value]);
      assert WithinReach(Distance(lower(value), lower(candidates[best.value])), |value|);
      return Some(candidates[best.value]);
    }
    return None;
  }
}
