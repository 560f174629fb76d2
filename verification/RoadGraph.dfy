/**
 * From a feature list to its graph: the adjacency map both network commands
 * build, line by line (prune.ts:19-37, validate.ts:19-41).
 */
module RoadGraph {
  import opened Components

  /** A position is its key; `props` is everything about a feature the commands never look at. */
  datatype Feature =
    | LineString(coords: seq<Key>, props: string)
    | Other(props: string)

  function Coords(f: Feature): seq<Key> {
    if f.LineString? then f.coords else []
  }

  // ---- Nodes, in the insertion order of the adjacency map ----

  /** `keys` with the new ones of `more` appended in order. */
  function Extend(keys: seq<Key>, more: seq<Key>): seq<Key> {
    if more == [] then keys
    else
      var before := Extend(keys, more[..|more| - 1]);
      if more[|more| - 1] in before then before else before + [more[|more| - 1]]
  }

  function Keys(fs: seq<Feature>): seq<Key> {
    if fs == [] then [] else Extend(Keys(fs[..|fs| - 1]), Coords(fs[|fs| - 1]))
  }

  lemma {:induction false} ExtendAdds(keys: seq<Key>, more: seq<Key>)
    ensures Elements(Extend(keys, more)) == Elements(keys) + Elements(more)
  {
    if more != [] {
      var front, last := more[..|more| - 1], more[|more| - 1];
      ExtendAdds(keys, front);
      assert more == front + [last];
      var before := Extend(keys, front);
      assert last in before <==> last in Elements(before);
      assert Elements(before + [last]) == Elements(before) + {last};
    }
  }

  ghost predicate OnSomeLine(fs: seq<Feature>, k: Key) {
    exists i :: 0 <= i < |fs| && k in Coords(fs[i])
  }

  /** A key is a node exactly when some line passes through it. */
  lemma {:induction false} KeysAreCoords(fs: seq<Feature>)
    ensures forall k :: k in Keys(fs) <==> OnSomeLine(fs, k)
  {
    if fs != [] {
      var n := |fs| - 1;
      var front := fs[..n];
      KeysAreCoords(front);
      ExtendAdds(Keys(front), Coords(fs[n]));
      forall k
        ensures k in Keys(fs) <==> OnSomeLine(fs, k)
      {
        assert k in Keys(fs) <==> k in Elements(Keys(fs));
        if OnSomeLine(front, k) {
          var i :| 0 <= i < |front| && k in Coords(front[i]);
          assert k in Coords(fs[i]);
        }
        if i :| 0 <= i < |fs| && k in Coords(fs[i]) {
          if i < n { assert k in Coords(front[i]); }
        }
      }
    }
  }

  // ---- Links ----

  /** The `i`-th step of a line joins `a` and `b`, in either direction. */
  predicate StepAt(cs: seq<Key>, i: nat, a: Key, b: Key) {
    i + 1 < |cs| && ((cs[i] == a && cs[i + 1] == b) || (cs[i] == b && cs[i + 1] == a))
  }

  ghost predicate Joins(cs: seq<Key>, a: Key, b: Key) {
    exists i: nat :: StepAt(cs, i, a, b)
  }

  /** Some line has the two keys next to each other. */
  ghost predicate Linked(fs: seq<Feature>, a: Key, b: Key) {
    exists i :: 0 <= i < |fs| && Joins(Coords(fs[i]), a, b)
  }

  ghost function GraphOf(fs: seq<Feature>): Graph {
    map k | k in Keys(fs) :: set b | b in Keys(fs) && Linked(fs, k, b)
  }

  lemma LinkedEnds(fs: seq<Feature>, a: Key, b: Key)
    requires Linked(fs, a, b)
    ensures a in Keys(fs) && b in Keys(fs) && Linked(fs, b, a)
  {
    var i :| 0 <= i < |fs| && Joins(Coords(fs[i]), a, b);
    var cs := Coords(fs[i]);
    var j: nat :| StepAt(cs, j, a, b);
    assert StepAt(cs, j, b, a);
    assert Joins(cs, b, a);
    KeysAreCoords(fs);
    assert OnSomeLine(fs, a) && OnSomeLine(fs, b);
  }

  lemma GraphLinks(fs: seq<Feature>, a: Key, b: Key)
    ensures Link(GraphOf(fs), a, b) <==> Linked(fs, a, b)
  {
    if Linked(fs, a, b) { LinkedEnds(fs, a, b); }
  }

  lemma GraphIsUndirected(fs: seq<Feature>)
    ensures Undirected(GraphOf(fs)) && GraphOf(fs).Keys == Elements(Keys(fs))
  {
    var g := GraphOf(fs);
    forall a, b | a in g && b in g[a]
      ensures b in g && a in g[b]
    {
      LinkedEnds(fs, a, b);
    }
  }

  lemma LinkedByOneMore(front: seq<Feature>, f: Feature, a: Key, b: Key)
    ensures Linked(front + [f], a, b) <==> Linked(front, a, b) || Joins(Coords(f), a, b)
  {
    var fs := front + [f];
    if Linked(front, a, b) {
      var i :| 0 <= i < |front| && Joins(Coords(front[i]), a, b);
      assert Joins(Coords(fs[i]), a, b);
    }
    if Joins(Coords(f), a, b) {
      assert Joins(Coords(fs[|front|]), a, b);
    }
  }

  // ---- Building it ----

  /** `addNode` over a feature's coordinates. */
  method AddNodes(order0: seq<Key>, g0: Graph, cs: seq<Key>) returns (order: seq<Key>, g: Graph)
    requires g0.Keys == Elements(order0)
    ensures order == Extend(order0, cs)
    ensures g.Keys == Elements(order)
    ensures forall k :: k in g ==> g[k] == if k in g0 then g0[k] else {}
  {
    order, g := order0, g0;
    var i := 0;
    while i < |cs|
      invariant 0 <= i <= |cs|
      invariant order == Extend(order0, cs[..i])
      invariant g.Keys == Elements(order)
      invariant forall k :: k in g ==> g[k] == if k in g0 then g0[k] else {}
      invariant g0.Keys <= g.Keys
    {
      assert cs[..i + 1][..i] == cs[..i];
      var key := cs[i];
      if key !in g {
        assert Elements(order + [key]) == Elements(order) + {key};
        order, g := order + [key], g[key := {}];
      }
      i := i + 1;
    }
    assert cs[..i] == cs;
  }

  ghost predicate JoinsBefore(cs: seq<Key>, n: nat, a: Key, b: Key) {
    exists i: nat :: i < n && StepAt(cs, i, a, b)
  }

  /** `addEdge` over a feature's consecutive coordinates. */
  method AddEdges(g0: Graph, cs: seq<Key>) returns (g: Graph)
    requires Elements(cs) <= g0.Keys
    ensures g.Keys == g0.Keys
    ensures forall a, b :: a in g ==> (b in g[a] <==> b in g0[a] || Joins(cs, a, b))
  {
    g := g0;
    var i := 0;
    while i + 1 < |cs|
      invariant 0 <= i
      invariant g.Keys == g0.Keys
      invariant forall a, b :: a in g ==> (b in g[a] <==> b in g0[a] || JoinsBefore(cs, i, a, b))
    {
      var a, b := cs[i], cs[i + 1];
      assert a in Elements(cs) && b in Elements(cs);
      ghost var was := g;
      g := g[a := g[a] + {b}];
      g := g[b := g[b] + {a}];
      forall x, y | x in g
        ensures y in g[x] <==> y in g0[x] || JoinsBefore(cs, i + 1, x, y)
      {
        assert y in g[x] <==> y in was[x] || StepAt(cs, i, x, y);
      }
      i := i + 1;
    }
    forall x, y | x in g
      ensures JoinsBefore(cs, i, x, y) == Joins(cs, x, y)
    {
    }
  }

  /** One feature of the build loop; anything but a line is skipped. */
  method AddFeature(ghost front: seq<Feature>, f: Feature, order0: seq<Key>, g0: Graph) returns (order: seq<Key>, g: Graph)
    requires order0 == Keys(front) && g0 == GraphOf(front)
    ensures order == Keys(front + [f]) && g == GraphOf(front + [f])
  {
    var cs := if f.LineString? then f.coords else [];
    assert (front + [f])[..|front|] == front;
    order, g := AddNodes(order0, g0, cs);
    ExtendAdds(order0, cs);
    ghost var nodes := g;
    g := AddEdges(g, cs);
    ghost var want := GraphOf(front + [f]);
    forall a, b | a in g
      ensures b in g[a] <==> b in want[a]
    {
      LinkedByOneMore(front, f, a, b);
      GraphLinks(front, a, b);
      GraphLinks(front + [f], a, b);
      assert b in nodes[a] <==> Link(g0, a, b);
      assert b in want[a] <==> Link(want, a, b);
    }
    assert forall a :: a in g ==> g[a] == want[a];
  }

  method BuildAdjacency(fs: seq<Feature>) returns (order: seq<Key>, g: Graph)
    ensures order == Keys(fs) && g == GraphOf(fs)
  {
    order, g := [], map[];
    var n := 0;
    while n < |fs|
      invariant 0 <= n <= |fs|
      invariant order == Keys(fs[..n]) && g == GraphOf(fs[..n])
    {
      order, g := AddFeature(fs[..n], fs[n], order, g);
      assert fs[..n + 1] == fs[..n] + [fs[n]];
      n := n + 1;
    }
    assert fs[..n] == fs;
  }

  // ---- Lines lie in one component ----

  lemma {:induction false} LineIsConnected(fs: seq<Feature>, i: nat, m: nat, n: nat)
    requires i < |fs| && m <= n < |Coords(fs[i])|
    ensures Reach(GraphOf(fs), Coords(fs[i])[m], Coords(fs[i])[n])
    decreases n
  {
    var cs := Coords(fs[i]);
    if m == n {
      ReachSelf(GraphOf(fs), cs[m]);
    } else {
      LineIsConnected(fs, i, m, n - 1);
      assert StepAt(cs, n - 1, cs[n - 1], cs[n]);
      assert Joins(cs, cs[n - 1], cs[n]);
      assert Linked(fs, cs[n - 1], cs[n]);
      GraphLinks(fs, cs[n - 1], cs[n]);
      ReachStep(GraphOf(fs), cs[m], cs[n - 1], cs[n]);
    }
  }

  /** A closed set that holds one point of a line holds all of it. */
  lemma LineStaysTogether(fs: seq<Feature>, i: nat, s: set<Key>, k: Key)
    requires i < |fs| && Closed(GraphOf(fs), s) && k in Coords(fs[i]) && k in s
    ensures Elements(Coords(fs[i])) <= s
  {
    var cs := Coords(fs[i]);
    var m :| 0 <= m < |cs| && cs[m] == k;
    GraphIsUndirected(fs);
    forall n | 0 <= n < |cs|
      ensures cs[n] in s
    {
      if m <= n {
        LineIsConnected(fs, i, m, n);
      } else {
        LineIsConnected(fs, i, n, m);
        ReachSymmetric(GraphOf(fs), cs[n], cs[m]);
      }
      ClosedUnderReach(GraphOf(fs), s, k, cs[n]);
    }
  }
}
