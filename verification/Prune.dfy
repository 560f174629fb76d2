/** `pruneNetwork` (prune.ts:14-106): keep the lines of the largest connected component. */
module Prune {
  import opened Components
  import opened RoadGraph

  /** The position of the largest entry, the first of them when several tie. */
  function FirstMax(s: seq<nat>): (m: nat)
    requires s != []
    ensures m < |s|
    ensures forall i :: 0 <= i < |s| ==> s[i] <= s[m]
    ensures forall i :: 0 <= i < m ==> s[i] < s[m]
  {
    if |s| == 1 then 0
    else
      var m := FirstMax(s[..|s| - 1]);
      if s[|s| - 1] > s[m] then |s| - 1 else m
  }

  /** The first component of maximal size, in key order; empty when there are no nodes. */
  ghost function Largest(fs: seq<Feature>): set<Key> {
    var g, roots := GraphOf(fs), Roots(GraphOf(fs), Keys(fs));
    if roots == [] then {} else Component(g, roots[FirstMax(Sizes(g, roots))])
  }

  /** Everything that is not a line, and the lines that lie wholly in `c`. */
  ghost function Keep(fs: seq<Feature>, c: set<Key>): seq<Feature> {
    if fs == [] then []
    else
      var front, f := Keep(fs[..|fs| - 1], c), fs[|fs| - 1];
      if Elements(Coords(f)) <= c then front + [f] else front
  }

  /** What pruning leaves. */
  ghost function Pruned(fs: seq<Feature>): seq<Feature> {
    Keep(fs, Largest(fs))
  }

  // ---- The command ----

  lemma {:induction false} SizesArePositive(g: Graph, roots: seq<Key>, i: nat)
    requires i < |roots| && roots[i] in g
    ensures Sizes(g, roots)[i] > 0
  {
    ReachSelf(g, roots[i]);
    assert roots[i] in Component(g, roots[i]);
  }

  /** The scan for the largest component; it starts from size 0. */
  method FindLargest(sizes: seq<nat>) returns (largestId: nat)
    requires forall i :: 0 <= i < |sizes| ==> sizes[i] > 0
    ensures sizes != [] ==> largestId == FirstMax(sizes)
    ensures sizes == [] ==> largestId == 0
  {
    largestId := 0;
    var largestSize := 0;
    var i := 0;
    while i < |sizes|
      invariant 0 <= i <= |sizes|
      invariant i == 0 ==> largestId == 0 && largestSize == 0
      invariant i > 0 ==> largestId == FirstMax(sizes[..i]) && largestSize == sizes[largestId]
    {
      assert i > 0 ==> sizes[..i + 1][..i] == sizes[..i];
      if sizes[i] > largestSize {
        largestSize := sizes[i];
        largestId := i;
      }
      i := i + 1;
    }
    assert sizes[..i] == sizes;
  }

  /** `coords.every(c => componentOf.get(key(c)) === largestId)`. */
  method AllLabelled(cs: seq<Key>, componentOf: map<Key, nat>, id: nat) returns (all: bool)
    ensures all <==> forall k :: k in cs ==> k in componentOf && componentOf[k] == id
  {
    var i := 0;
    while i < |cs|
      invariant 0 <= i <= |cs|
      invariant forall j :: 0 <= j < i ==> cs[j] in componentOf && componentOf[cs[j]] == id
    {
      if cs[i] !in componentOf || componentOf[cs[i]] != id {
        return false;
      }
      i := i + 1;
    }
    return true;
  }

  /** The labels single out the largest component. */
  lemma LargestByLabel(fs: seq<Feature>, componentOf: map<Key, nat>, id: nat)
    requires var roots := Roots(GraphOf(fs), Keys(fs));
             && componentOf.Keys == GraphOf(fs).Keys && LabelsRoots(GraphOf(fs), componentOf, roots)
             && (roots != [] ==> id == FirstMax(Sizes(GraphOf(fs), roots)))
    ensures forall k :: k in Largest(fs) <==> k in componentOf && componentOf[k] == id
  {
    var g, roots := GraphOf(fs), Roots(GraphOf(fs), Keys(fs));
    GraphIsUndirected(fs);
    forall k | k in g
      ensures k in Largest(fs) <==> componentOf[k] == id
    {
      if k in Largest(fs) {
        ReachSymmetric(g, roots[componentOf[k]], k);
        ReachTransitive(g, roots[id], k, roots[componentOf[k]]);
        RootsAreUnconnected(g, Keys(fs), id, componentOf[k]);
      }
    }
  }

  /** The nodes of a feature list, as the source counts what remains. */
  method CountNodes(fs: seq<Feature>) returns (n: nat)
    ensures n == |GraphOf(fs).Keys|
  {
    var nodes: set<Key> := {};
    var i := 0;
    while i < |fs|
      invariant 0 <= i <= |fs|
      invariant nodes == Elements(Keys(fs[..i]))
    {
      assert fs[..i + 1][..i] == fs[..i];
      ExtendAdds(Keys(fs[..i]), Coords(fs[i]));
      nodes := nodes + set k | k in Coords(fs[i]);
      i := i + 1;
    }
    assert fs[..i] == fs;
    GraphIsUndirected(fs);
    n := |nodes|;
  }

  /** The filter over the features. */
  method KeepLabelled(fs: seq<Feature>, componentOf: map<Key, nat>, id: nat, ghost c: set<Key>)
    returns (kept: seq<Feature>, removed: nat)
    requires forall k :: k in c <==> k in componentOf && componentOf[k] == id
    ensures kept == Keep(fs, c) && removed == |fs| - |kept|
  {
    kept, removed := [], 0;
    var n := 0;
    while n < |fs|
      invariant 0 <= n <= |fs|
      invariant kept == Keep(fs[..n], c) && removed == n - |kept|
    {
      assert fs[..n + 1][..n] == fs[..n];
      var inLargest := true;
      if fs[n].LineString? {
        inLargest := AllLabelled(fs[n].coords, componentOf, id);
      }
      assert inLargest <==> Elements(Coords(fs[n])) <= c;
      if inLargest {
        kept := kept + [fs[n]];
      } else {
        removed := removed + 1;
      }
      n := n + 1;
    }
    assert fs[..n] == fs;
  }

  method PruneNetwork(fs: seq<Feature>) returns (pruned: seq<Feature>, removedFeatures: nat, removedNodes: int)
    ensures pruned == Pruned(fs)
    ensures removedFeatures == |fs| - |pruned|
    ensures removedNodes == |GraphOf(fs).Keys| - |Largest(fs)|
  {
    var order, g := BuildAdjacency(fs);
    GraphIsUndirected(fs);
    var componentOf, sizes := LabelComponents(g, order);
    RootsAreApart(g, order);
    forall i | 0 <= i < |sizes|
      ensures sizes[i] > 0
    {
      assert Roots(g, order)[i] in Elements(order);
      SizesArePositive(g, Roots(g, order), i);
    }
    var largestId := FindLargest(sizes);
    LargestByLabel(fs, componentOf, largestId);
    pruned, removedFeatures := KeepLabelled(fs, componentOf, largestId, Largest(fs));
    var remaining := CountNodes(pruned);
    KeptNodes(fs);
    removedNodes := |order| - remaining;
    OrderHasNoRepeats(fs);
  }

  lemma {:induction false} ExtendKeepsDistinct(keys: seq<Key>, more: seq<Key>)
    requires |keys| == |Elements(keys)|
    ensures |Extend(keys, more)| == |Elements(Extend(keys, more))|
  {
    if more != [] {
      var front, last := more[..|more| - 1], more[|more| - 1];
      ExtendKeepsDistinct(keys, front);
      var before := Extend(keys, front);
      if last !in before {
        assert Elements(before + [last]) == Elements(before) + {last};
      }
    }
  }

  /** `adjacency.size` is the number of nodes. */
  lemma {:induction false} OrderHasNoRepeats(fs: seq<Feature>)
    ensures |Keys(fs)| == |Elements(Keys(fs))|
  {
    if fs != [] {
      OrderHasNoRepeats(fs[..|fs| - 1]);
      ExtendKeepsDistinct(Keys(fs[..|fs| - 1]), Coords(fs[|fs| - 1]));
    } else {
      assert Elements([]) == {};
    }
  }

  // ---- What pruning leaves is that component, whole ----

  lemma {:induction false} KeepMembers(fs: seq<Feature>, c: set<Key>, f: Feature)
    ensures f in Keep(fs, c) <==> f in fs && Elements(Coords(f)) <= c
  {
    if fs != [] {
      KeepMembers(fs[..|fs| - 1], c, f);
      assert fs == fs[..|fs| - 1] + [fs[|fs| - 1]];
    }
  }

  lemma LargestIsComponent(fs: seq<Feature>)
    ensures Closed(GraphOf(fs), Largest(fs)) && Largest(fs) <= GraphOf(fs).Keys
    ensures forall a :: a in Largest(fs) ==> Component(GraphOf(fs), a) == Largest(fs)
  {
    var g, roots := GraphOf(fs), Roots(GraphOf(fs), Keys(fs));
    GraphIsUndirected(fs);
    if roots != [] {
      var r := roots[FirstMax(Sizes(g, roots))];
      ComponentIsClosed(g, r);
      forall a | a in Largest(fs)
        ensures Component(g, a) == Largest(fs)
      {
        SameComponent(g, r, a);
      }
    }
  }

  /** The lines through a component are all kept: a point in it takes its whole line along. */
  lemma LineIsKept(fs: seq<Feature>, i: nat, k: Key)
    requires i < |fs| && k in Coords(fs[i]) && k in Largest(fs)
    ensures fs[i] in Pruned(fs)
  {
    LargestIsComponent(fs);
    LineStaysTogether(fs, i, Largest(fs), k);
    KeepMembers(fs, Largest(fs), fs[i]);
  }

  /** The nodes left are exactly the largest component. */
  lemma KeptNodes(fs: seq<Feature>)
    ensures GraphOf(Pruned(fs)).Keys == Largest(fs)
  {
    var kept := Pruned(fs);
    LargestIsComponent(fs);
    KeysAreCoords(fs);
    KeysAreCoords(kept);
    forall k
      ensures k in Keys(kept) <==> k in Largest(fs)
    {
      if k in Largest(fs) {
        assert OnSomeLine(fs, k);
        var i :| 0 <= i < |fs| && k in Coords(fs[i]);
        LineIsKept(fs, i, k);
        var j :| 0 <= j < |kept| && kept[j] == fs[i];
        assert k in Coords(kept[j]);
        assert OnSomeLine(kept, k);
      }
      if k in Keys(kept) {
        assert OnSomeLine(kept, k);
        var j :| 0 <= j < |kept| && k in Coords(kept[j]);
        KeepMembers(fs, Largest(fs), kept[j]);
        assert k in Elements(Coords(kept[j]));
      }
    }
  }

  lemma LinkIsKept(fs: seq<Feature>, a: Key, b: Key)
    requires a in Largest(fs)
    ensures Linked(fs, a, b) == Linked(Pruned(fs), a, b)
  {
    var kept := Pruned(fs);
    if Linked(fs, a, b) {
      var i :| 0 <= i < |fs| && Joins(Coords(fs[i]), a, b);
      LineIsKept(fs, i, a);
      var j :| 0 <= j < |kept| && kept[j] == fs[i];
      assert Joins(Coords(kept[j]), a, b);
    }
    if Linked(kept, a, b) {
      var j :| 0 <= j < |kept| && Joins(Coords(kept[j]), a, b);
      KeepMembers(fs, Largest(fs), kept[j]);
      var i :| 0 <= i < |fs| && fs[i] == kept[j];
      assert Joins(Coords(fs[i]), a, b);
    }
  }

  /** Pruning takes no link away between nodes it keeps. */
  lemma KeptLinks(fs: seq<Feature>, a: Key, b: Key)
    requires a in Largest(fs)
    ensures Link(GraphOf(Pruned(fs)), a, b) == Link(GraphOf(fs), a, b)
  {
    LinkIsKept(fs, a, b);
    GraphLinks(fs, a, b);
    GraphLinks(Pruned(fs), a, b);
  }

  lemma {:induction false} KeptPath(fs: seq<Feature>, p: seq<Key>, a: Key, b: Key)
    requires a in Largest(fs) && IsPath(GraphOf(fs), p, a, b)
    ensures b in Largest(fs) && Reach(GraphOf(Pruned(fs)), a, b)
    decreases |p|
  {
    if |p| > 1 {
      var q, c := p[..|p| - 1], p[|p| - 2];
      assert IsPath(GraphOf(fs), q, a, c);
      KeptPath(fs, q, a, c);
      assert Link(GraphOf(fs), p[|p| - 2], p[|p| - 1]);
      LargestIsComponent(fs);
      KeptLinks(fs, c, b);
      ReachStep(GraphOf(Pruned(fs)), a, c, b);
    } else {
      ReachSelf(GraphOf(Pruned(fs)), a);
    }
  }

  /** The pruned network is connected: from any node, every node. */
  lemma PrunedIsConnected(fs: seq<Feature>, a: Key)
    requires a in Largest(fs)
    ensures Component(GraphOf(Pruned(fs)), a) == Largest(fs)
  {
    KeptNodes(fs);
    LargestIsComponent(fs);
    forall b | b in Largest(fs)
      ensures Reach(GraphOf(Pruned(fs)), a, b)
    {
      assert b in Component(GraphOf(fs), a);
      var p :| IsPath(GraphOf(fs), p, a, b);
      KeptPath(fs, p, a, b);
    }
  }

  lemma {:induction false} OneRoot(g: Graph, order: seq<Key>)
    requires forall a, b :: a in order && b in order ==> Reach(g, a, b)
    ensures Roots(g, order) == if order == [] then [] else [order[0]]
  {
    if order != [] {
      var front := order[..|order| - 1];
      OneRoot(g, front);
      assert order[0] in order && order[|order| - 1] in order;
      if front != [] {
        assert Reach(g, Roots(g, front)[0], order[|order| - 1]);
      }
    }
  }

  /** The search of a pruned network finds one component, unless no node is left. */
  lemma PrunedSizes(fs: seq<Feature>)
    ensures var g, order := GraphOf(Pruned(fs)), Keys(Pruned(fs));
            && Elements(order) == g.Keys == Largest(fs)
            && Sizes(g, Roots(g, order)) == (if Largest(fs) == {} then [] else [|Largest(fs)|])
  {
    var g, order := GraphOf(Pruned(fs)), Keys(Pruned(fs));
    KeptNodes(fs);
    GraphIsUndirected(Pruned(fs));
    forall a, b | a in order && b in order
      ensures Reach(g, a, b)
    {
      assert a in Elements(order) && b in Elements(order);
      PrunedIsConnected(fs, a);
      assert b in Component(g, a);
    }
    OneRoot(g, order);
    if order != [] {
      assert order[0] in Elements(order);
      PrunedIsConnected(fs, order[0]);
    } else {
      assert Largest(fs) == {};
    }
  }

  /** The pruned network's largest component is the one it was pruned to. */
  lemma PrunedLargest(fs: seq<Feature>)
    ensures Largest(Pruned(fs)) == Largest(fs)
  {
    var g, order := GraphOf(Pruned(fs)), Keys(Pruned(fs));
    PrunedSizes(fs);
    RootsAreApart(g, order);
    var roots := Roots(g, order);
    if roots != [] {
      var r := roots[FirstMax(Sizes(g, roots))];
      assert r in Elements(order);
      PrunedIsConnected(fs, r);
    } else {
      assert |Sizes(g, roots)| == 0;
    }
  }

  lemma {:induction false} KeepTwice(fs: seq<Feature>, c: set<Key>)
    ensures Keep(Keep(fs, c), c) == Keep(fs, c)
  {
    if fs != [] {
      var front := fs[..|fs| - 1];
      KeepTwice(front, c);
      assert (Keep(front, c) + [fs[|fs| - 1]])[..|Keep(front, c)|] == Keep(front, c);
    }
  }

  /** Pruning again removes nothing and returns the same list. */
  lemma PruneIsIdempotent(fs: seq<Feature>)
    ensures Pruned(Pruned(fs)) == Pruned(fs)
  {
    PrunedLargest(fs);
    KeepTwice(fs, Largest(fs));
  }
}
