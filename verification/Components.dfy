/**
 * Connected components of an undirected graph, and the queue search both
 * network commands label them with (prune.ts:39-61, validate.ts:43-60).
 */
module Components {

  /** The text `nodeKey` makes of a position. */
  datatype Key = Key(text: string)

  /** `Map<string, Set<string>>`: each node's neighbours. */
  type Graph = map<Key, set<Key>>

  /** Links go both ways and never leave the graph. */
  ghost predicate Undirected(g: Graph) {
    forall a, b :: a in g && b in g[a] ==> b in g && a in g[b]
  }

  predicate Link(g: Graph, a: Key, b: Key) {
    a in g && b in g[a]
  }

  ghost predicate IsPath(g: Graph, p: seq<Key>, a: Key, b: Key) {
    && |p| > 0 && p[0] == a && p[|p| - 1] == b
    && forall i :: 0 < i < |p| ==> Link(g, p[i - 1], p[i])
  }

  /** A path of links joins the two nodes. */
  ghost predicate Reach(g: Graph, a: Key, b: Key) {
    exists p :: IsPath(g, p, a, b)
  }

  lemma ReachSelf(g: Graph, a: Key)
    ensures Reach(g, a, a)
  {
    assert IsPath(g, [a], a, a);
  }

  lemma ReachStep(g: Graph, a: Key, b: Key, c: Key)
    requires Reach(g, a, b) && Link(g, b, c)
    ensures Reach(g, a, c)
  {
    var p :| IsPath(g, p, a, b);
    assert IsPath(g, p + [c], a, c);
  }

  lemma {:induction false} PathAppend(g: Graph, p: seq<Key>, a: Key, b: Key, c: Key)
    requires Reach(g, a, b) && IsPath(g, p, b, c)
    ensures Reach(g, a, c)
    decreases |p|
  {
    if |p| > 1 {
      var q := p[..|p| - 1];
      assert IsPath(g, q, b, q[|q| - 1]);
      PathAppend(g, q, a, b, q[|q| - 1]);
      assert Link(g, p[|p| - 2], p[|p| - 1]);
      ReachStep(g, a, p[|p| - 2], p[|p| - 1]);
    }
  }

  lemma ReachTransitive(g: Graph, a: Key, b: Key, c: Key)
    requires Reach(g, a, b) && Reach(g, b, c)
    ensures Reach(g, a, c)
  {
    var p :| IsPath(g, p, b, c);
    PathAppend(g, p, a, b, c);
  }

  lemma ReachSymmetric(g: Graph, a: Key, b: Key)
    requires Undirected(g) && Reach(g, a, b)
    ensures Reach(g, b, a)
  {
    var p :| IsPath(g, p, a, b);
    var q := seq(|p|, i requires 0 <= i < |p| => p[|p| - 1 - i]);
    forall i | 0 < i < |q|
      ensures Link(g, q[i - 1], q[i])
    {
      var j := |p| - i;
      assert Link(g, p[j - 1], p[j]);
    }
    assert IsPath(g, q, b, a);
  }

  /** No link leaves the set. */
  ghost predicate Closed(g: Graph, s: set<Key>) {
    forall x :: x in s && x in g ==> g[x] <= s
  }

  lemma {:induction false} ClosedUnderPath(g: Graph, s: set<Key>, p: seq<Key>, a: Key, b: Key)
    requires Closed(g, s) && a in s && IsPath(g, p, a, b)
    ensures b in s
    decreases |p|
  {
    if |p| > 1 {
      var q := p[..|p| - 1];
      assert IsPath(g, q, a, q[|q| - 1]);
      ClosedUnderPath(g, s, q, a, q[|q| - 1]);
      assert Link(g, p[|p| - 2], p[|p| - 1]);
    }
  }

  /** A closed set holds everything reachable from a member. */
  lemma ClosedUnderReach(g: Graph, s: set<Key>, a: Key, b: Key)
    requires Closed(g, s) && a in s && Reach(g, a, b)
    ensures b in s
  {
    var p :| IsPath(g, p, a, b);
    ClosedUnderPath(g, s, p, a, b);
  }

  // ---- Components ----

  /** Everything a node's links lead to. */
  ghost function Component(g: Graph, a: Key): set<Key> {
    set k | k in g && Reach(g, a, k)
  }

  lemma ComponentIsClosed(g: Graph, a: Key)
    requires Undirected(g)
    ensures Closed(g, Component(g, a))
  {
    forall x | x in Component(g, a)
      ensures g[x] <= Component(g, a)
    {
      forall y | y in g[x]
        ensures y in Component(g, a)
      {
        ReachStep(g, a, x, y);
      }
    }
  }

  /** The component is the least closed set around its node. */
  lemma ComponentIsLeastClosed(g: Graph, a: Key, s: set<Key>)
    requires Closed(g, s) && a in s
    ensures Component(g, a) <= s
  {
    forall k | k in Component(g, a)
      ensures k in s
    {
      ClosedUnderReach(g, s, a, k);
    }
  }

  lemma SameComponent(g: Graph, a: Key, b: Key)
    requires Undirected(g) && Reach(g, a, b)
    ensures Component(g, a) == Component(g, b)
  {
    ReachSymmetric(g, a, b);
    forall k
      ensures Reach(g, a, k) == Reach(g, b, k)
    {
      if Reach(g, a, k) { ReachTransitive(g, b, a, k); }
      if Reach(g, b, k) { ReachTransitive(g, a, b, k); }
    }
  }

  /** A closed set without a node has nothing of the node's component. */
  lemma ComponentIsApart(g: Graph, node: Key, s: set<Key>)
    requires Undirected(g) && node in g && node !in s && Closed(g, s)
    ensures s !! Component(g, node) && node in Component(g, node)
  {
    ReachSelf(g, node);
    forall k | k in s && k in Component(g, node)
      ensures false
    {
      ReachSymmetric(g, node, k);
      ClosedUnderReach(g, s, k, node);
    }
  }

  // ---- Roots: the first node, in key order, of each component ----

  ghost function Roots(g: Graph, order: seq<Key>): seq<Key> {
    if order == [] then []
    else
      var before, k := Roots(g, order[..|order| - 1]), order[|order| - 1];
      if exists j :: 0 <= j < |before| && Reach(g, before[j], k) then before else before + [k]
  }

  ghost function Sizes(g: Graph, roots: seq<Key>): seq<nat> {
    seq(|roots|, i requires 0 <= i < |roots| => |Component(g, roots[i])|)
  }

  /** Roots are keys, no two of them connected. */
  lemma {:induction false} RootsAreApart(g: Graph, order: seq<Key>)
    ensures forall i :: 0 <= i < |Roots(g, order)| ==> Roots(g, order)[i] in order
    ensures forall i, j :: 0 <= i < j < |Roots(g, order)| ==> !Reach(g, Roots(g, order)[i], Roots(g, order)[j])
  {
    if order != [] {
      RootsAreApart(g, order[..|order| - 1]);
    }
  }

  lemma RootsAreUnconnected(g: Graph, order: seq<Key>, i: nat, j: nat)
    requires Undirected(g)
    requires i < |Roots(g, order)| && j < |Roots(g, order)| && Reach(g, Roots(g, order)[i], Roots(g, order)[j])
    ensures i == j
  {
    RootsAreApart(g, order);
    ReachSymmetric(g, Roots(g, order)[i], Roots(g, order)[j]);
  }

  /** Each key hangs off a root. */
  lemma {:induction false} RootOf(g: Graph, order: seq<Key>, k: Key) returns (i: nat)
    requires k in order
    ensures i < |Roots(g, order)| && Reach(g, Roots(g, order)[i], k)
  {
    var front, last := order[..|order| - 1], order[|order| - 1];
    var before := Roots(g, front);
    assert order == front + [last];
    if k in front {
      i := RootOf(g, front, k);
    } else if exists j :: 0 <= j < |before| && Reach(g, before[j], last) {
      i :| 0 <= i < |before| && Reach(g, before[i], last);
    } else {
      ReachSelf(g, last);
      i := |before|;
    }
  }

  function Sum(s: seq<nat>): nat {
    if s == [] then 0 else Sum(s[..|s| - 1]) + s[|s| - 1]
  }

  /** The components of some nodes, put together. */
  ghost function Covered(g: Graph, roots: seq<Key>): set<Key> {
    set k | k in g && exists i :: 0 <= i < |roots| && Reach(g, roots[i], k)
  }

  lemma CoveredGrows(g: Graph, front: seq<Key>, last: Key)
    requires Undirected(g)
    requires forall i :: 0 <= i < |front| ==> !Reach(g, front[i], last)
    ensures Covered(g, front + [last]) == Covered(g, front) + Component(g, last)
    ensures Covered(g, front) !! Component(g, last)
  {
    var roots := front + [last];
    forall k | k in g
      ensures k in Covered(g, roots) <==> k in Covered(g, front) || Reach(g, last, k)
    {
      if k in Covered(g, front) {
        var i :| 0 <= i < |front| && Reach(g, front[i], k);
        assert Reach(g, roots[i], k);
      }
      if Reach(g, last, k) { assert Reach(g, roots[|front|], k); }
    }
    forall k | k in Covered(g, front) && k in Component(g, last)
      ensures false
    {
      var i :| 0 <= i < |front| && Reach(g, front[i], k);
      ReachSymmetric(g, last, k);
      ReachTransitive(g, front[i], k, last);
    }
  }

  lemma {:induction false} CoveredSize(g: Graph, roots: seq<Key>)
    requires Undirected(g)
    requires forall i, j :: 0 <= i < j < |roots| ==> !Reach(g, roots[i], roots[j])
    ensures |Covered(g, roots)| == Sum(Sizes(g, roots))
  {
    if roots == [] {
      assert Covered(g, roots) == {};
    } else {
      var n := |roots| - 1;
      CoveredSize(g, roots[..n]);
      CoveredGrows(g, roots[..n], roots[n]);
      assert roots == roots[..n] + [roots[n]];
      SizesGrow(g, roots[..n], roots[n]);
    }
  }

  lemma RootsCover(g: Graph, order: seq<Key>)
    requires Elements(order) == g.Keys
    ensures Covered(g, Roots(g, order)) == g.Keys
  {
    forall k | k in g
      ensures k in Covered(g, Roots(g, order))
    {
      var i := RootOf(g, order, k);
    }
  }

  /** The component sizes account for every node once. */
  lemma SizesSumToNodes(g: Graph, order: seq<Key>)
    requires Undirected(g) && Elements(order) == g.Keys
    ensures Sum(Sizes(g, Roots(g, order))) == |g.Keys|
  {
    RootsAreApart(g, order);
    CoveredSize(g, Roots(g, order));
    RootsCover(g, order);
  }

  // ---- The search ----

  ghost function Elements(s: seq<Key>): set<Key> {
    set k | k in s
  }

  lemma ElementsHead(queue: seq<Key>)
    requires queue != []
    ensures Elements(queue) == {queue[0]} + Elements(queue[1..])
  {
    assert queue == [queue[0]] + queue[1..];
  }

  /** `m` with every key of `s` labelled `id`. */
  ghost function Label(m: map<Key, nat>, s: set<Key>, id: nat): map<Key, nat> {
    m + map k | k in s :: id
  }

  lemma LabelOneMore(m: map<Key, nat>, s: set<Key>, id: nat, k: Key)
    ensures Label(m, s + {k}, id) == Label(m, s, id)[k := id]
  {
  }

  method PushUnvisited(queue: seq<Key>, neighbours: set<Key>, visited: set<Key>) returns (q: seq<Key>)
    ensures Elements(q) == Elements(queue) + (neighbours - visited)
  {
    q := queue;
    var todo := neighbours;
    while todo != {}
      invariant todo <= neighbours
      invariant Elements(q) == Elements(queue) + (neighbours - todo - visited)
      decreases todo
    {
      var neighbor :| neighbor in todo;
      if neighbor !in visited {
        ghost var before := q;
        q := q + [neighbor];
        assert Elements(q) == Elements(before) + {neighbor};
      }
      todo := todo - {neighbor};
    }
  }

  /** Everything found so far leads only to what is found or waits in the queue. */
  ghost predicate Frontier(g: Graph, found: set<Key>, queue: seq<Key>) {
    forall x :: x in found && x in g ==> g[x] <= found + Elements(queue)
  }

  /** Cardinality, counted one key at a time. */
  ghost function Count(s: set<Key>): nat {
    if s == {} then 0
    else
      var k :| k in s;
      1 + Count(s - {k})
  }

  lemma {:induction false} CountIsSize(s: set<Key>)
    ensures Count(s) == |s|
  {
    if s != {} {
      var k :| k in s && Count(s) == 1 + Count(s - {k});
      CountIsSize(s - {k});
    }
  }

  lemma CountOneMore(s: set<Key>, k: Key)
    requires k !in s
    ensures Count(s + {k}) == Count(s) + 1
  {
    CountIsSize(s);
    CountIsSize(s + {k});
  }

  /** Visiting the head of the queue and pushing its unvisited neighbours keeps the frontier. */
  lemma VisitKeepsFrontier(g: Graph, found: set<Key>, rest: seq<Key>, curr: Key, pushed: seq<Key>, visited: set<Key>,
                           whole: set<Key>)
    requires curr in g && found <= whole && curr in whole && Closed(g, whole) && visited * whole <= found + {curr}
    requires forall x :: x in found && x in g ==> g[x] <= found + {curr} + Elements(rest)
    requires Elements(rest) <= whole && Elements(pushed) == Elements(rest) + (g[curr] - visited)
    ensures Frontier(g, found + {curr}, pushed) && Elements(pushed) <= whole
  {
  }

  /** The inner loop: a queue grows from one unvisited node, within any closed set. */
  method Grow(g: Graph, node: Key, visited0: set<Key>, componentOf0: map<Key, nat>, id: nat, ghost whole: set<Key>)
    returns (visited: set<Key>, componentOf: map<Key, nat>, size: nat, ghost found: set<Key>)
    requires node in whole && whole <= g.Keys && Closed(g, whole)
    requires visited0 !! whole
    ensures node in found && found <= whole && Closed(g, found)
    ensures visited == visited0 + found
    ensures componentOf == Label(componentOf0, found, id)
    ensures size == |found|
  {
    found := {};
    visited, componentOf, size := visited0, componentOf0, 0;
    var queue := [node];
    while queue != []
      invariant found <= whole && Elements(queue) <= whole
      invariant visited == visited0 + found
      invariant componentOf == Label(componentOf0, found, id)
      invariant size == Count(found)
      invariant node in found + Elements(queue)
      invariant Frontier(g, found, queue)
      decreases whole - found, |queue|
    {
      ElementsHead(queue);
      var curr := queue[0];
      queue := queue[1..];
      if curr in visited {
        continue;
      }
      LabelOneMore(componentOf0, found, id, curr);
      CountOneMore(found, curr);
      visited := visited + {curr};
      componentOf := componentOf[curr := id];
      size := size + 1;
      ghost var rest := queue;
      queue := PushUnvisited(queue, g[curr], visited);
      VisitKeepsFrontier(g, found, rest, curr, queue, visited, whole);
      found := found + {curr};
    }
    CountIsSize(found);
  }

  /** The search from one unvisited node finds exactly its component. */
  method Flood(g: Graph, node: Key, visited0: set<Key>, componentOf0: map<Key, nat>, id: nat)
    returns (visited: set<Key>, componentOf: map<Key, nat>, size: nat)
    requires Undirected(g) && node in g
    requires visited0 !! Component(g, node)
    ensures visited == visited0 + Component(g, node)
    ensures componentOf == Label(componentOf0, Component(g, node), id)
    ensures size == |Component(g, node)|
  {
    ComponentIsClosed(g, node);
    ReachSelf(g, node);
    ghost var found;
    visited, componentOf, size, found := Grow(g, node, visited0, componentOf0, id, Component(g, node));
    ComponentIsLeastClosed(g, node, found);
    assert found == Component(g, node);
  }

  /** Every labelled node hangs off the root its label names. */
  ghost predicate LabelsRoots(g: Graph, componentOf: map<Key, nat>, roots: seq<Key>) {
    forall k :: k in componentOf ==> componentOf[k] < |roots| && Reach(g, roots[componentOf[k]], k)
  }

  /** The next key is a root exactly when the search has not visited it. */
  lemma NextRoot(g: Graph, front: seq<Key>, node: Key, componentOf: map<Key, nat>, roots: seq<Key>)
    requires Closed(g, componentOf.Keys) && roots == Roots(g, front)
    requires LabelsRoots(g, componentOf, roots)
    requires Elements(roots) <= componentOf.Keys
    ensures Roots(g, front + [node]) == if node in componentOf then roots else roots + [node]
  {
    hide Reach, Closed;
    assert (front + [node])[..|front|] == front;
    if node in componentOf {
      assert Reach(g, roots[componentOf[node]], node);
    } else {
      forall j | 0 <= j < |roots|
        ensures !Reach(g, roots[j], node)
      {
        assert roots[j] in Elements(roots);
        if Reach(g, roots[j], node) {
          ClosedUnderReach(g, componentOf.Keys, roots[j], node);
        }
      }
    }
  }

  /** What flooding the component of a new root keeps. */
  lemma RootGrows(g: Graph, componentOf: map<Key, nat>, roots: seq<Key>, node: Key)
    requires Undirected(g) && node in g && node !in componentOf
    requires LabelsRoots(g, componentOf, roots) && Closed(g, componentOf.Keys)
    ensures var after := Label(componentOf, Component(g, node), |roots|);
            && after.Keys == componentOf.Keys + Component(g, node)
            && node in after && Closed(g, after.Keys)
            && LabelsRoots(g, after, roots + [node])
  {
    ComponentIsClosed(g, node);
    ComponentIsApart(g, node, componentOf.Keys);
  }

  lemma SizesGrow(g: Graph, roots: seq<Key>, node: Key)
    ensures Sizes(g, roots + [node]) == Sizes(g, roots) + [|Component(g, node)|]
  {
  }

  /** Where the outer loop stands after the keys `front`. */
  ghost predicate Labelled(g: Graph, front: seq<Key>, componentOf: map<Key, nat>, roots: seq<Key>, sizes: seq<nat>) {
    && roots == Roots(g, front)
    && componentOf.Keys <= g.Keys && Closed(g, componentOf.Keys)
    && Elements(front) <= componentOf.Keys && Elements(roots) <= componentOf.Keys
    && LabelsRoots(g, componentOf, roots)
    && sizes == Sizes(g, roots)
  }

  /** One turn of the outer loop: a key already visited is skipped. */
  method LabelNext(g: Graph, ghost front: seq<Key>, node: Key, visited0: set<Key>, componentOf0: map<Key, nat>, sizes0: seq<nat>)
    returns (visited: set<Key>, componentOf: map<Key, nat>, sizes: seq<nat>)
    requires Undirected(g) && node in g && visited0 == componentOf0.Keys
    requires Labelled(g, front, componentOf0, Roots(g, front), sizes0)
    ensures visited == componentOf.Keys
    ensures Labelled(g, front + [node], componentOf, Roots(g, front + [node]), sizes)
  {
    ghost var roots := Roots(g, front);
    visited, componentOf, sizes := visited0, componentOf0, sizes0;
    NextRoot(g, front, node, componentOf, roots);
    if node !in visited {
      ComponentIsApart(g, node, visited);
      RootGrows(g, componentOf, roots, node);
      SizesGrow(g, roots, node);
      var size;
      visited, componentOf, size := Flood(g, node, visited, componentOf, |sizes|);
      sizes := sizes + [size];
    }
  }

  /**
   * The outer loop.  A component's id is the position of its first node among
   * the roots; a node's id is that of the root it hangs off.
   */
  method LabelComponents(g: Graph, order: seq<Key>) returns (componentOf: map<Key, nat>, sizes: seq<nat>)
    requires Undirected(g) && Elements(order) == g.Keys
    ensures componentOf.Keys == g.Keys && LabelsRoots(g, componentOf, Roots(g, order))
    ensures sizes == Sizes(g, Roots(g, order))
  {
    var visited: set<Key> := {};
    componentOf, sizes := map[], [];
    var n := 0;
    while n < |order|
      invariant 0 <= n <= |order|
      invariant visited == componentOf.Keys
      invariant Labelled(g, order[..n], componentOf, Roots(g, order[..n]), sizes)
    {
      assert order[n] in Elements(order);
      assert order[..n + 1] == order[..n] + [order[n]];
      visited, componentOf, sizes := LabelNext(g, order[..n], order[n], visited, componentOf, sizes);
      n := n + 1;
    }
    assert order[..n] == order;
  }

  /** Two nodes get the same id exactly when a path joins them. */
  lemma LabelsAreComponents(g: Graph, order: seq<Key>, componentOf: map<Key, nat>, a: Key, b: Key)
    requires Undirected(g) && a in componentOf && b in componentOf
    requires LabelsRoots(g, componentOf, Roots(g, order))
    ensures componentOf[a] == componentOf[b] <==> Reach(g, a, b)
  {
    var ra, rb := Roots(g, order)[componentOf[a]], Roots(g, order)[componentOf[b]];
    ReachSymmetric(g, ra, a);
    if componentOf[a] == componentOf[b] {
      ReachTransitive(g, a, ra, b);
    }
    if Reach(g, a, b) {
      ReachSymmetric(g, rb, b);
      ReachTransitive(g, ra, a, b);
      ReachTransitive(g, ra, b, rb);
      RootsAreUnconnected(g, order, componentOf[a], componentOf[b]);
    }
  }
}
