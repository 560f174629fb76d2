/** `analyzeNetwork` (validate.ts:19-78): the topology report, and what it says of a pruned network. */
module Validate {
  import opened Common
  import opened Components
  import opened RoadGraph
  import opened Prune
  import opened PruneOrder

  /** Percentages are exact; the report also carries one rounded to a tenth. */
  datatype ValidationReport = ValidationReport(
    totalNodes: nat,
    totalEdges: nat,
    connectedComponents: nat,
    largestComponentPct: real,
    isolatedNodes: nat,
    passed: bool)

  function CountLines(fs: seq<Feature>): nat {
    if fs == [] then 0 else CountLines(fs[..|fs| - 1]) + if fs[|fs| - 1].LineString? then 1 else 0
  }

  function CountOnes(s: seq<nat>): nat {
    if s == [] then 0 else CountOnes(s[..|s| - 1]) + if s[|s| - 1] == 1 then 1 else 0
  }

  /** `Math.round(x * 10) / 10`. */
  function RoundToTenth(x: real): real {
    (x * 10.0 + 0.5).Floor as real / 10.0
  }

  /** The largest component's share of the nodes, in percent. */
  function Share(sizes: seq<nat>, totalNodes: nat): real {
    if totalNodes > 0 && sizes != [] then sizes[FirstMax(sizes)] as real / totalNodes as real * 100.0 else 0.0
  }

  /** The report of a network, from its components' sizes. */
  function ReportFor(totalNodes: nat, totalEdges: nat, sizes: seq<nat>): ValidationReport {
    var pct, isolated := Share(sizes, totalNodes), CountOnes(sizes);
    ValidationReport(totalNodes, totalEdges, |sizes|, RoundToTenth(pct), isolated,
                     pct >= 95.0 && isolated as real / (if totalNodes > 1 then totalNodes else 1) as real < 0.05)
  }

  ghost function Report(fs: seq<Feature>): ValidationReport {
    var g := GraphOf(fs);
    ReportFor(|g.Keys|, CountLines(fs), Sizes(g, Roots(g, Keys(fs))))
  }

  // ---- The command ----

  predicate Descending(s: seq<nat>) {
    forall i, j :: 0 <= i <= j < |s| ==> s[i] >= s[j]
  }

  /** One insertion into a descending list. */
  function Insert(s: seq<nat>, x: nat): seq<nat> {
    if s == [] || x >= s[0] then [x] + s else [s[0]] + Insert(s[1..], x)
  }

  lemma {:induction false} InsertKeepsElements(s: seq<nat>, x: nat)
    ensures multiset(Insert(s, x)) == multiset(s) + multiset{x}
  {
    if s != [] && x < s[0] {
      InsertKeepsElements(s[1..], x);
      MultisetOfCons(s[0], Insert(s[1..], x));
      MultisetOfCons(s[0], s[1..]);
      assert s == [s[0]] + s[1..];
    }
  }

  lemma MultisetOfCons(x: nat, s: seq<nat>)
    ensures multiset([x] + s) == multiset{x} + multiset(s)
  {
  }

  lemma {:induction false} InsertKeepsBelow(s: seq<nat>, x: nat, top: nat)
    requires x <= top && forall i :: 0 <= i < |s| ==> s[i] <= top
    ensures forall i :: 0 <= i < |Insert(s, x)| ==> Insert(s, x)[i] <= top
  {
    if s != [] && x < s[0] {
      InsertKeepsBelow(s[1..], x, top);
    }
  }

  lemma {:induction false} InsertKeepsOrder(s: seq<nat>, x: nat)
    requires Descending(s)
    ensures Descending(Insert(s, x))
  {
    if s != [] && x < s[0] {
      InsertKeepsOrder(s[1..], x);
      InsertKeepsBelow(s[1..], x, s[0]);
    }
  }

  /** `components.sort((a, b) => b - a)`. */
  method SortDescending(s: seq<nat>) returns (r: seq<nat>)
    ensures Descending(r) && multiset(r) == multiset(s)
  {
    r := [];
    var i := 0;
    while i < |s|
      invariant 0 <= i <= |s|
      invariant Descending(r) && multiset(r) == multiset(s[..i])
    {
      InsertKeepsOrder(r, s[i]);
      InsertKeepsElements(r, s[i]);
      r := Insert(r, s[i]);
      assert s[..i + 1] == s[..i] + [s[i]];
      i := i + 1;
    }
    assert s[..i] == s;
  }

  /** The first entry of the sorted list is the size the report needs. */
  lemma SortedHeadIsMax(s: seq<nat>, r: seq<nat>)
    requires Descending(r) && multiset(r) == multiset(s)
    ensures |r| == |s|
    ensures s != [] ==> r[0] == s[FirstMax(s)]
  {
    assert |multiset(r)| == |multiset(s)|;
    if s != [] {
      assert r[0] in multiset(s);
      assert s[FirstMax(s)] in multiset(r);
    }
  }

  lemma {:induction false} OnesAreCounted(s: seq<nat>)
    ensures CountOnes(s) == multiset(s)[1]
  {
    if s != [] {
      OnesAreCounted(s[..|s| - 1]);
      assert s == s[..|s| - 1] + [s[|s| - 1]];
    }
  }

  method CountEqualToOne(s: seq<nat>) returns (n: nat)
    ensures n == CountOnes(s)
  {
    n := 0;
    var i := 0;
    while i < |s|
      invariant 0 <= i <= |s| && n == CountOnes(s[..i])
    {
      assert s[..i + 1][..i] == s[..i];
      if s[i] == 1 {
        n := n + 1;
      }
      i := i + 1;
    }
    assert s[..i] == s;
  }

  method CountEdges(fs: seq<Feature>) returns (totalEdges: nat)
    ensures totalEdges == CountLines(fs)
  {
    totalEdges := 0;
    var n := 0;
    while n < |fs|
      invariant 0 <= n <= |fs| && totalEdges == CountLines(fs[..n])
    {
      assert fs[..n + 1][..n] == fs[..n];
      if fs[n].LineString? {
        totalEdges := totalEdges + 1;
      }
      n := n + 1;
    }
    assert fs[..n] == fs;
  }

  /** The second half of the analysis: everything read off the sorted component sizes. */
  method MakeReport(totalNodes: nat, totalEdges: nat, sizes: seq<nat>) returns (report: ValidationReport)
    requires totalNodes > 0 <==> sizes != []
    ensures report == ReportFor(totalNodes, totalEdges, sizes)
  {
    var components := SortDescending(sizes);
    SortedHeadIsMax(sizes, components);
    OnesAreCounted(sizes);
    OnesAreCounted(components);
    var isolatedNodes := CountEqualToOne(components);
    var largestComponentPct := if totalNodes > 0 then components[0] as real / totalNodes as real * 100.0 else 0.0;
    report := ValidationReport(totalNodes, totalEdges, |components|, RoundToTenth(largestComponentPct), isolatedNodes,
                               largestComponentPct >= 95.0
                               && isolatedNodes as real / (if totalNodes > 1 then totalNodes else 1) as real < 0.05);
  }

  method AnalyzeNetwork(fs: seq<Feature>) returns (report: ValidationReport)
    ensures report == Report(fs)
  {
    var order, g := BuildAdjacency(fs);
    GraphIsUndirected(fs);
    OrderHasNoRepeats(fs);
    var totalEdges := CountEdges(fs);
    var componentOf, sizes := LabelComponents(g, order);
    SomeRootUnlessEmpty(g, order);
    report := MakeReport(|order|, totalEdges, sizes);
  }

  lemma SomeRootUnlessEmpty(g: Graph, order: seq<Key>)
    ensures order == [] <==> Sizes(g, Roots(g, order)) == []
  {
    assert |Sizes(g, Roots(g, order))| == |Roots(g, order)|;
    if order != [] {
      var i := RootOf(g, order, order[0]);
    }
  }

  /** The report of a network that is one component, or empty. */
  lemma ReportForAtMostOne(n: nat, edges: nat)
    ensures var r := ReportFor(n, edges, if n == 0 then [] else [n]);
            && r.totalNodes == n
            && (n > 0 ==> r.connectedComponents == 1 && r.largestComponentPct == 100.0)
            && (r.isolatedNodes == 0 <==> n != 1)
            && (r.passed <==> n >= 2)
  {
    if n > 0 {
      var sizes := [n];
      assert sizes[..0] == [];
      assert CountOnes(sizes) == if n == 1 then 1 else 0;
      assert n as real / n as real == 1.0;
      assert Share(sizes, n) == 100.0;
      assert (100.0 * 10.0 + 0.5).Floor == 1000;
    }
  }

  /**
   * Pruning then validating: one component, all of the nodes, none isolated,
   * passed.  A largest component of one node is the only way to fail, and an
   * empty network fails as well.
   */
  lemma PrunedReport(fs: seq<Feature>)
    ensures var n, r := |Largest(fs)|, Report(Pruned(fs));
            && r.totalNodes == n
            && (n > 0 ==> r.connectedComponents == 1 && r.largestComponentPct == 100.0)
            && (r.isolatedNodes == 0 <==> n != 1)
            && (r.passed <==> n >= 2)
  {
    hide ReportFor, Keys, GraphOf, Pruned, Largest, Sizes, Roots;
    PrunedSizes(fs);
    ReportForAtMostOne(|Largest(fs)|, CountLines(Pruned(fs)));
  }

  /** Such a network: one line so short that both its ends have the same key. */
  lemma {:induction false} ShortLineFails(k: Key, props: string)
    ensures var fs := [LineString([k, k], props)]; |Largest(fs)| == 1 && !Report(Pruned(fs)).passed
  {
    var fs := [LineString([k, k], props)];
    assert fs[..0] == [] && [k, k][..1] == [k] && [k][..0] == [];
    assert Extend([], [k]) == [k];
    assert Keys(fs) == [k];
    var g := GraphOf(fs);
    assert [k][..0] == [] && Roots(g, [k]) == [k];
    ReachSelf(g, k);
    assert Component(g, k) == {k};
    assert Largest(fs) == {k};
    PrunedReport(fs);
  }

  // ---- What any report says of its network ----

  ghost function LinesOf(fs: seq<Feature>): set<nat> {
    set i: nat | i < |fs| && fs[i].LineString?
  }

  lemma {:induction false} LinesAreCounted(fs: seq<Feature>)
    ensures CountLines(fs) == |LinesOf(fs)|
  {
    if fs == [] {
      assert LinesOf(fs) == {};
    } else {
      var n := |fs| - 1;
      LinesAreCounted(fs[..n]);
      assert LinesOf(fs) == LinesOf(fs[..n]) + if fs[n].LineString? then {n} else {};
    }
  }

  ghost function ComponentsOf(g: Graph): set<set<Key>> {
    set k | k in g :: Component(g, k)
  }

  /** Nodes that are a component on their own. */
  ghost function IsolatedIn(g: Graph): set<Key> {
    set k | k in g && Component(g, k) == {k}
  }

  /** The first `n` of a list, and of some keys those that have a one beside them. */
  ghost function Firsts<T>(s: seq<T>, n: nat): set<T>
    requires n <= |s|
  {
    set i | 0 <= i < n :: s[i]
  }

  ghost function WithOne(keys: seq<Key>, sizes: seq<nat>, n: nat): set<Key>
    requires n <= |keys| == |sizes|
  {
    set i | 0 <= i < n && sizes[i] == 1 :: keys[i]
  }

  lemma {:induction false} DistinctAreCounted<T>(s: seq<T>, n: nat)
    requires NoDuplicates(s) && n <= |s|
    ensures |Firsts(s, n)| == n
  {
    if n == 0 {
      assert Firsts(s, 0) == {};
    } else {
      DistinctAreCounted(s, n - 1);
      assert Firsts(s, n) == Firsts(s, n - 1) + {s[n - 1]};
    }
  }

  lemma {:induction false} OnesBeside(keys: seq<Key>, sizes: seq<nat>, n: nat)
    requires NoDuplicates(keys) && n <= |keys| == |sizes|
    ensures |WithOne(keys, sizes, n)| == CountOnes(sizes[..n])
  {
    if n == 0 {
      assert WithOne(keys, sizes, 0) == {} && sizes[..0] == [];
    } else {
      OnesBeside(keys, sizes, n - 1);
      assert WithOne(keys, sizes, n) == WithOne(keys, sizes, n - 1) + if sizes[n - 1] == 1 then {keys[n - 1]} else {};
      assert keys[n - 1] !in WithOne(keys, sizes, n - 1);
      assert sizes[..n][..n - 1] == sizes[..n - 1];
    }
  }

  lemma SizeOne(c: set<Key>, k: Key)
    requires k in c
    ensures |c| == 1 <==> c == {k}
  {
    if |c| == 1 {
      assert |c - {k}| == 0;
    }
  }

  ghost function RootComponents(g: Graph, roots: seq<Key>): seq<set<Key>> {
    seq(|roots|, i requires 0 <= i < |roots| => Component(g, roots[i]))
  }

  /** The root of a node's component: it is a node, and the components are the same. */
  lemma {:induction false} ItsRoot(g: Graph, order: seq<Key>, k: Key) returns (i: nat)
    requires Undirected(g) && Elements(order) == g.Keys && k in g
    ensures i < |Roots(g, order)| && Component(g, Roots(g, order)[i]) == Component(g, k)
    ensures k in Component(g, k) && Roots(g, order)[i] in Component(g, k) && Roots(g, order)[i] in g
  {
    assert k in Elements(order);
    i := RootOf(g, order, k);
    var r := Roots(g, order)[i];
    RootsAreApart(g, order);
    assert r in Elements(order);
    ReachSelf(g, k);
    ReachSelf(g, r);
    SameComponent(g, r, k);
  }

  /** Roots are different nodes of different components. */
  lemma {:induction false} RootsDiffer(g: Graph, order: seq<Key>)
    requires Undirected(g) && Elements(order) == g.Keys
    ensures var roots := Roots(g, order);
            && NoDuplicates(roots) && NoDuplicates(RootComponents(g, roots))
            && forall i :: 0 <= i < |roots| ==> roots[i] in g && roots[i] in Component(g, roots[i])
  {
    var roots := Roots(g, order);
    RootsAreApart(g, order);
    forall i | 0 <= i < |roots|
      ensures roots[i] in g && roots[i] in Component(g, roots[i])
    {
      assert roots[i] in Elements(order);
      ReachSelf(g, roots[i]);
    }
    forall i, j | 0 <= i < j < |roots|
      ensures roots[i] != roots[j] && Component(g, roots[i]) != Component(g, roots[j])
    {
      assert roots[j] !in Component(g, roots[i]);
    }
  }

  /** Every component is that of a root, and a node on its own is one. */
  lemma {:induction false} RootsAreAll(g: Graph, order: seq<Key>)
    requires Undirected(g) && Elements(order) == g.Keys
    ensures var roots := Roots(g, order);
            && Firsts(RootComponents(g, roots), |roots|) == ComponentsOf(g)
            && WithOne(roots, Sizes(g, roots), |roots|) == IsolatedIn(g)
  {
    var roots := Roots(g, order);
    var comps, sizes := RootComponents(g, roots), Sizes(g, roots);
    RootsDiffer(g, order);
    hide Component, Roots, Reach, Undirected;
    forall c
      ensures c in Firsts(comps, |roots|) <==> c in ComponentsOf(g)
    {
      if c in Firsts(comps, |roots|) {
        var i :| 0 <= i < |roots| && comps[i] == c;
        assert c == Component(g, roots[i]) && roots[i] in g;
      }
      if c in ComponentsOf(g) {
        var k :| k in g && Component(g, k) == c;
        var i := ItsRoot(g, order, k);
        assert comps[i] == c;
      }
    }
    forall k
      ensures k in WithOne(roots, sizes, |roots|) <==> k in IsolatedIn(g)
    {
      if k in WithOne(roots, sizes, |roots|) {
        var i :| 0 <= i < |roots| && sizes[i] == 1 && roots[i] == k;
        SizeOne(Component(g, k), k);
      }
      if k in IsolatedIn(g) {
        var i := ItsRoot(g, order, k);
        SizeOne(Component(g, k), k);
        assert roots[i] == k && sizes[i] == 1;
      }
    }
  }

  lemma QuotientAtLeast(a: real, n: real, c: real)
    requires n > 0.0
    ensures a / n >= c <==> a >= c * n
  {
    var q := a / n;
    assert q * n == a;
    if q >= c {
      assert (q - c) * n >= 0.0;
      assert (q - c) * n == q * n - c * n;
    } else {
      assert (c - q) * n > 0.0;
      assert (c - q) * n == c * n - q * n;
    }
  }

  lemma Shares(size: nat, n: nat, isolated: nat)
    requires n > 0
    ensures size as real / n as real * 100.0 >= 95.0 <==> 100 * size >= 95 * n
    ensures isolated as real / n as real < 0.05 <==> 20 * isolated < n
  {
    QuotientAtLeast(size as real, n as real, 0.95);
    QuotientAtLeast(isolated as real, n as real, 0.05);
  }

  lemma TenthIsNear(x: real)
    ensures -0.05 <= RoundToTenth(x) - x <= 0.05
  {
  }

  lemma KeysAreNodes(fs: seq<Feature>)
    ensures Elements(Keys(fs)) == GraphOf(fs).Keys
  {
  }

  /** The share in a report is that of the largest component, and no other has more. */
  lemma {:induction false} LargestShare(fs: seq<Feature>)
    requires GraphOf(fs).Keys != {}
    ensures var g, n, size := GraphOf(fs), |GraphOf(fs).Keys|, |Largest(fs)|;
            && n > 0 && Share(Sizes(g, Roots(g, Keys(fs))), n) == size as real / n as real * 100.0
            && ((exists k :: k in g && 100 * |Component(g, k)| >= 95 * n) <==> 100 * size >= 95 * n)
  {
    var g, order := GraphOf(fs), Keys(fs);
    var roots := Roots(g, order);
    var any :| any in g;
    KeysAreNodes(fs);
    assert any in Elements(order);
    var at := RootOf(g, order, any);
    RootsAreApart(g, order);
    var r := roots[FirstMax(Sizes(g, roots))];
    assert r in Elements(order) && Component(g, r) == Largest(fs);
    forall k | k in g
      ensures |Component(g, k)| <= |Largest(fs)|
    {
      NoneIsLarger(fs, k);
    }
  }

  lemma {:induction false} ReportParts(fs: seq<Feature>)
    ensures var g, r := GraphOf(fs), Report(fs);
            && r.totalNodes == |g.Keys| && r.totalEdges == |LinesOf(fs)|
            && r.connectedComponents == |ComponentsOf(g)| && r.isolatedNodes == |IsolatedIn(g)|
  {
    var g, order := GraphOf(fs), Keys(fs);
    var roots := Roots(g, order);
    GraphIsUndirected(fs);
    KeysAreNodes(fs);
    LinesAreCounted(fs);
    RootsAreAll(g, order);
    RootsDiffer(g, order);
    DistinctAreCounted(RootComponents(g, roots), |roots|);
    OnesBeside(roots, Sizes(g, roots), |roots|);
    assert Sizes(g, roots)[..|roots|] == Sizes(g, roots);
    hide ComponentsOf, IsolatedIn, Firsts, WithOne, LinesOf, CountLines, CountOnes;
  }

  /**
   * Of any network: nodes, lines, components and lone nodes are counted, the
   * share is that of the largest component, and it passes exactly when some
   * component has 95 of 100 nodes and fewer than 5 of 100 are alone.
   */
  lemma {:induction false} ReportMeans(fs: seq<Feature>)
    ensures var g, r := GraphOf(fs), Report(fs);
            var n := |g.Keys|;
            && r.totalNodes == n && r.totalEdges == |LinesOf(fs)|
            && r.connectedComponents == |ComponentsOf(g)| && r.isolatedNodes == |IsolatedIn(g)|
            && (r.passed <==> (exists k :: k in g && 100 * |Component(g, k)| >= 95 * n) && 20 * |IsolatedIn(g)| < n)
            && (n == 0 ==> r.largestComponentPct == 0.0)
            && (n > 0 ==> -0.05 <= r.largestComponentPct - |Largest(fs)| as real / n as real * 100.0 <= 0.05)
  {
    var g := GraphOf(fs);
    var n, sizes := |g.Keys|, Sizes(g, Roots(g, Keys(fs)));
    ReportParts(fs);
    hide ComponentsOf, IsolatedIn, LinesOf, CountLines, CountOnes, Roots, Sizes, GraphOf, Keys, Largest, Component;
    hide Share, RoundToTenth;
    if n > 0 {
      LargestShare(fs);
      Shares(|Largest(fs)|, n, |IsolatedIn(g)|);
      TenthIsNear(Share(sizes, n));
    } else {
      NoShare(sizes);
      assert g.Keys == {};
    }
  }

  lemma NoShare(sizes: seq<nat>)
    ensures Share(sizes, 0) == 0.0 && RoundToTenth(0.0) == 0.0
  {
  }

  /** The component sizes in a report's making sum to its node count. */
  lemma ReportCountsEveryNode(fs: seq<Feature>)
    ensures Sum(Sizes(GraphOf(fs), Roots(GraphOf(fs), Keys(fs)))) == Report(fs).totalNodes
  {
    GraphIsUndirected(fs);
    SizesSumToNodes(GraphOf(fs), Keys(fs));
  }
}
