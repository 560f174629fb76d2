/**
 * Which component pruning keeps (prune.ts:19-71): none is larger, and of those
 * of its size it is the one the file comes to first.
 */
module PruneOrder {
  import opened Components
  import opened RoadGraph
  import opened Prune

  /** All coordinates of all lines, in the order of the file. */
  function InFile(fs: seq<Feature>): seq<Key> {
    if fs == [] then [] else InFile(fs[..|fs| - 1]) + Coords(fs[|fs| - 1])
  }

  /** Where a key comes first. */
  function FirstAt(s: seq<Key>, k: Key): (i: nat)
    requires k in s
    ensures i < |s| && s[i] == k && forall j :: 0 <= j < i ==> s[j] != k
  {
    if s[0] == k then 0 else 1 + FirstAt(s[1..], k)
  }

  lemma FirstIsUnique(s: seq<Key>, k: Key, i: nat)
    requires i < |s| && s[i] == k && forall j :: 0 <= j < i ==> s[j] != k
    ensures FirstAt(s, k) == i
  {
  }

  /** The keys are those of the list, once each, in the order they come first. */
  ghost predicate ByFirst(keys: seq<Key>, s: seq<Key>) {
    && (forall k :: k in keys <==> k in s)
    && InOrder(s, keys)
  }

  predicate Earlier(s: seq<Key>, a: Key, b: Key) {
    a in s && b in s && FirstAt(s, a) < FirstAt(s, b)
  }

  lemma EarlierGrows(s: seq<Key>, k: Key, a: Key)
    requires a in s
    ensures forall b :: b in s ==> (Earlier(s + [k], a, b) <==> Earlier(s, a, b))
    ensures k !in s ==> Earlier(s + [k], a, k)
  {
    var all := s + [k];
    FirstIsUnique(all, a, FirstAt(s, a));
    forall b | b in s
      ensures FirstAt(all, b) == FirstAt(s, b)
    {
      FirstIsUnique(all, b, FirstAt(s, b));
    }
    if k !in s {
      FirstIsUnique(all, k, |s|);
    }
  }

  lemma ByFirstOneMore(keys: seq<Key>, s: seq<Key>, k: Key)
    requires ByFirst(keys, s)
    ensures ByFirst(if k in keys then keys else keys + [k], s + [k])
  {
    var after := if k in keys then keys else keys + [k];
    forall i, j | 0 <= i < j < |after|
      ensures Earlier(s + [k], after[i], after[j])
    {
      assert after[i] == keys[i] && after[i] in s;
      EarlierGrows(s, k, after[i]);
      assert j < |keys| ==> Earlier(s, keys[i], keys[j]);
    }
  }

  lemma {:induction false} ExtendIsByFirst(keys: seq<Key>, s: seq<Key>, more: seq<Key>)
    requires ByFirst(keys, s)
    ensures ByFirst(Extend(keys, more), s + more)
  {
    if more == [] {
      assert s + more == s;
    } else {
      var front, last := more[..|more| - 1], more[|more| - 1];
      ExtendIsByFirst(keys, s, front);
      assert s + more == (s + front) + [last];
      hide ByFirst;
      ByFirstOneMore(Extend(keys, front), s + front, last);
    }
  }

  /** Nodes come in the order of the file. */
  lemma {:induction false} KeysAreByFirst(fs: seq<Feature>)
    ensures ByFirst(Keys(fs), InFile(fs))
  {
    if fs != [] {
      KeysAreByFirst(fs[..|fs| - 1]);
      ExtendIsByFirst(Keys(fs[..|fs| - 1]), InFile(fs[..|fs| - 1]), Coords(fs[|fs| - 1]));
    }
  }

  // ---- Each component has its first node for a root ----

  ghost predicate InOrder(s: seq<Key>, keys: seq<Key>) {
    forall i, j :: 0 <= i < j < |keys| ==> Earlier(s, keys[i], keys[j])
  }

  lemma InOrderFront(s: seq<Key>, keys: seq<Key>, last: Key)
    requires InOrder(s, keys + [last])
    ensures InOrder(s, keys) && forall k :: k in keys ==> Earlier(s, k, last)
  {
    var all := keys + [last];
    forall k | k in keys
      ensures Earlier(s, k, last)
    {
      var n :| 0 <= n < |keys| && keys[n] == k;
      assert all[n] == k && all[|keys|] == last;
    }
    forall i, j | 0 <= i < j < |keys|
      ensures Earlier(s, keys[i], keys[j])
    {
      assert all[i] == keys[i] && all[j] == keys[j];
    }
  }

  lemma InOrderGrows(s: seq<Key>, keys: seq<Key>, last: Key)
    requires InOrder(s, keys) && forall k :: k in keys ==> Earlier(s, k, last)
    ensures InOrder(s, keys + [last])
  {
  }

  /** Roots come in key order. */
  lemma {:induction false} RootsAreFirst(g: Graph, order: seq<Key>, s: seq<Key>)
    requires InOrder(s, order)
    ensures InOrder(s, Roots(g, order))
  {
    if order != [] {
      var front, last := order[..|order| - 1], order[|order| - 1];
      assert order == front + [last];
      hide InOrder, Earlier;
      InOrderFront(s, front, last);
      RootsAreFirst(g, front, s);
      RootsAreApart(g, front);
      InOrderGrows(s, Roots(g, front), last);
    } else {
      assert Roots(g, order) == [];
    }
  }

  /** And each before all other nodes it reaches. */
  lemma {:induction false} RootIsEarliest(g: Graph, order: seq<Key>, s: seq<Key>, k: Key) returns (i: nat)
    requires InOrder(s, order) && k in order
    ensures i < |Roots(g, order)| && Reach(g, Roots(g, order)[i], k)
    ensures Roots(g, order)[i] == k || Earlier(s, Roots(g, order)[i], k)
  {
    hide InOrder, Earlier, Reach;
    var front, last := order[..|order| - 1], order[|order| - 1];
    var before := Roots(g, front);
    assert order == front + [last];
    InOrderFront(s, front, last);
    RootsAreApart(g, front);
    if k in front {
      i := RootIsEarliest(g, front, s, k);
    } else if exists j :: 0 <= j < |before| && Reach(g, before[j], last) {
      i :| 0 <= i < |before| && Reach(g, before[i], last);
    } else {
      ReachSelf(g, last);
      i := |before|;
    }
  }

  /** No component is larger than the one kept. */
  lemma NoneIsLarger(fs: seq<Feature>, k: Key)
    requires k in GraphOf(fs)
    ensures |Component(GraphOf(fs), k)| <= |Largest(fs)|
  {
    var g, order := GraphOf(fs), Keys(fs);
    var i := RootOf(g, order, k);
    GraphIsUndirected(fs);
    SameComponent(g, Roots(g, order)[i], k);
    assert Sizes(g, Roots(g, order))[i] == |Component(g, k)|;
  }

  /** Of components as large, the file comes to the kept one first. */
  lemma KeptIsFirst(fs: seq<Feature>, k: Key) returns (first: Key)
    requires k in GraphOf(fs) && k !in Largest(fs) && |Component(GraphOf(fs), k)| == |Largest(fs)|
    ensures first in Largest(fs) && Earlier(InFile(fs), first, k)
  {
    var g, order, s := GraphOf(fs), Keys(fs), InFile(fs);
    var roots := Roots(g, order);
    KeysAreByFirst(fs);
    GraphIsUndirected(fs);
    RootsAreFirst(g, order, s);
    var i := RootIsEarliest(g, order, s, k);
    SameComponent(g, roots[i], k);
    var m := FirstMax(Sizes(g, roots));
    first := roots[m];
    RootsAreApart(g, order);
    ReachSelf(g, first);
    assert Sizes(g, roots)[i] == |Component(g, k)| == Sizes(g, roots)[m];
    assert i != m;
    assert Earlier(s, roots[m], roots[i]);
  }
}
