/** The paths of graph.go and their heap, with the heaviest path at the root, with the
    sifting of container/heap that its Push and Pop rely on. */
module PathHeaps {
  import opened Routes

  /** A path under construction, or one that has been collected. */
  class Path {
    var nodes: seq<Gid>
    var edges: seq<Gid>

    constructor ()
      ensures nodes == [] && edges == []
    {
      nodes, edges := [], [];
    }

    function Legs(): Route
      reads this
    {
      Route(nodes, edges)
    }

    /** Starts a new path at src. */
    method Reset(src: Gid)
      modifies `nodes, `edges
      ensures Legs() == Route([src], [])
    {
      nodes := [src];
      edges := [];
    }

    /** Adds a leg. */
    method Add(n: Gid, e: Gid)
      modifies `nodes, `edges
      ensures Legs() == Extend(old(Legs()), n, e)
    {
      nodes := nodes + [n];
      edges := edges + [e];
    }

    /** Removes the last leg. */
    method Pop() returns (n: Gid, e: Gid)
      requires nodes != [] && edges != []
      modifies `nodes, `edges
      ensures old(Legs()) == Extend(Legs(), n, e)
    {
      var i, j := |nodes| - 1, |edges| - 1;
      n, e := nodes[i], edges[j];
      nodes, edges := nodes[..i], edges[..j];
    }

    method Contains(n: Gid) returns (found: bool)
      ensures found <==> n in nodes
    {
      for i := 0 to |nodes|
        invariant n !in nodes[..i]
      {
        if nodes[i] == n {
          return true;
        }
      }
      return false;
    }
  }

  /** A collected path: which of the pooled paths it is, a copy of the legs, and their weight. */
  datatype Item = Item(id: nat, route: Route, weight: real)

  // ----- Heap order -----

  function Parent(i: nat): (p: nat)
    requires i >= 1
    ensures p < i
  {
    (i - 1) / 2
  }

  predicate IsChild(i: nat, j: nat) {
    i >= 1 && Parent(i) == j
  }

  /** The path at i is no heavier than its parent. */
  ghost predicate Below(s: seq<Item>, i: nat)
    requires 1 <= i < |s|
  {
    s[Parent(i)].weight >= s[i].weight
  }

  ghost predicate Ordered(s: seq<Item>)
  {
    forall i {:trigger Below(s, i)} :: 1 <= i < |s| ==> Below(s, i)
  }

  /** Ordered, except that the path at j may be heavier than its parent; its children are not. */
  ghost predicate OrderedAbove(s: seq<Item>, j: nat)
  {
    && (forall i {:trigger Below(s, i)} :: 1 <= i < |s| && i != j ==> Below(s, i))
    && (forall i {:trigger IsChild(i, j)} :: 1 <= i < |s| && IsChild(i, j) && j >= 1 ==> s[Parent(j)].weight >= s[i].weight)
  }

  /** Ordered, except that the path at j may be lighter than its children; its parent is not. */
  ghost predicate OrderedBelow(s: seq<Item>, j: nat)
  {
    && (forall i {:trigger Below(s, i)} :: 1 <= i < |s| && !IsChild(i, j) ==> Below(s, i))
    && (forall i {:trigger IsChild(i, j)} :: 1 <= i < |s| && IsChild(i, j) && j >= 1 ==> s[Parent(j)].weight >= s[i].weight)
  }

  /** The root is the heaviest. */
  lemma {:induction false} RootIsHeaviest(s: seq<Item>, i: nat)
    requires Ordered(s) && i < |s|
    ensures s[0].weight >= s[i].weight
  {
    if i > 0 {
      assert Below(s, i);
      RootIsHeaviest(s, Parent(i));
    }
  }

  function Swapped(s: seq<Item>, i: nat, j: nat): (t: seq<Item>)
    requires i < |s| && j < |s|
    ensures |t| == |s| && multiset(t) == multiset(s)
  {
    s[i := s[j]][j := s[i]]
  }

  /** One step of sifting up. */
  lemma SiftUpStep(s: seq<Item>, j: nat)
    requires 1 <= j < |s| && OrderedAbove(s, j) && s[j].weight > s[Parent(j)].weight
    ensures OrderedAbove(Swapped(s, Parent(j), j), Parent(j))
  {
    var p := Parent(j);
    var t := Swapped(s, p, j);
    assert p >= 1 ==> Below(s, p);
    forall i | 1 <= i < |t| && i != p ensures Below(t, i) {
      if i != j && !IsChild(i, j) { assert Below(s, i); }
    }
    forall i | 1 <= i < |t| && IsChild(i, p) && p >= 1 ensures t[Parent(p)].weight >= t[i].weight {
      assert Below(s, p);
      if i != j { assert Below(s, i); }
    }
  }

  /** One step of sifting down: the heavier child c of j moves up. */
  lemma SiftDownStep(s: seq<Item>, j: nat, c: nat)
    requires j < c < |s| && IsChild(c, j) && OrderedBelow(s, j) && s[c].weight > s[j].weight
    requires forall i {:trigger IsChild(i, j)} :: 1 <= i < |s| && IsChild(i, j) ==> s[c].weight >= s[i].weight
    ensures OrderedBelow(Swapped(s, j, c), c)
  {
    var t := Swapped(s, j, c);
    forall i | 1 <= i < |t| && !IsChild(i, c) ensures Below(t, i) {
      if !IsChild(i, j) { assert Below(s, i); }
    }
    forall i | 1 <= i < |t| && IsChild(i, c) ensures t[Parent(c)].weight >= t[i].weight {
      assert Below(s, i);
    }
  }

  /** Sifting down ends where no child is heavier. */
  lemma SiftDownDone(s: seq<Item>, j: nat)
    requires OrderedBelow(s, j)
    requires forall i {:trigger IsChild(i, j)} :: 1 <= i < |s| && IsChild(i, j) ==> s[j].weight >= s[i].weight
    ensures Ordered(s)
  {
    forall i | 1 <= i < |s| ensures Below(s, i) {
      if IsChild(i, j) { assert s[Parent(i)].weight >= s[i].weight; }
    }
  }

  lemma AppendOrdered(s: seq<Item>, p: Item)
    requires Ordered(s)
    ensures OrderedAbove(s + [p], |s|)
  {
    forall i | 1 <= i < |s + [p]| && i != |s| ensures Below(s + [p], i) {
      assert Below(s, i);
    }
  }

  /** When the last path has taken the place of the root, only the root may be out of order. */
  lemma LastToRoot(s: seq<Item>)
    requires Ordered(s) && s != []
    ensures var t, n := Swapped(s, 0, |s| - 1), |s| - 1;
            && OrderedBelow(t[..n], 0) && t[n] == s[0]
            && multiset(s) == multiset(t[..n]) + multiset{s[0]}
  {
    var t, n := Swapped(s, 0, |s| - 1), |s| - 1;
    forall i | 1 <= i < n && !IsChild(i, 0) ensures Below(t[..n], i) {
      assert Below(s, i);
    }
    assert t == t[..n] + [t[n]];
  }

  class PathHeap {
    var items: seq<Item>

    constructor ()
      ensures items == []
    {
      items := [];
    }

    method Swap(i: nat, j: nat)
      requires i < |items| && j < |items|
      modifies this
      ensures items == Swapped(old(items), i, j)
    {
      items := items[i := items[j]][j := items[i]];
    }

    /** heap.Push: appends the path and sifts it up. */
    method Push(p: Item)
      requires Ordered(items)
      modifies this
      ensures Ordered(items) && multiset(items) == multiset(old(items)) + multiset{p}
    {
      AppendOrdered(items, p);
      items := items + [p];
      Up(|items| - 1);
    }

    /** heap.Pop: the root changes places with the last path, which is sifted down; the old root is removed. */
    method Pop() returns (p: Item)
      requires Ordered(items) && items != []
      modifies this
      ensures Ordered(items) && p == old(items)[0] && multiset(old(items)) == multiset(items) + multiset{p}
    {
      var n := |items| - 1;
      LastToRoot(items);
      Swap(0, n);
      ghost var s := Down(0, n, items[..n], items[n..]);
      p := items[n];
      items := items[..n];
      assert items == s;
    }

    /** heap.Pop again, with what callers want to know: the popped path is a heaviest one. */
    method PopHeaviest() returns (p: Item)
      requires Ordered(items) && items != []
      modifies this
      ensures Ordered(items) && |items| == |old(items)| - 1
      ensures p in old(items) && multiset(old(items)) == multiset(items) + multiset{p}
      ensures forall k :: k in old(items) ==> p.weight >= k.weight
    {
      forall k | k in items ensures items[0].weight >= k.weight {
        var i :| 0 <= i < |items| && items[i] == k;
        RootIsHeaviest(items, i);
      }
      assert |multiset(items)| == |items|;
      p := Pop();
      assert |multiset(items)| == |items|;
    }

    method Up(j0: nat)
      requires j0 < |items| && OrderedAbove(items, j0)
      modifies this
      ensures Ordered(items) && multiset(items) == multiset(old(items))
    {
      var j: nat := j0;
      while true
        invariant j < |items| && OrderedAbove(items, j)
        invariant multiset(items) == multiset(old(items))
        decreases j
      {
        var i := if j == 0 then 0 else (j - 1) / 2;
        if i == j || !(items[j].weight > items[i].weight) {
          break;
        }
        SiftUpStep(items, j);
        Swap(i, j);
        j := i;
      }
    }

    /** Sifts the path at i0 down among the first n, which are the list s; the others are the list rest. */
    method Down(i0: nat, n: nat, ghost s0: seq<Item>, ghost rest: seq<Item>) returns (ghost s: seq<Item>)
      requires items == s0 + rest && n == |s0| && (n > 0 ==> i0 < n) && OrderedBelow(s0, i0)
      modifies this
      ensures items == s + rest && |s| == n && Ordered(s) && multiset(s) == multiset(s0)
    {
      var i: nat := i0;
      s := s0;
      while true
        invariant items == s + rest && |s| == n && multiset(s) == multiset(s0)
        invariant (n > 0 ==> i < n) && OrderedBelow(s, i)
        decreases n - i
      {
        var j := HeavierChild(i, n, s, rest);
        if j == n || !(items[j].weight > items[i].weight) {
          SiftDownDone(s, i);
          break;
        }
        SiftDownStep(s, i, j);
        Swap(i, j);
        s := Swapped(s, i, j);
        i := j;
      }
    }

    /** The heavier of the children of i among the first n, or n if it has none. */
    method HeavierChild(i: nat, n: nat, ghost s: seq<Item>, ghost rest: seq<Item>) returns (j: nat)
      requires items == s + rest && n == |s|
      ensures j <= n
      ensures j < n ==> i < j && IsChild(j, i)
      ensures j < n ==> forall c {:trigger IsChild(c, i)} :: 1 <= c < n && IsChild(c, i) ==> s[j].weight >= s[c].weight
      ensures j == n ==> forall c {:trigger IsChild(c, i)} :: 1 <= c < n ==> !IsChild(c, i)
    {
      var j1 := 2 * i + 1;
      if j1 >= n {
        return n;
      }
      j := j1;
      if j1 + 1 < n && items[j1 + 1].weight > items[j1].weight {
        j := j1 + 1;
      }
    }
  }
}
