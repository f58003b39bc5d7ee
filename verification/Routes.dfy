/** Routes through the graph of graph.go: the simple paths between two nodes, and the recursive
    depth-first enumeration that the iterative search has to reproduce. */
module Routes {
  import opened Sequences

  /** Identifiers are 32-bit; the largest one marks the end of the edges of a node on the stack. */
  const MARKER: nat := 0xFFFF_FFFF
  type Gid = n: nat | n <= MARKER

  datatype Node = Node(id: Gid, loc: string, from: seq<Gid>, to: seq<Gid>)
  datatype Edge = Edge(id: Gid, weight: real, from: Gid, to: Gid)
  datatype Net = Net(nodes: seq<Node>, edges: seq<Edge>)
  datatype Route = Route(nodes: seq<Gid>, edges: seq<Gid>)

  /** Each node lists exactly the edges that leave it, once each, and no edge looks like the marker. */
  ghost predicate WellFormed(g: Net) {
    && |g.edges| <= MARKER
    && (forall e :: 0 <= e < |g.edges| ==> g.edges[e].from < |g.nodes| && g.edges[e].to < |g.nodes|)
    && (forall n: nat, e: Gid :: n < |g.nodes| ==>
          (e in g.nodes[n].to <==> e < |g.edges| && g.edges[e].from == n))
    && (forall n :: 0 <= n < |g.nodes| ==> NoRepeat(g.nodes[n].to))
  }

  predicate EdgesOf(g: Net, es: seq<Gid>) {
    forall i :: 0 <= i < |es| ==> es[i] < |g.edges|
  }

  function Extend(r: Route, n: Gid, e: Gid): Route {
    Route(r.nodes + [n], r.edges + [e])
  }

  lemma OutgoingEdge(g: Net, n: nat, e: Gid)
    requires WellFormed(g) && n < |g.nodes| && e in g.nodes[n].to
    ensures e < |g.edges| && g.edges[e].from == n
  {
  }

  lemma OutgoingEdges(g: Net, n: Gid)
    requires WellFormed(g) && n < |g.nodes|
    ensures EdgesOf(g, g.nodes[n].to)
    ensures forall i :: 0 <= i < |g.nodes[n].to| ==> g.edges[g.nodes[n].to[i]].from == n
  {
    forall i | 0 <= i < |g.nodes[n].to|
      ensures g.nodes[n].to[i] < |g.edges| && g.edges[g.nodes[n].to[i]].from == n
    {
      var e := g.nodes[n].to[i];
      OutgoingEdge(g, n, e);
    }
  }

  /** A length as an identifier: the conversion to 32 bits truncates. */
  function Id(n: nat): Gid {
    n % (MARKER + 1)
  }

  /** The graph with one more node. */
  function WithNode(g: Net, loc: string): Net {
    Net(g.nodes + [Node(Id(|g.nodes|), loc, [], [])], g.edges)
  }

  lemma WithNodeWellFormed(g: Net, loc: string)
    requires WellFormed(g)
    ensures WellFormed(WithNode(g, loc))
  {
    var h := WithNode(g, loc);
    forall n: nat | n < |h.nodes|
      ensures NoRepeat(h.nodes[n].to)
      ensures forall e: Gid :: e in h.nodes[n].to <==> e < |h.edges| && h.edges[e].from == n
    {
      if n < |g.nodes| {
        assert h.nodes[n] == g.nodes[n] && NoRepeat(g.nodes[n].to);
        forall e: Gid ensures e in g.nodes[n].to <==> e < |g.edges| && g.edges[e].from == n {
          ListedEdge(g, n, e);
        }
      }
    }
  }

  lemma ListedEdge(g: Net, n: nat, e: Gid)
    requires WellFormed(g) && n < |g.nodes|
    ensures e in g.nodes[n].to <==> e < |g.edges| && g.edges[e].from == n
  {
  }

  /** The graph with one more direct route. */
  function WithEdge(g: Net, from: Gid, to: Gid, weight: real): Net
    requires from < |g.nodes| && to < |g.nodes|
  {
    var id := Id(|g.edges|);
    var ns := g.nodes[from := g.nodes[from].(to := g.nodes[from].to + [id])];
    Net(ns[to := ns[to].(from := ns[to].from + [id])], g.edges + [Edge(id, weight, from, to)])
  }

  /** The graph stays well formed exactly as long as the new edge does not look like the marker. */
  lemma WithEdgeWellFormed(g: Net, from: Gid, to: Gid, weight: real)
    requires WellFormed(g) && from < |g.nodes| && to < |g.nodes|
    ensures WellFormed(WithEdge(g, from, to, weight)) <==> |g.edges| < MARKER
  {
    if |g.edges| < MARKER {
      EdgeListed(g, from, to, weight);
    }
  }

  lemma EdgeListed(g: Net, from: Gid, to: Gid, weight: real)
    requires WellFormed(g) && from < |g.nodes| && to < |g.nodes| && |g.edges| < MARKER
    ensures WellFormed(WithEdge(g, from, to, weight))
  {
    var h, id := WithEdge(g, from, to, weight), Id(|g.edges|);
    forall n: nat | n < |h.nodes|
      ensures NoRepeat(h.nodes[n].to)
      ensures forall e: Gid :: e in h.nodes[n].to <==> e < |h.edges| && h.edges[e].from == n
    {
      assert h.nodes[n].to == if n == from then g.nodes[n].to + [id] else g.nodes[n].to;
      assert NoRepeat(g.nodes[n].to);
      ListedEdge(g, n, id);
      forall e: Gid ensures e in h.nodes[n].to <==> e < |h.edges| && h.edges[e].from == n {
        ListedEdge(g, n, e);
      }
    }
  }

  // ----- The specification: simple paths -----

  ghost predicate Leg(g: Net, n: Gid, e: Gid, n': Gid) {
    e < |g.edges| && g.edges[e].from == n && g.edges[e].to == n'
  }

  /** A path over edges of the graph that visits no node twice. */
  ghost predicate Simple(g: Net, src: Gid, dst: Gid, q: Route) {
    && |q.nodes| == |q.edges| + 1 && q.nodes[0] == src && q.nodes[|q.edges|] == dst
    && NoRepeat(q.nodes)
    && forall i :: 0 <= i < |q.edges| ==> Leg(g, q.nodes[i], q.edges[i], q.nodes[i + 1])
  }

  // ----- What a new node and a new edge add -----

  /** A new node is on no leg, and every other leg stays. */
  lemma LegsWithNode(g: Net, loc: string, n: Gid, e: Gid, n': Gid)
    requires WellFormed(g)
    ensures Leg(WithNode(g, loc), n, e, n') <==> Leg(g, n, e, n')
    ensures Leg(WithNode(g, loc), n, e, n') ==> n < |g.nodes| && n' < |g.nodes|
  {
  }

  /** The new edge leads from one node to the other, with its weight, and every other leg stays. */
  lemma LegsWithEdge(g: Net, from: Gid, to: Gid, weight: real, n: Gid, e: Gid, n': Gid)
    requires WellFormed(g) && from < |g.nodes| && to < |g.nodes| && |g.edges| < MARKER
    ensures Leg(WithEdge(g, from, to, weight), n, e, n') <==>
            Leg(g, n, e, n') || (e == |g.edges| && n == from && n' == to)
    ensures EdgeWeight(WithEdge(g, from, to, weight), e) == if e == |g.edges| then weight else EdgeWeight(g, e)
  {
  }

  /** Every simple path stays one, with its weight. */
  lemma SimpleWithEdge(g: Net, from: Gid, to: Gid, weight: real, src: Gid, dst: Gid, q: Route)
    requires WellFormed(g) && from < |g.nodes| && to < |g.nodes| && |g.edges| < MARKER && Simple(g, src, dst, q)
    ensures Simple(WithEdge(g, from, to, weight), src, dst, q)
    ensures Weight(WithEdge(g, from, to, weight), q.edges) == Weight(g, q.edges)
  {
    var h := WithEdge(g, from, to, weight);
    forall i | 0 <= i < |q.edges|
      ensures Leg(h, q.nodes[i], q.edges[i], q.nodes[i + 1]) && EdgeWeight(h, q.edges[i]) == EdgeWeight(g, q.edges[i])
    {
      assert Leg(g, q.nodes[i], q.edges[i], q.nodes[i + 1]);
      LegsWithEdge(g, from, to, weight, q.nodes[i], q.edges[i], q.nodes[i + 1]);
    }
    SameWeight(g, h, q.edges);
  }

  lemma {:induction false} SameWeight(g: Net, h: Net, es: seq<Gid>)
    requires forall i :: 0 <= i < |es| ==> EdgeWeight(h, es[i]) == EdgeWeight(g, es[i])
    ensures Weight(h, es) == Weight(g, es)
  {
    if es != [] {
      SameWeight(g, h, es[..|es| - 1]);
    }
  }

  /** Between different nodes the new edge is a simple path of its own, of its weight. */
  lemma EdgeIsPath(g: Net, from: Gid, to: Gid, weight: real)
    requires WellFormed(g) && from < |g.nodes| && to < |g.nodes| && |g.edges| < MARKER && from != to
    ensures var h, q := WithEdge(g, from, to, weight), Route([from, to], [|g.edges|]);
            Simple(h, from, to, q) && Weight(h, q.edges) == weight
  {
    var h, q := WithEdge(g, from, to, weight), Route([from, to], [|g.edges|]);
    LegsWithEdge(g, from, to, weight, from, |g.edges|, to);
    assert [from, to][0] == from && [from, to][1] == to;
    WeightOfOne(h, |g.edges|);
  }

  /** A simple path that is not one before takes the new edge. */
  lemma NewPathTakesEdge(g: Net, from: Gid, to: Gid, weight: real, src: Gid, dst: Gid, q: Route)
    requires WellFormed(g) && from < |g.nodes| && to < |g.nodes| && |g.edges| < MARKER
    requires Simple(WithEdge(g, from, to, weight), src, dst, q) && |g.edges| !in q.edges
    ensures Simple(g, src, dst, q)
  {
    var h := WithEdge(g, from, to, weight);
    forall i | 0 <= i < |q.edges| ensures Leg(g, q.nodes[i], q.edges[i], q.nodes[i + 1]) {
      assert Leg(h, q.nodes[i], q.edges[i], q.nodes[i + 1]);
      LegsWithEdge(g, from, to, weight, q.nodes[i], q.edges[i], q.nodes[i + 1]);
    }
  }

  // ----- Recursive depth-first enumeration -----

  ghost function Unvisited(g: Net, nodes: seq<Gid>): set<Gid> {
    set n: Gid | n < |g.nodes| && n !in nodes
  }

  lemma VisitShrinks(g: Net, nodes: seq<Gid>, n: Gid)
    requires n < |g.nodes| && n !in nodes
    ensures |Unvisited(g, nodes + [n])| < |Unvisited(g, nodes)|
  {
    assert Unvisited(g, nodes + [n]) == Unvisited(g, nodes) - {n};
  }

  /** Where the edge e leads from the end of r. */
  ghost function Branch(g: Net, dst: Gid, r: Route, e: Gid): seq<Route>
    requires WellFormed(g) && e < |g.edges|
    decreases |Unvisited(g, r.nodes)|, 0, 0
  {
    var n := g.edges[e].to;
    if n in r.nodes then []
    else if n == dst then [Extend(r, n, e)]
    else
      VisitShrinks(g, r.nodes, n);
      OutgoingEdges(g, n);
      Explore(g, dst, Extend(r, n, e), g.nodes[n].to)
  }

  /** All continuations of r over one of the edges es, the last edge first. */
  ghost function Explore(g: Net, dst: Gid, r: Route, es: seq<Gid>): seq<Route>
    requires WellFormed(g) && EdgesOf(g, es)
    decreases |Unvisited(g, r.nodes)|, 1, |es|
  {
    if es == [] then []
    else
      var last := |es| - 1;
      Branch(g, dst, r, es[last]) + Explore(g, dst, r, es[..last])
  }

  /** q continues r over one of the edges es, simply, up to dst. */
  ghost predicate Continues(g: Net, dst: Gid, r: Route, es: seq<Gid>, q: Route) {
    && |q.nodes| == |q.edges| + 1 && |q.edges| > |r.edges|
    && r.nodes <= q.nodes && r.edges <= q.edges && q.edges[|r.edges|] in es
    && NoRepeat(q.nodes) && q.nodes[|q.edges|] == dst
    && forall i :: |r.edges| <= i < |q.edges| ==> Leg(g, q.nodes[i], q.edges[i], q.nodes[i + 1])
  }

  /** r is a simple path that has not reached dst, and es are edges that leave its end. */
  ghost predicate Open(g: Net, dst: Gid, r: Route, es: seq<Gid>) {
    && |r.nodes| == |r.edges| + 1 && NoRepeat(r.nodes) && dst !in r.nodes
    && forall i :: 0 <= i < |es| ==> es[i] < |g.edges| && g.edges[es[i]].from == r.nodes[|r.edges|]
  }

  /** The enumeration lists exactly the simple continuations. */
  lemma {:induction false} ExploreExact(g: Net, dst: Gid, r: Route, es: seq<Gid>, q: Route)
    requires WellFormed(g) && Open(g, dst, r, es)
    ensures q in Explore(g, dst, r, es) <==> Continues(g, dst, r, es, q)
    decreases |Unvisited(g, r.nodes)|, 1, |es|
  {
    if es != [] {
      var last := |es| - 1;
      BranchExact(g, dst, r, es[last], q);
      ExploreExact(g, dst, r, es[..last], q);
      assert es == es[..last] + [es[last]];
    }
  }

  lemma {:induction false} BranchExact(g: Net, dst: Gid, r: Route, e: Gid, q: Route)
    requires WellFormed(g) && Open(g, dst, r, [e]) && e < |g.edges|
    ensures q in Branch(g, dst, r, e) <==> Continues(g, dst, r, [e], q)
    decreases |Unvisited(g, r.nodes)|, 0, 0
  {
    assert [e][0] == e;
    var n := g.edges[e].to;
    if n in r.nodes {
      LoopsDoNotContinue(g, dst, r, e, q);
    } else if n == dst {
      ArrivalContinues(g, dst, r, e, q);
    } else {
      VisitShrinks(g, r.nodes, n);
      var s := Extend(r, n, e);
      OutgoingEdges(g, n);
      ExploreExact(g, dst, s, g.nodes[n].to, q);
      StepContinues(g, dst, r, e, q);
    }
  }

  lemma LoopsDoNotContinue(g: Net, dst: Gid, r: Route, e: Gid, q: Route)
    requires WellFormed(g) && Open(g, dst, r, [e]) && e < |g.edges| && g.edges[e].to in r.nodes
    ensures !Continues(g, dst, r, [e], q)
  {
    var n, m := g.edges[e].to, |r.edges|;
    assert Continues(g, dst, r, [e], q) ==> Leg(g, q.nodes[m], q.edges[m], q.nodes[m + 1]);
    var i :| 0 <= i < |r.nodes| && r.nodes[i] == n;
  }

  lemma ArrivalContinues(g: Net, dst: Gid, r: Route, e: Gid, q: Route)
    requires WellFormed(g) && Open(g, dst, r, [e]) && e < |g.edges| && g.edges[e].to == dst
    ensures Continues(g, dst, r, [e], q) <==> q == Extend(r, dst, e)
  {
    var m := |r.edges|;
    if Continues(g, dst, r, [e], q) {
      assert Leg(g, q.nodes[m], q.edges[m], q.nodes[m + 1]);
      assert q.nodes[m + 1] == dst && |q.edges| == m + 1;
      assert q.nodes == r.nodes + [dst] && q.edges == r.edges + [e];
    }
    var a := Extend(r, dst, e);
    assert [e][0] == e;
    assert Leg(g, a.nodes[m], a.edges[m], a.nodes[m + 1]);
  }

  lemma StepContinues(g: Net, dst: Gid, r: Route, e: Gid, q: Route)
    requires WellFormed(g) && Open(g, dst, r, [e]) && e < |g.edges|
    requires g.edges[e].to != dst && g.edges[e].to !in r.nodes
    ensures var n := g.edges[e].to;
            Continues(g, dst, r, [e], q) <==> Continues(g, dst, Extend(r, n, e), g.nodes[n].to, q)
  {
    var n, m := g.edges[e].to, |r.edges|;
    var s := Extend(r, n, e);
    if Continues(g, dst, r, [e], q) {
      assert Leg(g, q.nodes[m], q.edges[m], q.nodes[m + 1]);
      assert |q.edges| > m + 1;
      assert Leg(g, q.nodes[m + 1], q.edges[m + 1], q.nodes[m + 2]);
      assert s.nodes <= q.nodes && s.edges <= q.edges;
    }
    if Continues(g, dst, s, g.nodes[n].to, q) {
      assert q.nodes[m] == s.nodes[m] && q.edges[m] == s.edges[m] && q.nodes[m + 1] == s.nodes[m + 1];
      assert [e][0] == e;
      assert Leg(g, q.nodes[m], q.edges[m], q.nodes[m + 1]);
      assert r.nodes <= q.nodes && r.edges <= q.edges;
    }
  }

  /** No route is listed twice. */
  lemma {:induction false} ExploreOnce(g: Net, dst: Gid, r: Route, es: seq<Gid>)
    requires WellFormed(g) && Open(g, dst, r, es) && NoRepeat(es)
    ensures NoRepeat(Explore(g, dst, r, es))
    decreases |Unvisited(g, r.nodes)|, 1, |es|
  {
    if es != [] {
      var last := |es| - 1;
      var e, rest := es[last], es[..last];
      BranchOnce(g, dst, r, e);
      ExploreOnce(g, dst, r, rest);
      forall q | q in Branch(g, dst, r, e) ensures q !in Explore(g, dst, r, rest) {
        BranchExact(g, dst, r, e, q);
        ExploreExact(g, dst, r, rest, q);
        assert q.edges[|r.edges|] == e && e !in rest;
      }
      NoRepeatConcat(Branch(g, dst, r, e), Explore(g, dst, r, rest));
    }
  }

  lemma {:induction false} BranchOnce(g: Net, dst: Gid, r: Route, e: Gid)
    requires WellFormed(g) && Open(g, dst, r, [e]) && e < |g.edges|
    ensures NoRepeat(Branch(g, dst, r, e))
    decreases |Unvisited(g, r.nodes)|, 0, 0
  {
    var n := g.edges[e].to;
    if n !in r.nodes && n != dst {
      assert [e][0] == e;
      VisitShrinks(g, r.nodes, n);
      OutgoingEdges(g, n);
      ExploreOnce(g, dst, Extend(r, n, e), g.nodes[n].to);
    }
  }

  /** What the search has to collect for src and dst. */
  ghost function AllRoutes(g: Net, src: Gid, dst: Gid): seq<Route>
    requires WellFormed(g) && src < |g.nodes|
  {
    OutgoingEdges(g, src);
    Explore(g, dst, Route([src], []), g.nodes[src].to)
  }

  /** From src to a different dst: exactly the simple paths, each once. */
  lemma AllRoutesExact(g: Net, src: Gid, dst: Gid)
    requires WellFormed(g) && src < |g.nodes| && src != dst
    ensures forall q :: q in AllRoutes(g, src, dst) <==> Simple(g, src, dst, q)
    ensures NoRepeat(AllRoutes(g, src, dst))
  {
    var r, es := Route([src], []), g.nodes[src].to;
    OutgoingEdges(g, src);
    forall q ensures q in AllRoutes(g, src, dst) <==> Simple(g, src, dst, q) {
      ExploreExact(g, dst, r, es, q);
      SimpleContinues(g, src, dst, q);
    }
    ExploreOnce(g, dst, r, es);
  }

  lemma SimpleContinues(g: Net, src: Gid, dst: Gid, q: Route)
    requires WellFormed(g) && src < |g.nodes| && src != dst
    ensures Continues(g, dst, Route([src], []), g.nodes[src].to, q) <==> Simple(g, src, dst, q)
  {
    if Simple(g, src, dst, q) {
      assert |q.edges| > 0;
      assert Leg(g, q.nodes[0], q.edges[0], q.nodes[1]);
      assert q.edges[0] in g.nodes[src].to;
      assert [src] <= q.nodes;
    }
  }

  /** With src == dst every edge to dst closes a loop: nothing is collected. */
  lemma {:induction false} NothingToItself(g: Net, dst: Gid, r: Route, es: seq<Gid>)
    requires WellFormed(g) && EdgesOf(g, es) && dst in r.nodes
    ensures Explore(g, dst, r, es) == []
    decreases |Unvisited(g, r.nodes)|, 1, |es|
  {
    if es != [] {
      var last := |es| - 1;
      var n := g.edges[es[last]].to;
      NothingToItself(g, dst, r, es[..last]);
      if n !in r.nodes {
        VisitShrinks(g, r.nodes, n);
        OutgoingEdges(g, n);
        NothingToItself(g, dst, Extend(r, n, es[last]), g.nodes[n].to);
      }
    }
  }

  lemma NoRoutesToItself(g: Net, src: Gid)
    requires WellFormed(g) && src < |g.nodes|
    ensures AllRoutes(g, src, src) == []
  {
    OutgoingEdges(g, src);
    NothingToItself(g, src, Route([src], []), g.nodes[src].to);
  }

  // ----- Weights -----

  function EdgeWeight(g: Net, e: Gid): real {
    if e < |g.edges| then g.edges[e].weight else 0.0
  }

  function Weight(g: Net, es: seq<Gid>): real {
    if es == [] then 0.0 else Weight(g, es[..|es| - 1]) + EdgeWeight(g, es[|es| - 1])
  }

  lemma WeightOfOne(g: Net, e: Gid)
    ensures Weight(g, [e]) == EdgeWeight(g, e)
  {
    assert [e][..0] == [];
  }

  /** The weights of two stretches add up. */
  lemma {:induction false} WeightConcat(g: Net, a: seq<Gid>, b: seq<Gid>)
    ensures Weight(g, a + b) == Weight(g, a) + Weight(g, b)
  {
    if b == [] {
      assert a + b == a;
    } else {
      var last := |b| - 1;
      assert (a + b)[..|a + b| - 1] == a + b[..last];
      WeightConcat(g, a, b[..last]);
    }
  }
}
