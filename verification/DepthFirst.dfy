/** The explicit stack of graph.go's search: one segment of pending edges for every node of the path,
    separated by markers; what is still to be collected, and how many turns the loop still takes. */
module DepthFirst {
  import opened Routes

  /** The stack as it lies in memory. */
  function Flat(segs: seq<seq<Gid>>): seq<Gid>
    requires segs != []
  {
    var last := |segs| - 1;
    if last == 0 then segs[0] else Flat(segs[..last]) + [MARKER] + segs[last]
  }

  function Shorten(r: Route): Route
    requires r.nodes != [] && r.edges != []
  {
    Route(r.nodes[..|r.nodes| - 1], r.edges[..|r.edges| - 1])
  }

  /** As many markers as legs, and every edge of the i-th segment leaves the i-th node of the path. */
  ghost predicate Aligned(g: Net, r: Route, segs: seq<seq<Gid>>) {
    && |r.nodes| == |segs| == |r.edges| + 1
    && (forall i :: 0 <= i < |segs| ==> EdgesOf(g, segs[i]))
    && (forall i, k :: 0 <= i < |segs| && 0 <= k < |segs[i]| ==> g.edges[segs[i][k]].from == r.nodes[i])
  }

  /** What remains to be collected. */
  ghost function Pending(g: Net, dst: Gid, r: Route, segs: seq<seq<Gid>>): seq<Route>
    requires WellFormed(g) && Aligned(g, r, segs)
    decreases |segs|
  {
    var last := |segs| - 1;
    if last == 0 then Explore(g, dst, r, segs[0])
    else Explore(g, dst, r, segs[last]) + Pending(g, dst, Shorten(r), segs[..last])
  }

  // ----- The number of turns of the loop -----

  ghost function BranchTurns(g: Net, dst: Gid, r: Route, e: Gid): nat
    requires WellFormed(g) && e < |g.edges|
    decreases |Unvisited(g, r.nodes)|, 0, 0
  {
    var n := g.edges[e].to;
    if n in r.nodes then 0
    else if n == dst then 1
    else
      VisitShrinks(g, r.nodes, n);
      OutgoingEdges(g, n);
      1 + Turns(g, dst, Extend(r, n, e), g.nodes[n].to)
  }

  /** One turn for each edge of the search tree below r, and one more for each marker. */
  ghost function Turns(g: Net, dst: Gid, r: Route, es: seq<Gid>): nat
    requires WellFormed(g) && EdgesOf(g, es)
    decreases |Unvisited(g, r.nodes)|, 1, |es|
  {
    if es == [] then 0
    else
      var last := |es| - 1;
      1 + BranchTurns(g, dst, r, es[last]) + Turns(g, dst, r, es[..last])
  }

  ghost function Remaining(g: Net, dst: Gid, r: Route, segs: seq<seq<Gid>>): nat
    requires WellFormed(g) && Aligned(g, r, segs)
    decreases |segs|
  {
    var last := |segs| - 1;
    if last == 0 then Turns(g, dst, r, segs[0])
    else Turns(g, dst, r, segs[last]) + 1 + Remaining(g, dst, Shorten(r), segs[..last])
  }

  // ----- The turns -----

  /** The top of the stack: a marker exactly if the last segment has been used up. */
  lemma TopOfStack(g: Net, r: Route, segs: seq<seq<Gid>>)
    requires WellFormed(g) && Aligned(g, r, segs) && Flat(segs) != []
    ensures var stack, last := Flat(segs), |segs| - 1;
            if segs[last] == [] then
              last > 0 && stack == Flat(segs[..last]) + [MARKER]
            else
              var k := |segs[last]| - 1;
              var e := segs[last][k];
              e < |g.edges| && stack == Flat(segs[..last] + [segs[last][..k]]) + [e]
  {
    var last := |segs| - 1;
    if segs[last] == [] {
      assert segs[last] == [];
    } else {
      var k := |segs[last]| - 1;
      var rest := segs[..last] + [segs[last][..k]];
      assert EdgesOf(g, segs[last]);
      assert rest[..last] == segs[..last];
      assert segs[last] == segs[last][..k] + [segs[last][k]];
    }
  }

  /** Backtracking at a marker. */
  lemma Backtrack(g: Net, dst: Gid, r: Route, segs: seq<seq<Gid>>)
    requires WellFormed(g) && Aligned(g, r, segs) && |segs| > 1 && segs[|segs| - 1] == []
    ensures Aligned(g, Shorten(r), segs[..|segs| - 1])
    ensures Pending(g, dst, r, segs) == Pending(g, dst, Shorten(r), segs[..|segs| - 1])
    ensures Remaining(g, dst, r, segs) == 1 + Remaining(g, dst, Shorten(r), segs[..|segs| - 1])
  {
  }

  /** Taking an edge off the last segment leaves its branch to be explored. */
  lemma TakeEdge(g: Net, dst: Gid, r: Route, segs: seq<seq<Gid>>)
    requires WellFormed(g) && Aligned(g, r, segs) && segs[|segs| - 1] != []
    ensures var last := |segs| - 1;
            var k := |segs[last]| - 1;
            var e, rest := segs[last][k], segs[..last] + [segs[last][..k]];
            && e < |g.edges| && Aligned(g, r, rest)
            && Pending(g, dst, r, segs) == Branch(g, dst, r, e) + Pending(g, dst, r, rest)
            && Remaining(g, dst, r, segs) == 1 + BranchTurns(g, dst, r, e) + Remaining(g, dst, r, rest)
  {
    var last := |segs| - 1;
    var k := |segs[last]| - 1;
    var rest := segs[..last] + [segs[last][..k]];
    TakeEdgeAligned(g, r, segs);
    assert rest[..last] == segs[..last] && rest[last] == segs[last][..k];
  }

  lemma TakeEdgeAligned(g: Net, r: Route, segs: seq<seq<Gid>>)
    requires WellFormed(g) && Aligned(g, r, segs) && segs[|segs| - 1] != []
    ensures var last := |segs| - 1;
            var k := |segs[last]| - 1;
            segs[last][k] < |g.edges| && Aligned(g, r, segs[..last] + [segs[last][..k]])
  {
    var last := |segs| - 1;
    var k := |segs[last]| - 1;
    var rest := segs[..last] + [segs[last][..k]];
    assert EdgesOf(g, segs[last]);
    assert EdgesOf(g, segs[last][..k]);
    assert forall i :: 0 <= i < last ==> rest[i] == segs[i];
  }

  /** Visiting a new node: the path grows by a leg, the stack by a marker and the edges to explore. */
  lemma VisitAligned(g: Net, r: Route, rest: seq<seq<Gid>>, e: Gid, child: seq<Gid>)
    requires WellFormed(g) && Aligned(g, r, rest) && e < |g.edges|
    requires child == [] || child == g.nodes[g.edges[e].to].to
    ensures Aligned(g, Extend(r, g.edges[e].to, e), rest + [child])
    ensures Flat(rest + [child]) == Flat(rest) + [MARKER] + child
  {
    var s, segs := Extend(r, g.edges[e].to, e), rest + [child];
    OutgoingEdges(g, g.edges[e].to);
    assert segs[..|segs| - 1] == rest;
    assert forall i :: 0 <= i < |rest| ==> segs[i] == rest[i] && s.nodes[i] == r.nodes[i];
  }

  function Child(g: Net, dst: Gid, n: Gid): seq<Gid>
    requires n < |g.nodes|
  {
    if n == dst then [] else g.nodes[n].to
  }

  /** Its branch is either the route that has arrived, or what its edges lead to. */
  lemma Visit(g: Net, dst: Gid, r: Route, rest: seq<seq<Gid>>, e: Gid)
    requires WellFormed(g) && Aligned(g, r, rest) && e < |g.edges| && g.edges[e].to !in r.nodes
    requires Aligned(g, Extend(r, g.edges[e].to, e), rest + [Child(g, dst, g.edges[e].to)])
    ensures var n := g.edges[e].to;
            var s, segs := Extend(r, n, e), rest + [Child(g, dst, n)];
            && Branch(g, dst, r, e) + Pending(g, dst, r, rest) == (if n == dst then [s] else []) + Pending(g, dst, s, segs)
            && BranchTurns(g, dst, r, e) + Remaining(g, dst, r, rest) == Remaining(g, dst, s, segs)
  {
    var n := g.edges[e].to;
    var s, segs := Extend(r, n, e), rest + [Child(g, dst, n)];
    OutgoingEdges(g, n);
    assert segs[..|segs| - 1] == rest && Shorten(s) == r;
  }

  // ----- Markers -----

  function Markers(stack: seq<Gid>): nat {
    if stack == [] then 0
    else
      var top := |stack| - 1;
      Markers(stack[..top]) + if stack[top] == MARKER then 1 else 0
  }

  lemma {:induction false} MarkersConcat(a: seq<Gid>, b: seq<Gid>)
    ensures Markers(a + b) == Markers(a) + Markers(b)
  {
    if b == [] {
      assert a + b == a;
    } else {
      var top := |b| - 1;
      assert (a + b)[..|a + b| - 1] == a + b[..top];
      MarkersConcat(a, b[..top]);
    }
  }

  lemma {:induction false} EdgesAreNoMarkers(g: Net, es: seq<Gid>)
    requires WellFormed(g) && EdgesOf(g, es)
    ensures Markers(es) == 0
  {
    if es != [] {
      EdgesAreNoMarkers(g, es[..|es| - 1]);
    }
  }

  lemma {:induction false} MarkersOfFlat(g: Net, segs: seq<seq<Gid>>)
    requires WellFormed(g) && segs != [] && forall i :: 0 <= i < |segs| ==> EdgesOf(g, segs[i])
    ensures Markers(Flat(segs)) == |segs| - 1
    decreases |segs|
  {
    var last := |segs| - 1;
    EdgesAreNoMarkers(g, segs[last]);
    if last > 0 {
      MarkersOfFlat(g, segs[..last]);
      MarkersConcat(Flat(segs[..last]), [MARKER]);
      MarkersConcat(Flat(segs[..last]) + [MARKER], segs[last]);
    }
  }

  // ----- The loop -----

  /** The state of the search: the path, the stack in segments and in memory, the routes found. */
  datatype Search = Search(r: Route, segs: seq<seq<Gid>>, stack: seq<Gid>, found: seq<Route>)

  /** At the head of the loop: what has been found and what remains are the routes to be found. */
  ghost predicate Exploring(g: Net, src: Gid, dst: Gid, st: Search) {
    Shaped(g, src, st) && st.found + Pending(g, dst, st.r, st.segs) == AllRoutes(g, src, dst)
  }

  /** The path starts at src, and the stack in memory is the one of the segments. */
  ghost predicate Shaped(g: Net, src: Gid, st: Search) {
    && WellFormed(g) && src < |g.nodes| && Aligned(g, st.r, st.segs) && EdgesOf(g, st.r.edges)
    && st.stack == Flat(st.segs) && st.r.nodes[0] == src
  }

  /** There is one marker on the stack for each leg of the path. */
  lemma MarkersAreLegs(g: Net, src: Gid, st: Search)
    requires Shaped(g, src, st)
    ensures Markers(st.stack) == |st.r.edges|
  {
    MarkersOfFlat(g, st.segs);
  }

  ghost function TurnsLeft(g: Net, src: Gid, dst: Gid, st: Search): nat
    requires Exploring(g, src, dst, st)
  {
    Remaining(g, dst, st.r, st.segs)
  }

  function Begin(g: Net, src: Gid): Search
    requires src < |g.nodes|
  {
    Search(Route([src], []), [g.nodes[src].to], g.nodes[src].to, [])
  }

  lemma BeginExplores(g: Net, src: Gid, dst: Gid)
    requires WellFormed(g) && src < |g.nodes|
    ensures Exploring(g, src, dst, Begin(g, src))
  {
    OutgoingEdges(g, src);
  }

  /** At the end the path is back to src, and everything has been found. */
  lemma EndExplored(g: Net, src: Gid, dst: Gid, st: Search)
    requires Exploring(g, src, dst, st) && st.stack == []
    ensures st.r == Route([src], []) && st.found == AllRoutes(g, src, dst)
  {
    assert |st.segs| == 1;
    assert st.r.nodes == [src] && st.r.edges == [];
    assert Pending(g, dst, st.r, st.segs) == [];
  }

  function Used(segs: seq<seq<Gid>>): seq<seq<Gid>>
    requires segs != [] && segs[|segs| - 1] != []
  {
    var last := |segs| - 1;
    segs[..last] + [segs[last][..|segs[last]| - 1]]
  }

  /** Whatever is on top of the stack, the loop can deal with it: a leg to be removed, or an edge. */
  predicate Ready(g: Net, st: Search) {
    && st.stack != [] && st.segs != []
    && var e := st.stack[|st.stack| - 1];
       if e == MARKER then st.r.nodes != [] && st.r.edges != [] && st.segs[|st.segs| - 1] == []
       else e < |g.edges| && g.edges[e].to < |g.nodes| && st.segs[|st.segs| - 1] != []
  }

  /** One turn: backtrack at a marker, skip a node of the path, or visit a new node. */
  function Turn(g: Net, dst: Gid, st: Search): Search
    requires Ready(g, st)
  {
    var top := |st.stack| - 1;
    var e, stack := st.stack[top], st.stack[..top];
    if e == MARKER then Search(Shorten(st.r), st.segs[..|st.segs| - 1], stack, st.found)
    else
      var n := g.edges[e].to;
      if n in st.r.nodes then Search(st.r, Used(st.segs), stack, st.found)
      else
        var s := Extend(st.r, n, e);
        Search(s, Used(st.segs) + [Child(g, dst, n)], stack + [MARKER] + Child(g, dst, n),
               st.found + if n == dst then [s] else [])
  }

  lemma ExploringIsReady(g: Net, src: Gid, st: Search)
    requires Shaped(g, src, st) && st.stack != []
    ensures Ready(g, st)
    ensures if st.stack[|st.stack| - 1] == MARKER then |st.segs| > 1
            else st.stack[..|st.stack| - 1] == Flat(Used(st.segs))
  {
    TopOfStack(g, st.r, st.segs);
  }

  lemma Regroup(a: seq<Route>, b: seq<Route>, c: seq<Route>, d: seq<Route>)
    requires b == c + d
    ensures a + b == (a + c) + d
  {
  }

  lemma MarkerTurn(g: Net, src: Gid, dst: Gid, st: Search)
    requires Exploring(g, src, dst, st) && st.stack != [] && st.stack[|st.stack| - 1] == MARKER
    ensures Ready(g, st) && Exploring(g, src, dst, Turn(g, dst, st))
    ensures TurnsLeft(g, src, dst, Turn(g, dst, st)) < TurnsLeft(g, src, dst, st)
  {
    ExploringIsReady(g, src, st);
    TopOfStack(g, st.r, st.segs);
    Backtrack(g, dst, st.r, st.segs);
  }

  lemma SkipShaped(g: Net, src: Gid, dst: Gid, st: Search, e: Gid)
    requires Shaped(g, src, st) && st.stack != [] && st.stack[|st.stack| - 1] == e < |g.edges|
    requires g.edges[e].to in st.r.nodes
    ensures Ready(g, st) && Shaped(g, src, Turn(g, dst, st))
  {
    ExploringIsReady(g, src, st);
    TakeEdgeAligned(g, st.r, st.segs);
  }

  /** The edge on top of the stack is the last one of the last segment. */
  lemma EdgeOnTop(g: Net, src: Gid, st: Search, e: Gid)
    requires Shaped(g, src, st) && st.stack != [] && st.stack[|st.stack| - 1] == e < |g.edges|
    ensures var last := |st.segs| - 1;
            st.segs[last] != [] && st.segs[last][|st.segs[last]| - 1] == e
  {
    TopOfStack(g, st.r, st.segs);
  }

  /** Skipping an edge: its branch is empty. */
  lemma SkipPending(g: Net, dst: Gid, r: Route, segs: seq<seq<Gid>>, e: Gid)
    requires WellFormed(g) && Aligned(g, r, segs) && segs[|segs| - 1] != []
    requires segs[|segs| - 1][|segs[|segs| - 1]| - 1] == e < |g.edges| && g.edges[e].to in r.nodes
    ensures Aligned(g, r, Used(segs))
    ensures Pending(g, dst, r, segs) == Pending(g, dst, r, Used(segs))
    ensures Remaining(g, dst, r, segs) == 1 + Remaining(g, dst, r, Used(segs))
  {
    TakeEdge(g, dst, r, segs);
    assert Branch(g, dst, r, e) == [] && BranchTurns(g, dst, r, e) == 0;
  }

  /** Visiting a node: its branch is the route that has arrived, or what its edges lead to. */
  lemma VisitPending(g: Net, dst: Gid, r: Route, segs: seq<seq<Gid>>, e: Gid)
    requires WellFormed(g) && Aligned(g, r, segs) && segs[|segs| - 1] != []
    requires segs[|segs| - 1][|segs[|segs| - 1]| - 1] == e < |g.edges| && g.edges[e].to !in r.nodes
    ensures var n := g.edges[e].to;
            var s, after := Extend(r, n, e), Used(segs) + [Child(g, dst, n)];
            && Aligned(g, s, after)
            && Pending(g, dst, r, segs) == (if n == dst then [s] else []) + Pending(g, dst, s, after)
            && Remaining(g, dst, r, segs) == 1 + Remaining(g, dst, s, after)
  {
    TakeEdge(g, dst, r, segs);
    VisitAligned(g, r, Used(segs), e, Child(g, dst, g.edges[e].to));
    Visit(g, dst, r, Used(segs), e);
  }

  lemma SkipTurn(g: Net, src: Gid, dst: Gid, st: Search, e: Gid)
    requires Exploring(g, src, dst, st) && st.stack != [] && st.stack[|st.stack| - 1] == e < |g.edges|
    requires g.edges[e].to in st.r.nodes
    ensures Ready(g, st) && Exploring(g, src, dst, Turn(g, dst, st))
    ensures TurnsLeft(g, src, dst, Turn(g, dst, st)) < TurnsLeft(g, src, dst, st)
  {
    SkipShaped(g, src, dst, st, e);
    EdgeOnTop(g, src, st, e);
    SkipPending(g, dst, st.r, st.segs, e);
  }

  lemma ExtendedEdges(g: Net, es: seq<Gid>, e: Gid)
    requires EdgesOf(g, es) && e < |g.edges|
    ensures EdgesOf(g, es + [e])
  {
  }

  lemma VisitShaped(g: Net, src: Gid, dst: Gid, st: Search, e: Gid)
    requires Shaped(g, src, st) && st.stack != [] && st.stack[|st.stack| - 1] == e < |g.edges|
    requires g.edges[e].to !in st.r.nodes
    ensures Ready(g, st) && Shaped(g, src, Turn(g, dst, st))
  {
    ExploringIsReady(g, src, st);
    TakeEdgeAligned(g, st.r, st.segs);
    VisitAligned(g, st.r, Used(st.segs), e, Child(g, dst, g.edges[e].to));
    ExtendedEdges(g, st.r.edges, e);
  }

  lemma VisitTurn(g: Net, src: Gid, dst: Gid, st: Search, e: Gid)
    requires Exploring(g, src, dst, st) && st.stack != [] && st.stack[|st.stack| - 1] == e < |g.edges|
    requires g.edges[e].to !in st.r.nodes
    ensures Ready(g, st) && Exploring(g, src, dst, Turn(g, dst, st))
    ensures TurnsLeft(g, src, dst, Turn(g, dst, st)) < TurnsLeft(g, src, dst, st)
  {
    VisitShaped(g, src, dst, st, e);
    EdgeOnTop(g, src, st, e);
    VisitPending(g, dst, st.r, st.segs, e);
    var t := Turn(g, dst, st);
    Regroup(st.found, Pending(g, dst, st.r, st.segs), if g.edges[e].to == dst then [t.r] else [], Pending(g, dst, t.r, t.segs));
  }

  /** Every turn keeps what the loop head claims, and brings the loop closer to its end. */
  lemma TurnExplores(g: Net, src: Gid, dst: Gid, st: Search)
    requires Exploring(g, src, dst, st) && st.stack != []
    ensures Ready(g, st) && Exploring(g, src, dst, Turn(g, dst, st))
    ensures TurnsLeft(g, src, dst, Turn(g, dst, st)) < TurnsLeft(g, src, dst, st)
  {
    ExploringIsReady(g, src, st);
    var e := st.stack[|st.stack| - 1];
    if e == MARKER {
      MarkerTurn(g, src, dst, st);
    } else if g.edges[e].to in st.r.nodes {
      SkipTurn(g, src, dst, st, e);
    } else {
      VisitTurn(g, src, dst, st, e);
    }
  }
}
