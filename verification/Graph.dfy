/** Route exploration in graph.go: the iterative depth-first search, the bounded heap of the lightest
    routes, and the display that empties it. */
module Graphs {
  import opened DepthFirst
  import opened PathHeaps
  import opened Routes
  import opened Selections

  class Graph {
    var nodes: seq<Node>
    var edges: seq<Edge>
    var locs: map<string, Gid>
    const path: Path
    var stack: seq<Gid>
    const heap: PathHeap
    /** The lines displayed: routes with their weights. */
    var output: seq<Item>
    /** The paths in the pool, and how many have been allocated. */
    var pool: seq<nat>
    var made: nat
    /** The routes collected so far, and the copies made of them. */
    ghost var found: seq<Route>
    ghost var copies: seq<Item>

    constructor ()
      ensures WellFormed(Net()) && LocsKnown()
      ensures nodes == [] && edges == [] && locs == map[] && pool == [] && made == 0 && heap.items == []
      ensures fresh(path) && fresh(heap)
    {
      nodes, edges, locs, stack, output, pool, made := [], [], map[], [], [], [], 0;
      found, copies := [], [];
      path := new Path();
      heap := new PathHeap();
    }

    function Net(): Net
      reads `nodes, `edges
    {
      Routes.Net(nodes, edges)
    }

    ghost predicate LocsKnown()
      reads `nodes, `locs
    {
      forall loc :: loc in locs ==> locs[loc] < |nodes|
    }

    /** Adds an airport. */
    method AddNode(loc: string)
      requires WellFormed(Net()) && LocsKnown()
      modifies `nodes, `locs
      ensures WellFormed(Net()) && LocsKnown()
      ensures Net() == WithNode(old(Net()), loc) && locs == old(locs)[loc := Id(|old(nodes)|)]
      ensures nodes == old(nodes) + [Node(Id(|old(nodes)|), loc, [], [])] && edges == old(edges)
    {
      WithNodeWellFormed(Net(), loc);
      var node := Node(Id(|nodes|), loc, [], []);
      nodes := nodes + [node];
      locs := locs[loc := node.id];
    }

    /** Adds a direct route. The graph stays well formed as long as the new identifier is not the marker. */
    method AddEdge(from: Gid, to: Gid, weight: real)
      requires from < |nodes| && to < |nodes|
      modifies `nodes, `edges
      ensures Net() == WithEdge(old(Net()), from, to, weight)
      ensures edges == old(edges) + [Edge(Id(|old(edges)|), weight, from, to)] && |nodes| == |old(nodes)|
      ensures forall n :: 0 <= n < |nodes| ==> nodes[n].id == old(nodes)[n].id && nodes[n].loc == old(nodes)[n].loc
      ensures old(WellFormed(Net())) ==> (WellFormed(Net()) <==> |old(edges)| < MARKER)
    {
      if WellFormed(Net()) {
        WithEdgeWellFormed(Net(), from, to, weight);
      }
      var edge := Edge(Id(|edges|), weight, from, to);
      edges := edges + [edge];
      nodes := nodes[from := nodes[from].(to := nodes[from].to + [edge.id])];
      nodes := nodes[to := nodes[to].(from := nodes[to].from + [edge.id])];
    }

    /** Adds up the weights of the edges of the path. */
    method CalculateWeight() returns (w: real)
      requires EdgesOf(Net(), path.edges)
      ensures w == Weight(Net(), path.edges)
    {
      w := 0.0;
      for i := 0 to |path.edges|
        invariant w == Weight(Net(), path.edges[..i])
      {
        w := w + edges[path.edges[i]].weight;
        assert path.edges[..i + 1][..i] == path.edges[..i];
      }
      assert path.edges[..|path.edges|] == path.edges;
    }

    /** The heap holds the lightest of the routes collected; its paths have been taken from the pool,
        and lost others. */
    ghost predicate Selected(lost: int)
      reads `pool, `made, `copies, heap
    {
      && Ordered(heap.items) && Lightest(copies, heap.items)
      && Owned(heap.items, pool, made) && made - |pool| == |heap.items| + lost
    }

    ghost predicate Copied()
      reads `nodes, `edges, `found, `copies
    {
      CopiesOf(Net(), found, copies)
    }

    /** Any path of the pool, or a new one. */
    method GetPath() returns (id: nat)
      requires Owned(heap.items, pool, made)
      modifies `pool, `made
      ensures Owned(heap.items, pool, made) && Free(heap.items, pool, made, id)
      ensures made - |pool| == old(made - |pool|) + 1
    {
      if * {
        NewIsFree(heap.items, pool, made);
        id, made := made, made + 1;
      } else if pool != [] {
        var i :| 0 <= i < |pool|;
        TakenIsFree(heap.items, pool, made, i);
        id, pool := pool[i], pool[..i] + pool[i + 1..];
      } else {
        NewIsFree(heap.items, pool, made);
        id, made := made, made + 1;
      }
    }

    /** Copies the path into the heap, and drops the heaviest if there are too many. The copy is made in
        a path that nobody else holds. */
    method Collect(ghost lost: int)
      requires Selected(lost) && Copied() && EdgesOf(Net(), path.edges)
      modifies `pool, `made, `found, `copies, heap
      ensures Selected(lost) && Copied()
      ensures found == old(found) + [path.Legs()]
    {
      var w := CalculateWeight();
      var id := GetPath();
      CopiesSnoc(Net(), found, copies, Item(id, path.Legs(), w));
      found := found + [path.Legs()];
      Keep(Item(id, path.Legs(), w), lost);
    }

    /** Top-k filtering: pushes the copy, and gives the heaviest path back if there are too many. */
    method Keep(p: Item, ghost lost: int)
      requires Ordered(heap.items) && Lightest(copies, heap.items)
      requires Owned(heap.items, pool, made) && Free(heap.items, pool, made, p.id)
      requires made - |pool| == |heap.items| + 1 + lost
      modifies `pool, `copies, heap
      ensures Selected(lost) && copies == old(copies) + [p]
    {
      ghost var before := heap.items;
      heap.Push(p);
      ghost var pushed := heap.items;
      SameSize(pushed, before + [p]);
      PushedIsOwned(before, pool, made, p, pushed);
      if |heap.items| > GRAPH_K {
        var q := heap.PopHeaviest();
        PoppedIsOwned(pushed, pool, made, q, heap.items);
        pool := pool + [q.id];
        DropHeaviest(copies, before, p, pushed, heap.items, q);
      } else {
        KeepWithRoom(copies, before, p, pushed);
      }
      copies := copies + [p];
    }

    /** The non-recursive depth-first search from src for all routes to dst. Paths still in the heap
        when the search begins never go back to the pool. */
    method AllPaths(src: Gid, dst: Gid)
      requires WellFormed(Net()) && src < |nodes| && Owned(heap.items, pool, made)
      modifies `stack, `pool, `made, `found, `copies, heap, path
      ensures Selected(old(made - |pool|)) && Copied()
      ensures found == AllRoutes(Net(), src, dst)
      ensures path.Legs() == Route([src], []) && stack == []
    {
      path.Reset(src);
      heap.items := [];
      found, copies := [], [];
      stack := nodes[src].to;
      ghost var st := Begin(Net(), src);
      BeginExplores(Net(), src, dst);
      while |stack| > 0
        invariant Selected(old(made - |pool|)) && Copied()
        invariant Exploring(Net(), src, dst, st)
        invariant path.Legs() == st.r && stack == st.stack && found == st.found
        decreases TurnsLeft(Net(), src, dst, st)
      {
        ExploringIsReady(Net(), src, st);
        TurnExplores(Net(), src, dst, st);
        TakeTurn(dst, st, old(made - |pool|));
        st := Turn(Net(), dst, st);
      }
      EndExplored(Net(), src, dst, st);
    }

    /** One turn of the loop: backtrack at a marker, skip a node of the path, or visit a new node. */
    method TakeTurn(dst: Gid, ghost st: Search, ghost lost: int)
      requires Selected(lost) && Copied() && EdgesOf(Net(), path.edges) && Ready(Net(), st)
      requires path.Legs() == st.r && stack == st.stack && found == st.found
      modifies `stack, `pool, `made, `found, `copies, heap, path
      ensures Selected(lost) && Copied()
      ensures path.Legs() == Turn(Net(), dst, st).r && stack == Turn(Net(), dst, st).stack
      ensures found == Turn(Net(), dst, st).found
    {
      ghost var t := Turn(Net(), dst, st);
      var idx := |stack| - 1;
      var eid := stack[idx];
      stack := stack[..idx];
      if eid == MARKER {
        assert t.stack == stack && t.found == st.found;
        var _, _ := path.Pop();
        return;
      }
      assert edges[eid].to in st.r.nodes ==> t.stack == stack && t.r == st.r && t.found == st.found;
      Follow(eid, dst, lost);
    }

    /** Skips an edge that would close a loop, and takes any other. */
    method Follow(eid: Gid, dst: Gid, ghost lost: int)
      requires Selected(lost) && Copied() && EdgesOf(Net(), path.edges)
      requires eid < |edges| && edges[eid].to < |nodes|
      modifies `stack, `pool, `made, `found, `copies, heap, path
      ensures Selected(lost) && Copied()
      ensures if edges[eid].to in old(path.Legs()).nodes then
                path.Legs() == old(path.Legs()) && stack == old(stack) && found == old(found)
              else
                && path.Legs() == Extend(old(path.Legs()), edges[eid].to, eid)
                && stack == old(stack) + [MARKER] + Child(Net(), dst, edges[eid].to)
                && found == old(found) + if edges[eid].to == dst then [path.Legs()] else []
    {
      var nid := edges[eid].to;
      var seen := path.Contains(nid);
      if !seen {
        Enter(nid, eid, dst, lost);
      }
    }

    /** Adds a leg to the path; the route is collected if it leads to dst, and explored otherwise. */
    method Enter(nid: Gid, eid: Gid, dst: Gid, ghost lost: int)
      requires Selected(lost) && Copied() && EdgesOf(Net(), path.edges) && eid < |edges| && nid < |nodes|
      modifies `stack, `pool, `made, `found, `copies, heap, path
      ensures Selected(lost) && Copied()
      ensures path.Legs() == Extend(old(path.Legs()), nid, eid)
      ensures stack == old(stack) + [MARKER] + Child(Net(), dst, nid)
      ensures found == old(found) + if nid == dst then [path.Legs()] else []
    {
      path.Add(nid, eid);
      stack := stack + [MARKER];
      if nid == dst {
        assert path.edges == old(path.edges) + [eid];
        Collect(lost);
      } else {
        stack := stack + nodes[nid].to;
      }
    }

    /** Pops the selected routes one by one; the paths go back to the pool. */
    method Display(ghost lost: int)
      requires Selected(lost)
      modifies `output, `pool, heap
      ensures heap.items == [] && made - |pool| == lost && Owned([], pool, made)
      ensures Lightest(copies, output) && Descending(output)
      ensures forall x :: x in output ==> x.id in pool
    {
      ghost var kept := heap.items;
      output := [];
      for i := 0 to |heap.items|
        invariant |heap.items| == |kept| - i && made - |pool| == |heap.items| + lost && Ordered(heap.items)
        invariant Emptying(kept, heap.items, output) && Owned(heap.items, pool, made)
        invariant forall x :: x in output ==> x.id in pool
      {
        ghost var rest := heap.items;
        var p := heap.PopHeaviest();
        EmptyOne(kept, rest, output, p, heap.items);
        PoppedIsOwned(rest, pool, made, p, heap.items);
        output := output + [p];
        pool := pool + [p.id];
      }
      LightestPermuted(copies, kept, output);
    }

    /** Displays the K lightest routes between two locations, if both are known. */
    method Search(loc1: string, loc2: string) returns (ok: bool)
      requires WellFormed(Net()) && LocsKnown() && Owned(heap.items, pool, made)
      modifies `stack, `pool, `made, `found, `copies, `output, heap, path
      ensures ok <==> loc1 in locs && loc2 in locs
      ensures ok ==> CopiesOf(Net(), AllRoutes(Net(), locs[loc1], locs[loc2]), copies)
      ensures ok ==> Lightest(copies, output) && Descending(output)
      ensures ok ==> heap.items == [] && made - |pool| == old(made - |pool|)
      ensures !ok ==> output == old(output) && heap.items == old(heap.items) && pool == old(pool) && made == old(made)
      ensures Owned(heap.items, pool, made)
    {
      if loc1 !in locs || loc2 !in locs {
        return false;
      }
      AllPaths(locs[loc1], locs[loc2]);
      Display(old(made - |pool|));
      return true;
    }
  }
}
