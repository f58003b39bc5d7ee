/** Keeping the K lightest of the routes found so far. */
module Selections {
  import opened PathHeaps
  import opened Routes
  import opened Sequences

  const GRAPH_K: nat := 5

  function Min(a: nat, b: nat): nat {
    if a < b then a else b
  }

  /** kept holds min(K, found) of the routes found, and no other one is lighter than a kept one. */
  ghost predicate Lightest(found: seq<Item>, kept: seq<Item>) {
    && multiset(kept) <= multiset(found) && |kept| == Min(|found|, GRAPH_K)
    && forall d, k :: d in multiset(found) - multiset(kept) && k in kept ==> d.weight >= k.weight
  }

  lemma SameSize(s: seq<Item>, t: seq<Item>)
    requires multiset(s) == multiset(t)
    ensures |s| == |t|
  {
    assert |multiset(s)| == |s| && |multiset(t)| == |t|;
  }

  /** With room left, the new route is simply kept. */
  lemma KeepWithRoom(found: seq<Item>, kept: seq<Item>, x: Item, kept': seq<Item>)
    requires Lightest(found, kept) && |kept| < GRAPH_K
    requires multiset(kept') == multiset(kept) + multiset{x}
    ensures Lightest(found + [x], kept')
  {
    assert |multiset(kept)| == |kept| && |multiset(found)| == |found| && |multiset(kept')| == |kept'|;
    assert multiset(found) == multiset(kept) + (multiset(found) - multiset(kept));
    assert multiset(found) - multiset(kept) == multiset{};
    assert multiset(found + [x]) == multiset(kept');
  }

  /** Dropping q after adding x: what is left out then is what was left out before, and q. */
  lemma LeftOut(found: seq<Item>, kept: seq<Item>, x: Item, kept': seq<Item>, q: Item)
    requires multiset(kept) <= multiset(found)
    requires multiset(kept) + multiset{x} == multiset(kept') + multiset{q}
    ensures multiset(kept') <= multiset(found + [x])
    ensures multiset(found + [x]) - multiset(kept') == (multiset(found) - multiset(kept)) + multiset{q}
  {
    var rest := multiset(found) - multiset(kept);
    assert multiset(found) == multiset(kept) + rest;
    assert multiset(found + [x]) == multiset(found) + multiset{x};
    assert multiset(found + [x]) == (multiset(kept) + multiset{x}) + rest == (multiset(kept') + multiset{q}) + rest;
    assert multiset(found + [x]) == multiset(kept') + (rest + multiset{q});
  }

  /** Without room, a heaviest of the kept routes and the new one is dropped. */
  lemma DropHeaviest(found: seq<Item>, kept: seq<Item>, x: Item, pushed: seq<Item>, kept': seq<Item>, q: Item)
    requires Lightest(found, kept) && |kept| == GRAPH_K
    requires multiset(pushed) == multiset(kept) + multiset{x} == multiset(kept') + multiset{q}
    requires forall k :: k in pushed ==> q.weight >= k.weight
    ensures Lightest(found + [x], kept')
  {
    LeftOut(found, kept, x, kept', q);
    assert |multiset(kept')| == |kept'| && |multiset(kept)| == |kept| && |multiset(pushed)| == |pushed|;
    var rest := multiset(found) - multiset(kept);
    forall d, k | d in multiset(found + [x]) - multiset(kept') && k in kept'
      ensures d.weight >= k.weight
    {
      assert k in multiset(pushed);
      if d != q {
        assert d in rest;
        assert q in multiset(pushed);
      }
    }
  }

  ghost predicate Descending(s: seq<Item>) {
    forall i, j :: 0 <= i < j < |s| ==> s[i].weight >= s[j].weight
  }

  /** The items are copies of the routes, with their weights. */
  ghost predicate CopiesOf(g: Net, routes: seq<Route>, items: seq<Item>) {
    && |items| == |routes|
    && forall i :: 0 <= i < |items| ==> items[i].route == routes[i] && items[i].weight == Weight(g, routes[i].edges)
  }

  lemma CopiesSnoc(g: Net, routes: seq<Route>, items: seq<Item>, x: Item)
    requires CopiesOf(g, routes, items) && x.weight == Weight(g, x.route.edges)
    ensures CopiesOf(g, routes + [x.route], items + [x])
  {
  }

  /** Taking the heaviest off keeps the lines in order, and all the rest at most as heavy. */
  ghost predicate Emptying(kept: seq<Item>, rest: seq<Item>, lines: seq<Item>) {
    && multiset(kept) == multiset(rest) + multiset(lines)
    && Descending(lines) && forall x, y :: x in lines && y in rest ==> x.weight >= y.weight
  }

  lemma EmptyOne(kept: seq<Item>, rest: seq<Item>, lines: seq<Item>, q: Item, rest': seq<Item>)
    requires Emptying(kept, rest, lines) && q in rest && multiset(rest) == multiset(rest') + multiset{q}
    requires forall y :: y in rest ==> q.weight >= y.weight
    ensures Emptying(kept, rest', lines + [q])
  {
    forall y | y in rest' ensures y in rest {
      assert y in multiset(rest') + multiset{q};
    }
    forall i, j | 0 <= i < j < |lines + [q]|
      ensures (lines + [q])[i].weight >= (lines + [q])[j].weight
    {
      if j == |lines| { assert lines[i] in lines; }
    }
  }

  /** The lightest routes stay the same in whatever order they are listed. */
  lemma LightestPermuted(found: seq<Item>, kept: seq<Item>, lines: seq<Item>)
    requires Lightest(found, kept) && multiset(kept) == multiset(lines)
    ensures Lightest(found, lines)
  {
    assert |multiset(kept)| == |kept| && |multiset(lines)| == |lines|;
    forall k | k in lines ensures k in kept {
      assert k in multiset(lines);
    }
  }

  // ----- What the display shows, in terms of simple paths -----

  lemma {:induction false} OnceInMultiset(s: seq<Item>, x: Item)
    requires NoRepeat(s)
    ensures multiset(s)[x] <= 1
  {
    if s != [] {
      var last := |s| - 1;
      OnceInMultiset(s[..last], x);
      assert s == s[..last] + [s[last]];
      if x == s[last] { assert x !in s[..last]; }
    }
  }

  lemma NoRepeatBelow(s: seq<Item>, t: seq<Item>)
    requires multiset(s) <= multiset(t) && NoRepeat(t)
    ensures NoRepeat(s)
  {
    forall i, j | 0 <= i < j < |s| ensures s[i] != s[j] {
      assert s == s[..i] + [s[i]] + s[i + 1..j] + [s[j]] + s[j + 1..];
      OnceInMultiset(t, s[i]);
    }
  }

  /** Every line is a simple path with its weight, no path is shown twice, and every simple path that is
      not shown weighs at least as much as every one that is; fewer than K lines show all of them. */
  lemma DisplayedAreLightest(g: Net, src: Gid, dst: Gid, copies: seq<Item>, output: seq<Item>)
    requires WellFormed(g) && src < |g.nodes| && src != dst
    requires CopiesOf(g, AllRoutes(g, src, dst), copies) && Lightest(copies, output)
    ensures |output| <= GRAPH_K && forall i, j :: 0 <= i < j < |output| ==> output[i].route != output[j].route
    ensures forall x :: x in output ==> Simple(g, src, dst, x.route) && x.weight == Weight(g, x.route.edges)
    ensures forall q :: Simple(g, src, dst, q) && NotShown(output, q) ==>
              |output| == GRAPH_K && forall x :: x in output ==> Weight(g, q.edges) >= x.weight
  {
    var routes := AllRoutes(g, src, dst);
    AllRoutesExact(g, src, dst);
    RoutesShownOnce(g, routes, copies, output);
    forall x | x in output
      ensures x.route in routes && x.weight == Weight(g, x.route.edges)
    {
      var i := CopyOf(copies, output, x);
    }
    forall q | Simple(g, src, dst, q) && NotShown(output, q)
      ensures |output| == GRAPH_K && forall x :: x in output ==> Weight(g, q.edges) >= x.weight
    {
      var i :| 0 <= i < |routes| && routes[i] == q;
      NotDisplayed(copies, output, copies[i]);
    }
  }

  ghost predicate NotShown(output: seq<Item>, q: Route) {
    forall x :: x in output ==> x.route != q
  }

  lemma CopyOf(copies: seq<Item>, output: seq<Item>, x: Item) returns (i: nat)
    requires multiset(output) <= multiset(copies) && x in output
    ensures i < |copies| && copies[i] == x
  {
    assert x in multiset(output) && x in multiset(copies);
    i :| 0 <= i < |copies| && copies[i] == x;
  }

  lemma RoutesShownOnce(g: Net, routes: seq<Route>, copies: seq<Item>, output: seq<Item>)
    requires NoRepeat(routes) && CopiesOf(g, routes, copies) && multiset(output) <= multiset(copies)
    ensures forall i, j :: 0 <= i < j < |output| ==> output[i].route != output[j].route
  {
    assert NoRepeat(copies);
    NoRepeatBelow(output, copies);
    forall i, j | 0 <= i < j < |output| ensures output[i].route != output[j].route {
      var k := CopyOf(copies, output, output[i]);
      var l := CopyOf(copies, output, output[j]);
      assert k != l;
    }
  }

  lemma NotDisplayed(found: seq<Item>, output: seq<Item>, x: Item)
    requires Lightest(found, output) && x in found && x !in output
    ensures |output| == GRAPH_K && forall y :: y in output ==> x.weight >= y.weight
  {
    assert x in multiset(found) && x !in multiset(output);
    assert x in multiset(found) - multiset(output);
    assert |multiset(found)| == |found| && |multiset(output)| == |output|;
    assert multiset(found) == multiset(output) + (multiset(found) - multiset(output));
  }

  // ----- Who holds which path -----

  /** The path x is once in the heap, has been allocated and is not in the pool. */
  ghost predicate Held(items: seq<Item>, pool: seq<nat>, made: nat, x: Item) {
    x.id < made && x.id !in pool && multiset(items)[x] == 1 && forall y :: y in items && y.id == x.id ==> y == x
  }

  /** No path is in two places of the heap, in two places of the pool, or in both. */
  ghost predicate Owned(items: seq<Item>, pool: seq<nat>, made: nat) {
    && (forall x :: x in items ==> Held(items, pool, made, x))
    && (forall id :: id in pool ==> id < made) && NoRepeat(pool)
  }

  /** Neither in the heap nor in the pool: a path that has just been taken. */
  ghost predicate Free(items: seq<Item>, pool: seq<nat>, made: nat, id: nat) {
    id < made && id !in pool && forall x :: x in items ==> x.id != id
  }

  /** Taking a path off the pool leaves it in nobody's hands but the taker's. */
  lemma TakenIsFree(items: seq<Item>, pool: seq<nat>, made: nat, i: nat)
    requires Owned(items, pool, made) && i < |pool|
    ensures var rest := pool[..i] + pool[i + 1..];
            Owned(items, rest, made) && Free(items, rest, made, pool[i])
  {
    var rest := pool[..i] + pool[i + 1..];
    assert pool[i] in pool;
    forall j | 0 <= j < |rest| ensures rest[j] in pool && rest[j] != pool[i] {
      var k := if j < i then j else j + 1;
      assert rest[j] == pool[k];
      assert if k < i then pool[k] != pool[i] else pool[i] != pool[k];
    }
    assert forall j :: 0 <= j < |rest| ==> rest[j] == pool[if j < i then j else j + 1];
    forall x | x in items ensures Held(items, rest, made, x) && x.id != pool[i] {
      assert Held(items, pool, made, x);
    }
  }

  lemma NewIsFree(items: seq<Item>, pool: seq<nat>, made: nat)
    requires Owned(items, pool, made)
    ensures Owned(items, pool, made + 1) && Free(items, pool, made + 1, made)
  {
    forall x | x in items ensures Held(items, pool, made + 1, x) && x.id != made {
      assert Held(items, pool, made, x);
    }
  }

  lemma PushedIsOwned(items: seq<Item>, pool: seq<nat>, made: nat, x: Item, items': seq<Item>)
    requires Owned(items, pool, made) && Free(items, pool, made, x.id)
    requires multiset(items') == multiset(items) + multiset{x}
    ensures Owned(items', pool, made)
  {
    forall y | y in items' ensures y in items || y == x {
      assert y in multiset(items');
    }
    forall y | y in items' ensures Held(items', pool, made, y) {
      if y != x {
        assert Held(items, pool, made, y);
      } else {
        assert x !in multiset(items);
      }
    }
  }

  lemma PoppedIsOwned(items: seq<Item>, pool: seq<nat>, made: nat, q: Item, items': seq<Item>)
    requires Owned(items, pool, made) && multiset(items) == multiset(items') + multiset{q}
    ensures Owned(items', pool + [q.id], made)
  {
    assert q in multiset(items);
    assert Held(items, pool, made, q);
    forall y | y in items' ensures Held(items', pool + [q.id], made, y) {
      assert y in multiset(items') && y in multiset(items);
      assert Held(items, pool, made, y);
      forall z | z in items' && z.id == y.id ensures z == y {
        assert z in multiset(items') && z in multiset(items);
      }
    }
  }
}
