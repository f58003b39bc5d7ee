/** Node, zone and cluster lists with the failures that begin after the year behind them. */
module LateOutages {
  import opened CanonicalForm
  import opened Cuts
  import opened IntervalLists
  import opened Intervals
  import opened Lateness
  import opened Merge
  import opened Outages

  /** The late intervals of all the nodes. */
  function LatesOf(nodes: seq<Outages>): seq<Interval> {
    if nodes == [] then []
    else
      var last := |nodes| - 1;
      LatesOf(nodes[..last]) + Lates(nodes[last])
  }

  predicate OneLateEach(nodes: seq<Outages>) {
    forall i :: 0 <= i < |nodes| ==> |Lates(nodes[i])| <= 1
  }

  lemma {:induction false} LatesOfConcat(a: seq<Outages>, b: seq<Outages>)
    ensures LatesOf(a + b) == LatesOf(a) + LatesOf(b)
  {
    if b == [] {
      assert a + b == a;
    } else {
      var last := |b| - 1;
      assert (a + b)[..|a + b| - 1] == a + b[..last];
      LatesOfConcat(a, b[..last]);
    }
  }

  lemma LatesOfOne(raw: Outages)
    ensures LatesOf([raw]) == Lates(raw)
  {
    assert [raw][..0] == [];
  }

  /** What is left of the late intervals of the nodes, with the load of one node; nothing is left of some only
      if a node is down in the last second. */
  ghost predicate TailOf(tail: seq<Interval>, nodes: seq<Outages>) {
    && AllLate(tail) && |tail| <= |LatesOf(nodes)| && StartsIn(tail, LatesOf(nodes))
    && (forall i :: 0 <= i < |tail| ==> tail[i].Load() == Down(1, Share(1)))
    && (OneLateEach(nodes) ==> Excess(tail) == Excess(LatesOf(nodes)))
    && (tail == [] && LatesOf(nodes) != [] ==> DownNodes(nodes, MAXSECS - 1) > 0)
  }

  lemma {:induction false} DownNodesConcat(a: seq<Outages>, b: seq<Outages>, t: nat)
    ensures DownNodes(a + b, t) == DownNodes(a, t) + DownNodes(b, t)
  {
    if b == [] {
      assert a + b == a;
    } else {
      var last := |b| - 1;
      assert a + b == (a + b[..last]) + [b[last]];
      DownNodesSnoc(a + b[..last], b[last], t);
      DownNodesConcat(a, b[..last], t);
    }
  }

  lemma StartsConcat(s: seq<Interval>, a: seq<Interval>, t: seq<Interval>, b: seq<Interval>)
    requires StartsIn(s, a) && StartsIn(t, b)
    ensures StartsIn(s + t, a + b)
  {
    forall x | x in s + t ensures StartOf(x, a + b) {
      if x in s {
        assert StartOf(x, a);
      } else {
        assert StartOf(x, b);
      }
    }
  }

  lemma OneLateConcat(a: seq<Outages>, b: seq<Outages>)
    requires OneLateEach(a + b)
    ensures OneLateEach(a) && OneLateEach(b)
  {
    forall i | 0 <= i < |a| ensures |Lates(a[i])| <= 1 { assert (a + b)[i] == a[i]; }
    forall i | 0 <= i < |b| ensures |Lates(b[i])| <= 1 { assert (a + b)[|a| + i] == b[i]; }
  }

  lemma TailConcat(s: seq<Interval>, a: seq<Outages>, t: seq<Interval>, b: seq<Outages>)
    requires TailOf(s, a) && TailOf(t, b)
    ensures TailOf(s + t, a + b)
  {
    LatesOfConcat(a, b);
    DownNodesConcat(a, b, MAXSECS - 1);
    ExcessConcat(s, t);
    ExcessConcat(LatesOf(a), LatesOf(b));
    StartsConcat(s, LatesOf(a), t, LatesOf(b));
    if OneLateEach(a + b) {
      OneLateConcat(a, b);
    }
  }

  ghost predicate NodeDone(s: seq<Interval>, raw: Outages) {
    AllWellFormed(Core(s)) && NodeReady(Core(s), raw) && TailOf(Tail(s), [raw])
  }

  ghost predicate ZoneDone(s: seq<Interval>, nodes: seq<Outages>) {
    AllWellFormed(Core(s)) && ZoneRight(Core(s), nodes) && CutsRight(Core(s), nodes) && TailOf(Tail(s), nodes)
  }

  ghost predicate ClusterDone(s: seq<Interval>, nodes: seq<Outages>, n: nat)
    requires |nodes| == N_NODES && n <= N_ZONES
  {
    && AllWellFormed(Core(s)) && ClusterRight(Core(s), nodes, n)
    && CutsRight(Core(s), FirstZones(nodes, n)) && TailOf(Tail(s), FirstZones(nodes, n))
  }

  // ----- Nodes -----

  lemma {:induction false} SameBoundsCore(s: seq<Interval>, norm: seq<Interval>)
    requires SameBounds(s, norm)
    ensures CoreLength(s) == CoreLength(norm)
  {
    if s != [] && s[0].beg < MAXSECS {
      SameBoundsCore(s[1..], norm[1..]);
    }
  }

  lemma {:induction false} SameBoundsExcess(s: seq<Interval>, norm: seq<Interval>)
    requires SameBounds(s, norm)
    ensures Excess(s) == Excess(norm)
  {
    if s != [] {
      SameBoundsExcess(s[..|s| - 1], norm[..|s| - 1]);
    }
  }

  lemma SameBoundsSameForm(s: seq<Interval>, norm: seq<Interval>, raw: Outages)
    requires SameBounds(s, norm) && Canonical(norm) && SameCoverage(norm, raw)
    ensures Canonical(s) && SameCoverage(s, raw)
  {
    forall t: nat ensures Covered(s, t) <==> Covered(raw, t) {
      if i :| 0 <= i < |s| && s[i].Covers(t) { assert norm[i].Covers(t); }
      if i :| 0 <= i < |norm| && norm[i].Covers(t) { assert s[i].Covers(t); }
      assert Covered(norm, t) <==> Covered(raw, t);
    }
  }

  /** A normalized list, with one node's load in every interval. */
  lemma LoadedNode(s: seq<Interval>, norm: seq<Interval>, raw: Outages)
    requires Normalized(raw, norm) && AllClamped(raw) && SameBounds(s, norm)
    requires forall i :: 0 <= i < |s| ==> s[i].cnt == 1 && s[i].ratio == Share(1)
    ensures NodeDone(s, raw)
  {
    NormalizedLate(raw, norm);
    SameBoundsCore(s, norm);
    SameBoundsSameForm(Core(s), Core(norm), raw);
    SameBoundsTail(Tail(s), Tail(norm), raw);
  }

  lemma SameBoundsTail(tail: seq<Interval>, norm: seq<Interval>, raw: Outages)
    requires SameBounds(tail, norm) && Kept(norm, Lates(raw), Covered(raw, MAXSECS - 1))
    requires forall i :: 0 <= i < |tail| ==> tail[i].cnt == 1 && tail[i].ratio == Share(1)
    ensures TailOf(tail, [raw])
  {
    LatesOfOne(raw);
    SameBoundsExcess(tail, norm);
    SameBoundsStarts(tail, norm, Lates(raw));
    DownNodesSnoc([], raw, MAXSECS - 1);
    assert [] + [raw] == [raw] && [raw][0] == raw;
  }

  lemma SameBoundsStarts(tail: seq<Interval>, norm: seq<Interval>, lates: seq<Interval>)
    requires SameBounds(tail, norm) && StartsIn(norm, lates)
    ensures StartsIn(tail, lates)
  {
    forall x | x in tail ensures StartOf(x, lates) {
      var i :| 0 <= i < |tail| && tail[i] == x;
      assert StartOf(norm[i], lates);
    }
  }

  // ----- Zones and cluster -----

  lemma FirstNodeDone(s: seq<Interval>, raw: Outages)
    requires NodeDone(s, raw)
    ensures ZoneDone(s, [raw])
  {
    FirstNode(Core(s), raw);
    NodeCuts(Core(s), raw);
  }

  /** The merge of two lists falls into the merge of the intervals of the year and the late ones. */
  lemma MergedFallsApart(a: seq<Interval>, b: seq<Interval>, gen: Gen)
    requires Generic(gen) && AllWellFormed(Core(a)) && AllWellFormed(Core(b)) && AllLate(Tail(a)) && AllLate(Tail(b))
    ensures AllWellFormed(Merged(Core(a), Core(b), gen))
    ensures Core(Merged(a, b, gen)) == Merged(Core(a), Core(b), gen)
    ensures Tail(Merged(a, b, gen)) == Tail(a) + Tail(b)
  {
    assert a == Core(a) + Tail(a) && b == Core(b) + Tail(b);
    MergedTails(Core(a), Tail(a), Core(b), Tail(b), gen);
    MergedWellFormed(Core(a), Core(b), gen);
    CoreAndTail(Merged(Core(a), Core(b), gen), Tail(a) + Tail(b));
  }

  lemma NextNodeDone(z: seq<Interval>, nodes: seq<Outages>, s: seq<Interval>, raw: Outages)
    requires ZoneDone(z, nodes) && NodeDone(s, raw)
    ensures ZoneDone(Merged(z, s, NodeGen), nodes + [raw])
  {
    NodeGenGeneric();
    MergedFallsApart(z, s, NodeGen);
    NextNode(Core(z), nodes, Core(s), raw);
    NodeCuts(Core(s), raw);
    MergedCuts(Core(z), nodes, Core(s), [raw], NodeGen);
    TailConcat(Tail(z), nodes, Tail(s), [raw]);
  }

  lemma FirstZoneDone(s: seq<Interval>, nodes: seq<Outages>)
    requires |nodes| == N_NODES && ZoneDone(s, ZoneOf(nodes, 0))
    ensures ClusterDone(s, nodes, 1)
  {
    FirstZone(Core(s), nodes);
    assert FirstZones(nodes, 1) == ZoneOf(nodes, 0);
  }

  lemma NextTail(c: seq<Interval>, nodes: seq<Outages>, n: nat, z: seq<Interval>)
    requires |nodes| == N_NODES && n < N_ZONES && TailOf(c, FirstZones(nodes, n)) && TailOf(z, ZoneOf(nodes, n))
    ensures TailOf(c + z, FirstZones(nodes, n + 1))
  {
    TailConcat(c, FirstZones(nodes, n), z, ZoneOf(nodes, n));
    ZoneAfterZones(nodes, n);
  }

  lemma NextZoneDone(c: seq<Interval>, nodes: seq<Outages>, n: nat, z: seq<Interval>)
    requires |nodes| == N_NODES && n < N_ZONES && ClusterDone(c, nodes, n) && ZoneDone(z, ZoneOf(nodes, n))
    ensures ClusterDone(Merged(c, z, ZoneGen), nodes, n + 1)
  {
    ZoneGenGeneric();
    MergedFallsApart(c, z, ZoneGen);
    NextZone(Core(c), nodes, n, Core(z));
    ZoneAfterZones(nodes, n);
    MergedCuts(Core(c), FirstZones(nodes, n), Core(z), ZoneOf(nodes, n), ZoneGen);
    NextTail(Tail(c), nodes, n, Tail(z));
  }
}
