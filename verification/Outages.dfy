/** What one year of node outages means for zones and for the cluster, second by second,
    and how the merged lists of simulation.go come to say the same. */
module Outages {
  import opened CanonicalForm
  import opened IntervalLists
  import opened Intervals
  import opened Merge

  /** The outages of one node, in any order, possibly overlapping. */
  type Outages = seq<Interval>

  // ----- The specification: counting at one second -----

  /** How many of the nodes are down at second t. */
  ghost function DownNodes(nodes: seq<Outages>, t: nat): (d: nat)
    ensures d <= |nodes|
  {
    if nodes == [] then 0
    else
      var last := |nodes| - 1;
      DownNodes(nodes[..last], t) + if Covered(nodes[last], t) then 1 else 0
  }

  ghost function ZoneLoad(nodes: seq<Outages>, t: nat): Load {
    var d := DownNodes(nodes, t);
    if d == 0 then Up else Down(1, Share(d))
  }

  /** The nodes of zone z. */
  function ZoneOf(nodes: seq<Outages>, z: nat): seq<Outages>
    requires |nodes| == N_NODES && z < N_ZONES
  {
    nodes[z * ZONE_SIZE..(z + 1) * ZONE_SIZE]
  }

  /** The nodes of the first n zones. */
  function FirstZones(nodes: seq<Outages>, n: nat): seq<Outages>
    requires |nodes| == N_NODES && n <= N_ZONES
  {
    nodes[..n * ZONE_SIZE]
  }

  lemma ZoneAfterZones(nodes: seq<Outages>, n: nat)
    requires |nodes| == N_NODES && n < N_ZONES
    ensures FirstZones(nodes, n + 1) == FirstZones(nodes, n) + ZoneOf(nodes, n)
  {
  }

  /** How many of the first n zones have a node down at second t. */
  ghost function AffectedZones(nodes: seq<Outages>, n: nat, t: nat): (k: nat)
    requires |nodes| == N_NODES && n <= N_ZONES
    ensures k <= n
  {
    if n == 0 then 0
    else AffectedZones(nodes, n - 1, t) + if DownNodes(ZoneOf(nodes, n - 1), t) > 0 then 1 else 0
  }

  /** The product, over the affected zones among the first n, of the share of their nodes that is down. */
  ghost function ShareLost(nodes: seq<Outages>, n: nat, t: nat): real
    requires |nodes| == N_NODES && n <= N_ZONES
  {
    if n == 0 then 1.0
    else ShareLost(nodes, n - 1, t) * Factor(DownNodes(ZoneOf(nodes, n - 1), t))
  }

  /** What a zone with d nodes down contributes to the product. */
  function Factor(d: nat): real {
    if d > 0 then Share(d) else 1.0
  }

  ghost function ClusterLoad(nodes: seq<Outages>, n: nat, t: nat): Load
    requires |nodes| == N_NODES && n <= N_ZONES
  {
    var k := AffectedZones(nodes, n, t);
    if k == 0 then Up else Down(k, ShareLost(nodes, n, t))
  }

  // ----- The specification says what its names say -----

  ghost predicate NodeDown(nodes: seq<Outages>, i: nat, t: nat) {
    i < |nodes| && Covered(nodes[i], t)
  }

  /** As many nodes as there are with an outage at second t. */
  lemma {:induction false} DownNodesIsSize(nodes: seq<Outages>, t: nat)
    ensures DownNodes(nodes, t) == |set i: nat | i < |nodes| && NodeDown(nodes, i, t)|
  {
    var s := set i: nat | i < |nodes| && NodeDown(nodes, i, t);
    if nodes == [] {
      assert s == {};
    } else {
      var last := |nodes| - 1;
      DownNodesIsSize(nodes[..last], t);
      var before := set i: nat | i < last && NodeDown(nodes[..last], i, t);
      assert forall i: nat :: i < last ==> NodeDown(nodes[..last], i, t) == NodeDown(nodes, i, t);
      assert s == if NodeDown(nodes, last, t) then before + {last} else before;
    }
  }

  ghost predicate ZoneHit(nodes: seq<Outages>, z: nat, t: nat) {
    exists i: nat :: i < |nodes| && i / ZONE_SIZE == z && NodeDown(nodes, i, t)
  }

  lemma {:induction false} AnyNodeDown(nodes: seq<Outages>, t: nat)
    ensures DownNodes(nodes, t) > 0 <==> exists i: nat :: NodeDown(nodes, i, t)
  {
    if nodes != [] {
      var last := |nodes| - 1;
      AnyNodeDown(nodes[..last], t);
      if i: nat :| NodeDown(nodes[..last], i, t) { assert NodeDown(nodes, i, t); }
      if i: nat :| NodeDown(nodes, i, t) { assert i < last ==> NodeDown(nodes[..last], i, t); }
      assert Covered(nodes[last], t) ==> NodeDown(nodes, last, t);
    }
  }

  lemma ZoneIsHit(nodes: seq<Outages>, z: nat, t: nat)
    requires |nodes| == N_NODES && z < N_ZONES
    ensures DownNodes(ZoneOf(nodes, z), t) > 0 <==> ZoneHit(nodes, z, t)
  {
    var zone := ZoneOf(nodes, z);
    AnyNodeDown(zone, t);
    if j: nat :| NodeDown(zone, j, t) {
      var i := z * ZONE_SIZE + j;
      assert zone[j] == nodes[i] && i / ZONE_SIZE == z && NodeDown(nodes, i, t);
    }
    if i: nat :| i < |nodes| && i / ZONE_SIZE == z && NodeDown(nodes, i, t) {
      var j := i % ZONE_SIZE;
      assert i == z * ZONE_SIZE + j && zone[j] == nodes[i];
      assert NodeDown(zone, j, t);
    }
  }

  ghost function HitZones(nodes: seq<Outages>, n: nat, t: nat): set<nat> {
    set z: nat | z < n && ZoneHit(nodes, z, t)
  }

  lemma HitZonesNext(nodes: seq<Outages>, n: nat, t: nat)
    ensures |HitZones(nodes, n + 1, t)| == |HitZones(nodes, n, t)| + if ZoneHit(nodes, n, t) then 1 else 0
  {
    var before := HitZones(nodes, n, t);
    assert HitZones(nodes, n + 1, t) == if ZoneHit(nodes, n, t) then before + {n} else before;
  }

  /** As many zones as there are with such a node. */
  lemma {:induction false} AffectedZonesIsSize(nodes: seq<Outages>, n: nat, t: nat)
    requires |nodes| == N_NODES && n <= N_ZONES
    ensures AffectedZones(nodes, n, t) == |HitZones(nodes, n, t)|
  {
    if n == 0 {
      assert HitZones(nodes, 0, t) == {};
    } else {
      AffectedZonesIsSize(nodes, n - 1, t);
      ZoneIsHit(nodes, n - 1, t);
      HitZonesNext(nodes, n - 1, t);
    }
  }

  /** A zone all of whose nodes are down has lost all of its keys, and half of them with two. */
  lemma ShareOfZone()
    ensures Share(0) == 0.0 && Share(ZONE_SIZE / 2) == 0.5 && Share(ZONE_SIZE) == 1.0
    ensures forall d: nat, e: nat :: Share(d + e) == Share(d) + Share(e)
  {
    forall d: nat, e: nat ensures Share(d + e) == Share(d) + Share(e) {
      var x, y := d as real, e as real;
      assert (x + y) / 4.0 == x / 4.0 + y / 4.0;
    }
  }

  /** So many quarters; a zone without one is not counted. */
  function Quarters(d: nat): real {
    if d == 0 then 1.0 else d as real * 0.25
  }

  /** The share lost is the product over the zones that have a node down: of four nodes each, so many. */
  lemma ShareLostProduct(nodes: seq<Outages>, t: nat)
    requires |nodes| == N_NODES
    ensures ShareLost(nodes, N_ZONES, t) ==
            Quarters(DownNodes(nodes[0..4], t)) * Quarters(DownNodes(nodes[4..8], t)) * Quarters(DownNodes(nodes[8..12], t))
  {
    assert ZoneOf(nodes, 0) == nodes[0..4] && ZoneOf(nodes, 1) == nodes[4..8] && ZoneOf(nodes, 2) == nodes[8..12];
    assert ShareLost(nodes, 1, t) == 1.0 * Factor(DownNodes(nodes[0..4], t));
    assert ShareLost(nodes, 2, t) == ShareLost(nodes, 1, t) * Factor(DownNodes(nodes[4..8], t));
  }

  // ----- The lists of the program against the specification -----

  /** A node list after `normalize`: canonical, one affected zone, one node's share. */
  ghost predicate NodeReady(s: seq<Interval>, raw: Outages) {
    && Canonical(s) && SameCoverage(s, raw)
    && forall i :: 0 <= i < |s| ==> s[i].cnt == 1 && s[i].ratio == Share(1)
  }

  ghost predicate ZoneRight(s: seq<Interval>, nodes: seq<Outages>) {
    Disjoint(s) && forall t: nat :: LoadAt(s, t) == ZoneLoad(nodes, t)
  }

  ghost predicate ClusterRight(s: seq<Interval>, nodes: seq<Outages>, n: nat)
    requires |nodes| == N_NODES && n <= N_ZONES
  {
    Disjoint(s) && forall t: nat :: LoadAt(s, t) == ClusterLoad(nodes, n, t)
  }

  /** Nodes that were normalized from the same coverage are the same list, whatever the order of
      the failures and whatever the sorting algorithm did with equal starts. */
  lemma NodeReadyUnique(a: seq<Interval>, b: seq<Interval>, raw: Outages, raw': Outages)
    requires NodeReady(a, raw) && NodeReady(b, raw') && SameCoverage(raw, raw')
    ensures a == b
  {
    forall t: nat ensures Covered(a, t) <==> Covered(b, t) {
      assert Covered(raw, t) <==> Covered(raw', t);
    }
    CanonicalUnique(a, b);
  }

  lemma NodeLoad(s: seq<Interval>, raw: Outages, t: nat)
    requires NodeReady(s, raw)
    ensures LoadAt(s, t) == if Covered(raw, t) then Down(1, Share(1)) else Up
  {
    assert Covered(s, t) <==> Covered(raw, t);
  }

  lemma DownNodesSnoc(nodes: seq<Outages>, raw: Outages, t: nat)
    ensures DownNodes(nodes + [raw], t) == DownNodes(nodes, t) + if Covered(raw, t) then 1 else 0
  {
    assert (nodes + [raw])[..|nodes|] == nodes;
  }

  /** A zone starts as a copy of its first node. */
  lemma FirstNode(s: seq<Interval>, raw: Outages)
    requires NodeReady(s, raw)
    ensures ZoneRight(s, [raw])
  {
    forall t: nat ensures LoadAt(s, t) == ZoneLoad([raw], t) {
      NodeLoad(s, raw, t);
      DownNodesSnoc([], raw, t);
      assert [] + [raw] == [raw];
    }
  }

  // ----- The two instances of merge, second by second -----

  /** Within a zone: the shares add up, the count stays that of one affected zone. */
  function JoinNodes(l: Load, m: Load): Load {
    if l.Up? then m else if m.Up? then l else Down(l.cnt, l.ratio + m.ratio)
  }

  /** Between zones: the counts add up, the shares are multiplied. */
  function JoinZones(l: Load, m: Load): Load {
    if l.Up? then m else if m.Up? then l else Down(l.cnt + m.cnt, l.ratio * m.ratio)
  }

  lemma NodeGenGeneric()
    ensures Generic(NodeGen)
  {
  }

  lemma ZoneGenGeneric()
    ensures Generic(ZoneGen)
  {
  }

  /** MergeNodes adds shares pointwise, given that both sides carry the same count. */
  lemma MergeNodesPointwise(a: seq<Interval>, b: seq<Interval>, t: nat)
    requires Disjoint(a) && Disjoint(b)
    requires LoadAt(a, t).Down? && LoadAt(b, t).Down? ==> LoadAt(a, t).cnt == LoadAt(b, t).cnt
    ensures LoadAt(Merged(a, b, NodeGen), t) == JoinNodes(LoadAt(a, t), LoadAt(b, t))
  {
    NodeGenGeneric();
    MergedLoad(a, b, NodeGen, t);
    BothNodes(PieceAt(a, t), PieceAt(b, t));
  }

  lemma BothNodes(p: Option<Interval>, q: Option<Interval>)
    requires p.Some? && q.Some? ==> p.value.cnt == q.value.cnt
    ensures LoadOfBoth(p, q, NodeGen) == JoinNodes(LoadOf(p), LoadOf(q))
  {
    if p.Some? && q.Some? {
      var r, s := p.value.ratio, q.value.ratio;
      assert r + s == s + r;
    }
  }

  /** MergeZones adds counts and multiplies shares pointwise, on any two disjoint lists. */
  lemma MergeZonesPointwise(a: seq<Interval>, b: seq<Interval>, t: nat)
    requires Disjoint(a) && Disjoint(b)
    ensures LoadAt(Merged(a, b, ZoneGen), t) == JoinZones(LoadAt(a, t), LoadAt(b, t))
  {
    ZoneGenGeneric();
    MergedLoad(a, b, ZoneGen, t);
    BothZones(PieceAt(a, t), PieceAt(b, t));
  }

  function LoadOf(p: Option<Interval>): Load {
    if p.None? then Up else p.value.Load()
  }

  lemma BothZones(p: Option<Interval>, q: Option<Interval>)
    ensures LoadOfBoth(p, q, ZoneGen) == JoinZones(LoadOf(p), LoadOf(q))
  {
    if p.Some? && q.Some? {
      var r, s := p.value.ratio, q.value.ratio;
      assert r * s == s * r;
    }
  }

  /** Merging one more node into its zone adds its share where it is down. */
  lemma NextNode(z: seq<Interval>, nodes: seq<Outages>, s: seq<Interval>, raw: Outages)
    requires ZoneRight(z, nodes) && NodeReady(s, raw)
    ensures ZoneRight(Merged(z, s, NodeGen), nodes + [raw])
  {
    NodeGenGeneric();
    MergedDisjoint(z, s, NodeGen, 0);
    forall t: nat ensures LoadAt(Merged(z, s, NodeGen), t) == ZoneLoad(nodes + [raw], t) {
      NodeLoad(s, raw, t);
      assert LoadAt(z, t) == ZoneLoad(nodes, t);
      MergeNodesPointwise(z, s, t);
      NextNodeAt(nodes, raw, t);
    }
  }

  lemma NextNodeAt(nodes: seq<Outages>, raw: Outages, t: nat)
    ensures ZoneLoad(nodes + [raw], t) ==
            JoinNodes(ZoneLoad(nodes, t), if Covered(raw, t) then Down(1, Share(1)) else Up)
  {
    DownNodesSnoc(nodes, raw, t);
  }

  /** The cluster starts as a copy of its first zone. */
  lemma FirstZone(s: seq<Interval>, nodes: seq<Outages>)
    requires |nodes| == N_NODES && ZoneRight(s, ZoneOf(nodes, 0))
    ensures ClusterRight(s, nodes, 1)
  {
    forall t: nat ensures LoadAt(s, t) == ClusterLoad(nodes, 1, t) {
      assert LoadAt(s, t) == ZoneLoad(ZoneOf(nodes, 0), t);
      assert AffectedZones(nodes, 0, t) == 0 && ShareLost(nodes, 0, t) == 1.0;
    }
  }

  /** Merging one more zone adds its count and multiplies its share where it is affected. */
  lemma NextZone(c: seq<Interval>, nodes: seq<Outages>, n: nat, z: seq<Interval>)
    requires |nodes| == N_NODES && n < N_ZONES
    requires ClusterRight(c, nodes, n) && ZoneRight(z, ZoneOf(nodes, n))
    ensures ClusterRight(Merged(c, z, ZoneGen), nodes, n + 1)
  {
    ZoneGenGeneric();
    MergedDisjoint(c, z, ZoneGen, 0);
    forall t: nat ensures LoadAt(Merged(c, z, ZoneGen), t) == ClusterLoad(nodes, n + 1, t) {
      assert LoadAt(c, t) == ClusterLoad(nodes, n, t);
      assert LoadAt(z, t) == ZoneLoad(ZoneOf(nodes, n), t);
      MergeZonesPointwise(c, z, t);
      NextZoneAt(nodes, n, t);
    }
  }

  lemma NextZoneAt(nodes: seq<Outages>, n: nat, t: nat)
    requires |nodes| == N_NODES && n < N_ZONES
    ensures ClusterLoad(nodes, n + 1, t) == JoinZones(ClusterLoad(nodes, n, t), ZoneLoad(ZoneOf(nodes, n), t))
  {
    NothingAffectedNothingLost(nodes, n, t);
  }

  lemma {:induction false} NothingAffectedNothingLost(nodes: seq<Outages>, n: nat, t: nat)
    requires |nodes| == N_NODES && n <= N_ZONES
    ensures AffectedZones(nodes, n, t) == 0 ==> ShareLost(nodes, n, t) == 1.0
  {
    if n > 0 {
      NothingAffectedNothingLost(nodes, n - 1, t);
    }
  }
}
