/** The availability simulation of simulation.go: node outages to zones, zones to the cluster,
    cluster to counters. */
module Availability {
  import opened CanonicalForm
  import opened Draws
  import opened Events
  import opened IntervalLists
  import opened Intervals
  import opened LateOutages
  import opened Outages
  import opened Seconds

  class Statistic {
    var n: int
    var dur: int
    var rat: real

    constructor ()
      ensures Value() == ZERO
    {
      n, dur, rat := 0, 0, 0.0;
    }

    function Value(): Total
      reads this
    {
      Total(n, dur, rat)
    }

    method Update(x: Interval)
      modifies this
      ensures Value() == old(Value()).Add(x)
      ensures n == old(n) + 1 && dur == old(dur) + x.Duration() && rat == old(rat) + x.ratio
    {
      n := n + 1;
      dur := dur + x.Duration();
      rat := rat + x.ratio;
    }

    method Reset()
      modifies this
      ensures Value() == ZERO
    {
      n, dur, rat := 0, 0, 0.0;
    }

    method Aggregate(other: Statistic)
      requires other != this
      modifies this
      ensures Value() == old(Value()).Plus(other.Value())
      ensures n == old(n) + other.n && dur == old(dur) + other.dur && rat == old(rat) + other.rat
    {
      n := n + other.n;
      dur := dur + other.dur;
      rat := rat + other.rat;
    }
  }

  class Result {
    var n: int
    const atLeast2: Statistic
    const outages: seq<Statistic>
    const failures: seq<Statistic>

    constructor ()
      ensures Valid() && IsReset()
      ensures fresh(atLeast2) && (forall k :: 0 <= k < N_ZONES ==> fresh(outages[k]) && fresh(failures[k]))
    {
      atLeast2 := new Statistic();
      var o0 := new Statistic();
      var o1 := new Statistic();
      var o2 := new Statistic();
      var f0 := new Statistic();
      var f1 := new Statistic();
      var f2 := new Statistic();
      n := 0;
      outages := [o0, o1, o2];
      failures := [f0, f1, f2];
    }

    method Reset()
      requires Valid()
      modifies this, atLeast2, outages, failures
      ensures IsReset()
    {
      n := 0;
      atLeast2.Reset();
      for k := 0 to N_ZONES
        invariant n == 0 && atLeast2.Value() == ZERO
        invariant forall j :: 0 <= j < k ==> outages[j].Value() == ZERO && failures[j].Value() == ZERO
      {
        outages[k].Reset();
        failures[k].Reset();
      }
    }

    /** Sums up the counters of two results that have none in common. */
    method Aggregate(other: Result)
      requires Valid() && other.Valid() && Repr() !! other.Repr()
      modifies this, atLeast2, outages, failures
      ensures n == old(n) + other.n && atLeast2.Value() == old(atLeast2.Value()).Plus(other.atLeast2.Value())
      ensures forall k :: 0 <= k < N_ZONES ==> outages[k].Value() == old(outages[k].Value()).Plus(other.outages[k].Value())
      ensures forall k :: 0 <= k < N_ZONES ==> failures[k].Value() == old(failures[k].Value()).Plus(other.failures[k].Value())
    {
      PartsApart(other);
      n := n + other.n;
      atLeast2.Aggregate(other.atLeast2);
      AggregateAll(outages, other.outages);
      AggregateAll(failures, other.failures);
    }

    lemma PartsApart(other: Result)
      requires Valid() && other.Valid() && Repr() !! other.Repr()
      ensures this != other && atLeast2 != other.atLeast2
      ensures other.atLeast2 !in outages && other.atLeast2 !in failures
      ensures forall k :: 0 <= k < N_ZONES ==>
                && other.outages[k] != atLeast2 && other.failures[k] != atLeast2
                && other.outages[k] !in outages && other.failures[k] !in failures
                && other.outages[k] !in failures && other.failures[k] !in outages
    {
      assert this in Repr() && other in other.Repr() && atLeast2 in Repr() && other.atLeast2 in other.Repr();
      assert forall x: object :: x in Repr() ==> x !in other.Repr();
      forall k | 0 <= k < N_ZONES
        ensures other.outages[k] in other.Repr() && other.failures[k] in other.Repr()
      {
      }
    }

    static method AggregateAll(a: seq<Statistic>, b: seq<Statistic>)
      requires |a| == |b| && (forall i, j :: 0 <= i < j < |a| ==> a[i] != a[j]) && forall i :: 0 <= i < |b| ==> b[i] !in a
      modifies a
      ensures forall k :: 0 <= k < |a| ==> a[k].Value() == old(a[k].Value()).Plus(b[k].Value())
    {
      for i := 0 to |a|
        invariant forall k :: 0 <= k < i ==> a[k].Value() == old(a[k].Value()).Plus(b[k].Value())
        invariant forall k :: i <= k < |a| ==> a[k].Value() == old(a[k].Value())
      {
        a[i].Aggregate(b[i]);
      }
    }

    /** The result and its counters. */
    ghost function Repr(): set<object> {
      {this, atLeast2} + (set o | o in outages) + (set f | f in failures)
    }

    /** One separate counter for each kind of event. */
    ghost predicate Valid() {
      && |outages| == N_ZONES && |failures| == N_ZONES
      && atLeast2 !in outages && atLeast2 !in failures
      && (forall i, j :: 0 <= i < j < N_ZONES ==> outages[i] != outages[j])
      && (forall i, j :: 0 <= i < j < N_ZONES ==> failures[i] != failures[j])
      && (forall i, j :: 0 <= i < N_ZONES && 0 <= j < N_ZONES ==> outages[i] != failures[j])
    }

    ghost predicate IsReset()
      requires Valid()
      reads this, atLeast2, outages, failures
    {
      n == 0 && atLeast2.Value() == ZERO
      && forall k :: 0 <= k < N_ZONES ==> outages[k].Value() == ZERO && failures[k].Value() == ZERO
    }
  }

  class AvailabilityYear {
    var nodes: seq<IntervalList>
    var zones: seq<IntervalList>
    var cluster: IntervalList
    var tmp: IntervalList
    const res: Result

    /** Every list has its own storage, which `merge` needs and the swaps with tmp maintain. */
    ghost predicate Valid()
      reads this
    {
      && |nodes| == N_NODES && |zones| == N_ZONES
      && (forall i, j :: 0 <= i < j < N_NODES ==> nodes[i] != nodes[j])
      && Separate(zones, cluster, tmp) && cluster !in nodes && Outside(zones, tmp, nodes)
    }

    /** The year, its lists and its counters. */
    ghost function Repr(): set<object>
      reads this
    {
      var lists: set<IntervalList> := (set n | n in nodes) + (Store(zones, tmp) + {cluster});
      var year: set<object> := {this};
      year + lists + res.Repr()
    }

    constructor ()
      ensures Valid() && res.Valid() && IsReset()
      ensures fresh(nodes) && fresh(zones) && fresh(cluster) && fresh(tmp)
      ensures fresh(res) && fresh(res.atLeast2) && fresh(res.outages) && fresh(res.failures)
    {
      var ns := NewLists(N_NODES);
      var zs := NewLists(N_ZONES);
      nodes := ns;
      zones := zs;
      cluster := new IntervalList();
      tmp := new IntervalList();
      res := new Result();
    }

    /** As after `Reset`: no outage, no counter. */
    ghost predicate IsReset()
      requires Valid() && res.Valid()
      reads this, nodes, zones, cluster, tmp, res, res.atLeast2, res.outages, res.failures
    {
      && (forall i :: 0 <= i < N_NODES ==> nodes[i].s == [])
      && (forall z :: 0 <= z < N_ZONES ==> zones[z].s == [])
      && cluster.s == [] && tmp.s == [] && res.IsReset()
    }

    /** No outages, no counters. */
    method Reset()
      requires Valid() && res.Valid()
      modifies nodes, zones, cluster, tmp, res, res.atLeast2, res.outages, res.failures
      ensures IsReset()
    {
      ResetAll(nodes);
      ResetAll(zones);
      cluster.Reset();
      tmp.Reset();
      res.Reset();
    }

    /** Builds the outages of a year; ok tells that the draws were enough. */
    method Build(draws: seq<nat>, hw: seq<bool>, net: seq<bool>) returns (ok: bool, rest: seq<nat>, ghost lists: seq<Outages>)
      requires Valid() && InYear(draws) && |hw| == N_NODES && |net| == N_ZONES
      requires (forall i :: 0 <= i < N_NODES ==> nodes[i].s == []) && cluster.s == [] && tmp.s == []
      modifies nodes, cluster, tmp
      ensures InYear(rest) && |lists| == N_NODES
      ensures if ok then YearDrawn(draws, hw, net, lists, tmp.s, rest) else DrawsRunOut(draws, hw, net, lists)
      ensures ok ==> |tmp.s| == N_EVENTS && forall n :: 0 <= n < N_NODES ==> nodes[n].s == lists[n] + GlobalEvents(tmp.s, n)
    {
      ghost var own := OwnDrawn(draws, hw, |hw|);
      OwnDrawnBuilt(draws, hw, |hw|);
      NetsDrawnInYear(own.rest, net, |net|);
      ok, rest, lists := BuildNodes(draws, hw, net);
      if ok {
        EventsDrawnScheduled(cluster.s, rest);
        ok, rest := BuildGlobalEvents(rest);
        if ok {
          RetrofitGlobalEvents();
        }
      }
    }

    /** Random outages of each node, failures of the network of a zone, and their global view. hw tells which
        nodes have a hardware failure, net which zones a network failure; ok that the draws were enough. */
    method BuildNodes(draws: seq<nat>, hw: seq<bool>, net: seq<bool>)
      returns (ok: bool, rest: seq<nat>, ghost lists: seq<Outages>)
      requires Valid() && InYear(draws) && |hw| == N_NODES && |net| == N_ZONES
      requires (forall i :: 0 <= i < N_NODES ==> nodes[i].s == []) && cluster.s == []
      modifies nodes, cluster
      ensures |lists| == N_NODES && forall i :: 0 <= i < N_NODES ==> nodes[i].s == lists[i]
      ensures var own := OwnDrawn(draws, hw, |hw|);
              var nets := NetsDrawn(own.rest, net, |net|);
              && (ok <==> own.ok && nets.ok) && rest == (if own.ok then nets.rest else own.rest)
              && (ok ==> NodesBuilt(lists, own.lists, nets.times) && cluster.s == Gathered(lists))
    {
      ghost var own := OwnDrawn(draws, hw, |hw|);
      OwnDrawnBuilt(draws, hw, |hw|);
      ok, rest := BuildOwn(draws, hw);
      if ok {
        ok, rest := BuildNets(rest, net, own.lists);
      }
      lists := Contents(nodes);
      if ok {
        ZonesBuilt(lists, own.lists, NetsDrawn(own.rest, net, |net|).times);
        Gather(lists);
      }
    }

    method BuildOwn(draws: seq<nat>, hw: seq<bool>) returns (ok: bool, rest: seq<nat>)
      requires Valid() && InYear(draws) && |hw| == N_NODES && forall i :: 0 <= i < N_NODES ==> nodes[i].s == []
      modifies nodes
      ensures var own := OwnDrawn(draws, hw, |hw|);
              ok == own.ok && rest == own.rest && (ok ==> forall i :: 0 <= i < N_NODES ==> nodes[i].s == own.lists[i])
    {
      ok, rest := true, draws;
      ghost var own := OwnDrawn(draws, hw, 0);
      for i := 0 to N_NODES
        invariant own == OwnDrawn(draws, hw, i) && own.ok && rest == own.rest && ok
        invariant forall k :: 0 <= k < i ==> nodes[k].s == own.lists[k]
        invariant forall k :: i <= k < N_NODES ==> nodes[k].s == []
      {
        OwnDrawnBuilt(draws, hw, i);
        ok, rest := BuildNode(nodes[i], rest, hw[i]);
        if !ok {
          OwnFails(draws, hw, i + 1, |hw|);
          return;
        }
        own := OwnDrawn(draws, hw, i + 1);
      }
    }

    method BuildNets(draws: seq<nat>, net: seq<bool>, ghost own: seq<Outages>) returns (ok: bool, rest: seq<nat>)
      requires Valid() && |net| == N_ZONES && InYear(draws)
      requires |own| == N_NODES && forall i :: 0 <= i < N_NODES ==> nodes[i].s == own[i]
      modifies nodes
      ensures var nets := NetsDrawn(draws, net, |net|);
              && ok == nets.ok && rest == nets.rest
              && (ok ==> forall z: nat :: z < N_ZONES ==> BuiltZone(z, own, nets.times[z]))
    {
      ok, rest := true, draws;
      ghost var nets := NetsDrawn(draws, net, 0);
      for iZ := 0 to N_ZONES
        invariant nets == NetsDrawn(draws, net, iZ) && nets.ok && rest == nets.rest && ok
        invariant forall z: nat :: z < iZ ==> BuiltZone(z, own, nets.times[z])
        invariant forall i :: 0 <= i < N_NODES && iZ * ZONE_SIZE <= i ==> nodes[i].s == own[i]
      {
        NetsDrawnInYear(draws, net, iZ);
        if net[iZ] {
          if rest == [] {
            ok := false;
            NetsFail(draws, net, iZ + 1, |net|);
            return;
          }
          FailZone(iZ, rest[0], MTBR_NET_FAILURE);
          rest := rest[1..];
        }
        nets := NetsDrawn(draws, net, iZ + 1);
      }
    }

    /** The nodes of zone z have their own failures and that of its network. */
    ghost predicate BuiltZone(z: nat, own: seq<Outages>, net: Option<nat>)
      requires Valid() && z < N_ZONES && |own| == N_NODES
      reads this, nodes
    {
      forall i :: z * ZONE_SIZE <= i < (z + 1) * ZONE_SIZE ==> nodes[i].s == WithNet(own[i], net)
    }

    lemma ZonesBuilt(lists: seq<Outages>, own: seq<Outages>, nets: seq<Option<nat>>)
      requires Valid() && |lists| == |own| == N_NODES && |nets| == N_ZONES
      requires forall i :: 0 <= i < N_NODES ==> nodes[i].s == lists[i]
      requires forall z: nat :: z < N_ZONES ==> BuiltZone(z, own, nets[z])
      ensures NodesBuilt(lists, own, nets)
    {
      forall z: nat | z < N_ZONES
        ensures ZoneBuilt(ZoneOf(lists, z), ZoneOf(own, z), nets[z])
      {
        assert BuiltZone(z, own, nets[z]);
      }
    }

    /** The global view: the outages of all nodes. */
    method Gather(ghost lists: seq<Outages>)
      requires Valid() && |lists| == N_NODES && cluster.s == []
      requires forall i :: 0 <= i < N_NODES ==> nodes[i].s == lists[i]
      modifies cluster
      ensures cluster.s == Gathered(lists)
      ensures forall i :: 0 <= i < N_NODES ==> nodes[i].s == lists[i]
    {
      for i := 0 to N_NODES
        invariant cluster.s == Gathered(lists[..i])
        invariant forall k :: 0 <= k < N_NODES ==> nodes[k].s == lists[k]
      {
        assert lists[..i + 1][..i] == lists[..i];
        cluster.s := cluster.s + nodes[i].s;
      }
      assert lists[..N_NODES] == lists;
    }

    /** Schedules the rolling upgrades and the zone shutdowns; ok tells that the draws were enough. */
    method BuildGlobalEvents(draws: seq<nat>) returns (ok: bool, rest: seq<nat>)
      requires Valid() && tmp.s == [] && InYear(draws)
      modifies tmp
      ensures var d := EventsDrawn(cluster.s, draws);
              tmp.s == d.list && rest == d.rest && (ok <==> d.left == 0)
    {
      DrawnApart([], cluster.s, N_ROLLING_UPGRADES, draws, EventDuration(0));
      ok, rest := ScheduleEvents(cluster, tmp, N_ROLLING_UPGRADES, EventDuration(0), draws);
      if ok {
        ok, rest := ScheduleEvents(cluster, tmp, N_ZONE_SHUTDOWNS * N_ZONES, EventDuration(N_ROLLING_UPGRADES), rest);
      }
    }

    /** Global events become node failures. */
    method RetrofitGlobalEvents()
      requires Valid() && |tmp.s| >= N_ROLLING_UPGRADES + N_ZONE_SHUTDOWNS * N_ZONES
      requires forall i :: 0 <= i < |tmp.s| ==> tmp.s[i].beg < MAXSECS
      modifies nodes
      ensures forall n :: 0 <= n < N_NODES ==> nodes[n].s == old(nodes[n].s) + GlobalEvents(tmp.s, n)
    {
      RollingUpgrades();
      ZoneShutdowns();
    }

    method RollingUpgrades()
      requires Valid() && |tmp.s| >= N_ROLLING_UPGRADES
      requires forall i :: 0 <= i < |tmp.s| ==> tmp.s[i].beg < MAXSECS
      modifies nodes
      ensures forall n :: 0 <= n < N_NODES ==> nodes[n].s == old(nodes[n].s) + Upgrades(tmp.s, n, N_ROLLING_UPGRADES)
    {
      var idx := 0;
      for i := 0 to N_ROLLING_UPGRADES
        invariant idx == i
        invariant forall n :: 0 <= n < N_NODES ==> nodes[n].s == old(nodes[n].s) + Upgrades(tmp.s, n, i)
      {
        RollingUpgrade(tmp.s[idx].beg);
        idx := idx + 1;
      }
    }

    method ZoneShutdowns()
      requires Valid() && |tmp.s| >= N_ROLLING_UPGRADES + N_ZONE_SHUTDOWNS * N_ZONES
      requires forall i :: 0 <= i < |tmp.s| ==> tmp.s[i].beg < MAXSECS
      modifies nodes
      ensures forall n :: 0 <= n < N_NODES ==> nodes[n].s == old(nodes[n].s) + [Shutdown(tmp.s, n)]
    {
      var idx := N_ROLLING_UPGRADES;
      for iZ := 0 to N_ZONE_SHUTDOWNS * N_ZONES
        invariant idx == N_ROLLING_UPGRADES + iZ
        invariant forall n :: 0 <= n < iZ * ZONE_SIZE ==> nodes[n].s == old(nodes[n].s) + [Shutdown(tmp.s, n)]
        invariant forall n :: iZ * ZONE_SIZE <= n < N_NODES ==> nodes[n].s == old(nodes[n].s)
      {
        FailZone(iZ, tmp.s[idx].beg, MTBR_ZONE_SHUTDOWN);
        assert forall n :: iZ * ZONE_SIZE <= n < (iZ + 1) * ZONE_SIZE ==> n / ZONE_SIZE == iZ;
        idx := idx + 1;
      }
    }

    /** A rolling upgrade takes the nodes down one after the other. */
    method RollingUpgrade(t: nat)
      requires Valid() && t < MAXSECS
      modifies nodes
      ensures forall n :: 0 <= n < N_NODES ==>
                nodes[n].s == old(nodes[n].s) + [Failure(UpgradeTime(t, n), MTBR_ROLLING_UPGRADE)]
    {
      var tRU := t;
      for n := 0 to N_NODES
        invariant tRU == UpgradeTime(t, n)
        invariant forall m :: n <= m < N_NODES ==> nodes[m].s == old(nodes[m].s)
        invariant forall m :: 0 <= m < n ==>
                    nodes[m].s == old(nodes[m].s) + [Failure(UpgradeTime(t, m), MTBR_ROLLING_UPGRADE)]
      {
        var _ := nodes[n].AddFailure(tRU, MTBR_ROLLING_UPGRADE, false);
        tRU := tRU + MTBR_ROLLING_UPGRADE + IDLE_ROLLING_UPGRADE;
      }
    }

    /** The nodes of a zone go down together. */
    method FailZone(iZ: nat, t: nat, mttr: nat)
      requires Valid() && iZ < N_ZONES && t < MAXSECS && mttr < UINT32
      modifies nodes
      ensures forall n :: 0 <= n < N_NODES && !(iZ * ZONE_SIZE <= n < (iZ + 1) * ZONE_SIZE) ==>
                nodes[n].s == old(nodes[n].s)
      ensures forall n :: iZ * ZONE_SIZE <= n < (iZ + 1) * ZONE_SIZE ==>
                nodes[n].s == old(nodes[n].s) + [Failure(t, mttr)]
    {
      var base := iZ * ZONE_SIZE;
      var ns := nodes[base..base + ZONE_SIZE];
      FailTogether(ns, t, mttr);
      assert forall n :: base <= n < base + ZONE_SIZE ==> nodes[n] == ns[n - base];
      assert forall n :: 0 <= n < N_NODES && !(base <= n < base + ZONE_SIZE) ==> nodes[n] !in ns;
    }

    /** From node outages to cluster outages. */
    method Simulate(ghost raw: seq<Outages>)
      requires Valid() && |raw| == N_NODES
      requires forall i :: 0 <= i < N_NODES ==> nodes[i].s == raw[i] && AllClamped(raw[i])
      requires forall z :: 0 <= z < N_ZONES ==> zones[z].s == []
      modifies this, nodes, Store(zones, tmp), cluster
      ensures Valid() && nodes == old(nodes)
      ensures Store(zones, tmp) + {cluster} == old(Store(zones, tmp) + {cluster})
      ensures ClusterDone(cluster.s, raw, N_ZONES)
    {
      tmp.Reset();
      cluster.Reset();
      NormalizeNodes(raw);
      SimulateZones(raw);
      SimulateCluster(raw);
    }

    /** Every node list in canonical form, every interval carrying one node's share. */
    method NormalizeNodes(ghost raw: seq<Outages>)
      requires Valid() && |raw| == N_NODES
      requires forall i :: 0 <= i < N_NODES ==> nodes[i].s == raw[i] && AllClamped(raw[i])
      modifies nodes
      ensures forall i :: 0 <= i < N_NODES ==> NodeDone(nodes[i].s, raw[i])
    {
      for i := 0 to N_NODES
        invariant forall k :: 0 <= k < i ==> NodeDone(nodes[k].s, raw[k])
        invariant forall k :: i <= k < N_NODES ==> nodes[k].s == raw[k]
      {
        NormalizeNode(nodes[i], raw[i]);
      }
    }

    method SimulateZones(ghost raw: seq<Outages>)
      requires Valid() && |raw| == N_NODES
      requires forall i :: 0 <= i < N_NODES ==> NodeDone(nodes[i].s, raw[i])
      requires forall z :: 0 <= z < N_ZONES ==> zones[z].s == []
      modifies this`zones, this`tmp, nodes, Store(zones, tmp)
      ensures Valid() && Store(zones, tmp) == old(Store(zones, tmp))
      ensures forall z :: 0 <= z < N_ZONES ==> ZoneDone(zones[z].s, ZoneOf(raw, z))
    {
      ghost var before, after: seq<seq<Interval>> := Contents(nodes), [];
      for iZ := 0 to N_ZONES
        invariant Valid() && Store(zones, tmp) == old(Store(zones, tmp))
        invariant |after| == iZ && forall z :: 0 <= z < iZ ==> zones[z].s == after[z]
        invariant forall z :: 0 <= z < iZ ==> ZoneDone(after[z], ZoneOf(raw, z))
        invariant forall z :: iZ <= z < N_ZONES ==> zones[z].s == []
        invariant forall i :: 0 <= i < N_NODES && iZ * ZONE_SIZE <= i ==> nodes[i].s == before[i]
      {
        ZoneInputs(before, raw, iZ);
        SimulateZone(iZ, ZoneOf(raw, iZ));
        after := after + [zones[iZ].s];
      }
    }

    /** One turn of the loop over the zones. */
    method SimulateZone(iZ: nat, ghost raw: seq<Outages>)
      requires Valid() && iZ < N_ZONES && |raw| == ZONE_SIZE && zones[iZ].s == []
      requires forall i :: 0 <= i < ZONE_SIZE ==> NodeDone(nodes[iZ * ZONE_SIZE + i].s, raw[i])
      modifies this`zones, this`tmp, nodes, Store(zones, tmp)
      ensures Valid() && Store(zones, tmp) == old(Store(zones, tmp))
      ensures forall k :: 0 <= k < N_ZONES && k != iZ ==> zones[k] == old(zones[k]) && zones[k].s == old(zones[k].s)
      ensures forall i :: (iZ + 1) * ZONE_SIZE <= i < N_NODES ==> nodes[i].s == old(nodes[i].s)
      ensures ZoneDone(zones[iZ].s, raw)
    {
      var ns := nodes[iZ * ZONE_SIZE..(iZ + 1) * ZONE_SIZE];
      NodesOfZone(nodes, iZ, ns);
      SimulateNodes(iZ, ns, raw);
      SameStoreOutside(old(zones), old(tmp), zones, tmp, nodes);
    }

    /** The nodes of the zone, merged into its list, which may trade places with tmp. */
    method SimulateNodes(iZ: nat, ns: seq<IntervalList>, ghost raw: seq<Outages>)
      requires Separate(zones, cluster, tmp) && Outside(zones, tmp, ns) && iZ < |zones| && zones[iZ].s == []
      requires |ns| == |raw| == ZONE_SIZE && forall i, j :: 0 <= i < j < |ns| ==> ns[i] != ns[j]
      requires forall i :: 0 <= i < ZONE_SIZE ==> NodeDone(ns[i].s, raw[i])
      modifies this`zones, this`tmp, ns, Store(zones, tmp)
      ensures Separate(zones, cluster, tmp) && |zones| == |old(zones)| && Store(zones, tmp) == old(Store(zones, tmp))
      ensures forall k :: 0 <= k < |zones| && k != iZ ==> zones[k] == old(zones[k]) && zones[k].s == old(zones[k].s)
      ensures ZoneDone(zones[iZ].s, raw)
    {
      assert zones[iZ] in Store(zones, tmp) && tmp in Store(zones, tmp);
      var z, t := MergeZone(zones[iZ], tmp, ns, raw);
      ExchangeKeepsSeparate(zones, cluster, tmp, z, t, iZ);
      zones, tmp := zones[iZ := z], t;
    }

    /** The zones, merged one by one into the cluster with the help of tmp. */
    method SimulateCluster(ghost raw: seq<Outages>)
      requires Valid() && |raw| == N_NODES && cluster.s == []
      requires forall z :: 0 <= z < N_ZONES ==> ZoneDone(zones[z].s, ZoneOf(raw, z))
      modifies this`cluster, this`tmp, cluster, Store(zones, tmp)
      ensures Valid() && {cluster, tmp} == old({cluster, tmp})
      ensures ClusterDone(cluster.s, raw, N_ZONES)
    {
      cluster, tmp := MergeCluster(cluster, tmp, zones, raw);
    }

    /** Aggregates the cluster outages into the counters. */
    method Evaluate()
      requires res.Valid()
      requires forall i :: 0 <= i < |cluster.s| ==> cluster.s[i].cnt <= N_ZONES
      modifies res, res.atLeast2, res.outages, res.failures
      ensures res.n == old(res.n) + 1
      ensures res.atLeast2.Value() ==
              TotalOf(old(res.atLeast2.Value()), cluster.s, |cluster.s|, MultiplePick(cluster.s))
      ensures forall k :: 0 <= k < N_ZONES ==>
                res.outages[k].Value() == TotalOf(old(res.outages[k].Value()), cluster.s, |cluster.s|, OutagePick(cluster.s, k))
      ensures forall k :: 0 <= k < N_ZONES ==>
                res.failures[k].Value() == TotalOf(old(res.failures[k].Value()), cluster.s, |cluster.s|, FailurePick(cluster.s, k))
    {
      res.n := res.n + 1;
      var s := cluster.s;
      for i := 0 to |s|
        invariant res.n == old(res.n) + 1
        invariant res.atLeast2.Value() == TotalOf(old(res.atLeast2.Value()), s, i, MultiplePick(s))
        invariant forall k :: 0 <= k < N_ZONES ==>
                    res.outages[k].Value() == TotalOf(old(res.outages[k].Value()), s, i, OutagePick(s, k))
        invariant forall k :: 0 <= k < N_ZONES ==>
                    res.failures[k].Value() == TotalOf(old(res.failures[k].Value()), s, i, FailurePick(s, k))
      {
        EvaluateOne(s, i);
      }
    }

    /** One turn of the loop of Evaluate. */
    method EvaluateOne(s: seq<Interval>, i: nat)
      requires res.Valid() && i < |s| && s[i].cnt <= N_ZONES
      modifies res.atLeast2, res.outages, res.failures
      ensures res.atLeast2.Value() == Picked(old(res.atLeast2.Value()), s, i, MultiplePick(s))
      ensures forall k :: 0 <= k < N_ZONES ==>
                res.outages[k].Value() == Picked(old(res.outages[k].Value()), s, i, OutagePick(s, k))
      ensures forall k :: 0 <= k < N_ZONES ==>
                res.failures[k].Value() == Picked(old(res.failures[k].Value()), s, i, FailurePick(s, k))
    {
      var x := s[i];
      if x.cnt > 0 {
        EvaluateOutage(s, i);
        if x.cnt > 1 || !AlmostEqual(x.ratio, Share(1)) {
          res.atLeast2.Update(x);
        }
      }
    }

    /** The outage counters, and the failure counters if a failure sets in. */
    method EvaluateOutage(s: seq<Interval>, i: nat)
      requires res.Valid() && i < |s| && 0 < s[i].cnt <= N_ZONES
      modifies res.outages, res.failures
      ensures forall k :: 0 <= k < N_ZONES ==>
                res.outages[k].Value() == Picked(old(res.outages[k].Value()), s, i, OutagePick(s, k))
      ensures forall k :: 0 <= k < N_ZONES ==>
                res.failures[k].Value() == Picked(old(res.failures[k].Value()), s, i, FailurePick(s, k))
    {
      var x := s[i];
      var n := x.cnt - 1;
      res.outages[n].Update(x);
      if i == 0 || s[i - 1].end != x.beg || s[i - 1].cnt < x.cnt {
        res.failures[n].Update(x);
      }
    }
  }

  /** The reboots of a node, and its hardware failure if it is to have one. */
  method BuildNode(node: IntervalList, draws: seq<nat>, hw: bool) returns (ok: bool, rest: seq<nat>)
    requires node.s == [] && InYear(draws)
    modifies node
    ensures var d := NodeDrawn(draws, hw);
            node.s == d.list && rest == d.rest && (ok <==> d.left == 0)
  {
    var left: nat;
    DrawnApart([], [], N_REBOOTS, draws, MTBR_REBOOT);
    left, rest := AddFailures(node, N_REBOOTS, draws, MTBR_REBOOT);
    if left == 0 && hw {
      left, rest := AddFailures(node, 1, rest, MTBR_HW_FAILURE);
    }
    ok := left == 0;
  }

  /** One turn of the loop over the nodes. */
  method NormalizeNode(node: IntervalList, ghost raw: Outages)
    requires node.s == raw && AllClamped(raw)
    modifies node
    ensures NodeDone(node.s, raw)
  {
    node.Normalize(false);
    ghost var norm := node.s;
    for j := 0 to |node.s|
      invariant SameBounds(node.s, norm)
      invariant forall k :: 0 <= k < j ==> node.s[k].cnt == 1 && node.s[k].ratio == Share(1)
    {
      node.s := node.s[j := node.s[j].(cnt := 1, ratio := Share(1))];
    }
    LoadedNode(node.s, norm, raw);
  }

  /** The nodes of one zone, merged one by one into z with the help of tmp; the two change places
      after each merge. */
  method MergeZone(z0: IntervalList, tmp0: IntervalList, nodes: seq<IntervalList>, ghost raw: seq<Outages>)
    returns (z: IntervalList, tmp: IntervalList)
    requires |nodes| == |raw| >= 1 && z0 != tmp0 && z0 !in nodes && tmp0 !in nodes
    requires forall i, j :: 0 <= i < j < |nodes| ==> nodes[i] != nodes[j]
    requires z0.s == [] && forall i :: 0 <= i < |nodes| ==> NodeDone(nodes[i].s, raw[i])
    modifies z0, tmp0, nodes
    ensures (z == z0 && tmp == tmp0) || (z == tmp0 && tmp == z0)
    ensures ZoneDone(z.s, raw)
  {
    z, tmp := z0, tmp0;
    z.s := z.s + nodes[0].s;
    assert z.s == nodes[0].s;
    FirstNodeDone(z.s, raw[0]);
    assert raw[..1] == [raw[0]];
    for i := 1 to |nodes|
      invariant (z == z0 && tmp == tmp0) || (z == tmp0 && tmp == z0)
      invariant ZoneDone(z.s, raw[..i])
      invariant forall k :: i <= k < |nodes| ==> nodes[k].s == old(nodes[k].s)
    {
      MergeNextNode(z, tmp, nodes[i], raw, i);
      z, tmp := tmp, z;
    }
    assert raw[..|nodes|] == raw;
  }

  /** One more node is merged into the outages z of n nodes, which leaves the result in tmp. */
  method MergeNextNode(z: IntervalList, tmp: IntervalList, node: IntervalList, ghost raw: seq<Outages>, n: nat)
    requires z != tmp && z != node && tmp != node
    requires n < |raw| && ZoneDone(z.s, raw[..n]) && NodeDone(node.s, raw[n])
    modifies z, tmp, node
    ensures ZoneDone(tmp.s, raw[..n + 1])
  {
    NextNodeDone(z.s, raw[..n], node.s, raw[n]);
    assert raw[..n] + [raw[n]] == raw[..n + 1];
    tmp.MergeNodes(z, node);
  }

  /** The zones, merged one by one into c with the help of tmp; the two change places after each merge. */
  method MergeCluster(c0: IntervalList, tmp0: IntervalList, zones: seq<IntervalList>, ghost raw: seq<Outages>)
    returns (c: IntervalList, tmp: IntervalList)
    requires |raw| == N_NODES && |zones| == N_ZONES && Separate(zones, c0, tmp0) && c0.s == []
    requires forall z :: 0 <= z < N_ZONES ==> ZoneDone(zones[z].s, ZoneOf(raw, z))
    modifies c0, tmp0, zones
    ensures (c == c0 && tmp == tmp0) || (c == tmp0 && tmp == c0)
    ensures ClusterDone(c.s, raw, N_ZONES)
  {
    c, tmp := c0, tmp0;
    CopyFirstZone(c, zones[0], raw);
    for iZ := 1 to |zones|
      invariant (c == c0 && tmp == tmp0) || (c == tmp0 && tmp == c0)
      invariant ClusterDone(c.s, raw, iZ)
      invariant forall k :: iZ <= k < |zones| ==> zones[k].s == old(zones[k].s)
    {
      MergeNextZone(c, tmp, zones[iZ], raw, iZ);
      c, tmp := tmp, c;
    }
  }

  /** The cluster starts with the outages of its first zone. */
  method CopyFirstZone(c: IntervalList, z: IntervalList, ghost raw: seq<Outages>)
    requires c.s == [] && |raw| == N_NODES && ZoneDone(z.s, ZoneOf(raw, 0))
    modifies c
    ensures ClusterDone(c.s, raw, 1)
  {
    FirstZoneDone(z.s, raw);
    c.s := c.s + z.s;
    assert c.s == old(z.s);
  }

  /** One more zone is merged into the outages c of n zones, which leaves the result in tmp. */
  method MergeNextZone(c: IntervalList, tmp: IntervalList, z: IntervalList, ghost raw: seq<Outages>, n: nat)
    requires c != tmp && c != z && tmp != z
    requires |raw| == N_NODES && n < N_ZONES && ClusterDone(c.s, raw, n) && ZoneDone(z.s, ZoneOf(raw, n))
    modifies c, tmp, z
    ensures ClusterDone(tmp.s, raw, n + 1)
  {
    NextZoneDone(c.s, raw, n, z.s);
    tmp.MergeZones(c, z);
  }

  method FailTogether(ns: seq<IntervalList>, t: nat, mttr: nat)
    requires forall i, j :: 0 <= i < j < |ns| ==> ns[i] != ns[j]
    requires t < UINT32 && mttr < UINT32
    modifies ns
    ensures forall i :: 0 <= i < |ns| ==> ns[i].s == old(ns[i].s) + [Failure(t, mttr)]
  {
    for n := 0 to |ns|
      invariant forall i :: 0 <= i < n ==> ns[i].s == old(ns[i].s) + [Failure(t, mttr)]
      invariant forall i :: n <= i < |ns| ==> ns[i].s == old(ns[i].s)
    {
      var _ := ns[n].AddFailure(t, mttr, false);
    }
  }

  predicate Separate(zones: seq<IntervalList>, cluster: IntervalList, tmp: IntervalList) {
    && (forall i, j :: 0 <= i < j < |zones| ==> zones[i] != zones[j])
    && cluster !in zones && tmp !in zones && cluster != tmp
  }

  predicate Outside(zones: seq<IntervalList>, tmp: IntervalList, nodes: seq<IntervalList>) {
    tmp !in nodes && forall z :: 0 <= z < |zones| ==> zones[z] !in nodes
  }

  /** x and y are z and t, or have traded places. */
  predicate Exchanged(x: IntervalList, y: IntervalList, z: IntervalList, t: IntervalList) {
    (z == x && t == y) || (z == y && t == x)
  }

  /** The lists of the zones and tmp, whichever way they have traded places. */
  ghost function Store(zones: seq<IntervalList>, tmp: IntervalList): set<IntervalList> {
    {tmp} + set z | z in zones
  }

  /** The list of zone i may trade places with tmp. */
  lemma ExchangeKeepsSeparate(zones: seq<IntervalList>, cluster: IntervalList, tmp: IntervalList,
                              z: IntervalList, t: IntervalList, i: nat)
    requires Separate(zones, cluster, tmp) && i < |zones| && Exchanged(zones[i], tmp, z, t)
    ensures Separate(zones[i := z], cluster, t)
    ensures Store(zones[i := z], t) == Store(zones, tmp)
  {
    var zones' := zones[i := z];
    if z == zones[i] {
      assert zones' == zones;
    } else {
      forall x ensures x in Store(zones', t) <==> x in Store(zones, tmp) {
        if x in zones {
          var k :| 0 <= k < |zones| && zones[k] == x;
          if k != i { assert zones'[k] == x; }
        }
        assert zones'[i] == tmp;
      }
    }
  }

  lemma ZoneInputs(before: seq<seq<Interval>>, raw: seq<Outages>, z: nat)
    requires |before| == |raw| == N_NODES && z < N_ZONES
    requires forall i :: 0 <= i < N_NODES ==> NodeDone(before[i], raw[i])
    ensures forall i :: 0 <= i < ZONE_SIZE ==> NodeDone(before[z * ZONE_SIZE + i], ZoneOf(raw, z)[i])
  {
  }

  /** The lists of the nodes of a zone are among those of all nodes, and not among those of later zones. */
  lemma NodesOfZone(nodes: seq<IntervalList>, z: nat, ns: seq<IntervalList>)
    requires |nodes| == N_NODES && z < N_ZONES && ns == nodes[z * ZONE_SIZE..(z + 1) * ZONE_SIZE]
    requires forall i, j :: 0 <= i < j < N_NODES ==> nodes[i] != nodes[j]
    ensures |ns| == ZONE_SIZE && forall i :: 0 <= i < ZONE_SIZE ==> ns[i] == nodes[z * ZONE_SIZE + i]
    ensures forall i, j :: 0 <= i < j < ZONE_SIZE ==> ns[i] != ns[j]
    ensures forall n :: n in ns ==> n in nodes
    ensures forall i :: (z + 1) * ZONE_SIZE <= i < N_NODES ==> nodes[i] !in ns
  {
  }

  lemma SameStoreOutside(zones: seq<IntervalList>, tmp: IntervalList, zones': seq<IntervalList>, tmp': IntervalList,
                         nodes: seq<IntervalList>)
    requires Store(zones, tmp) == Store(zones', tmp') && Outside(zones, tmp, nodes)
    ensures Outside(zones', tmp', nodes)
  {
    forall x | x in Store(zones, tmp) ensures x !in nodes {
    }
    forall z | 0 <= z < |zones'| ensures zones'[z] !in nodes {
      assert zones'[z] in Store(zones', tmp');
    }
    assert tmp' in Store(zones', tmp');
  }

  method ResetAll(lists: seq<IntervalList>)
    modifies lists
    ensures forall i :: 0 <= i < |lists| ==> lists[i].s == []
  {
    for i := 0 to |lists|
      invariant forall k :: 0 <= k < i ==> lists[k].s == []
    {
      lists[i].Reset();
    }
  }

  method NewLists(n: nat) returns (lists: seq<IntervalList>)
    ensures |lists| == n && fresh(lists)
    ensures forall i, j :: 0 <= i < j < n ==> lists[i] != lists[j]
    ensures forall i :: 0 <= i < n ==> lists[i].s == []
  {
    lists := [];
    for i := 0 to n
      invariant |lists| == i && fresh(lists)
      invariant forall j, k :: 0 <= j < k < i ==> lists[j] != lists[k]
      invariant forall j :: 0 <= j < i ==> lists[j].s == []
    {
      var list := new IntervalList();
      lists := lists + [list];
    }
  }
}
