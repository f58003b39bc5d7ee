/** What the counters of a simulated year mean, in terms of the node outages alone. */
module Year {
  import opened Availability
  import opened CanonicalForm
  import opened Cuts
  import opened Events
  import opened IntervalLists
  import opened Intervals
  import opened LateOutages
  import opened Lateness
  import opened Outages
  import opened Schedule
  import opened Seconds

  /** Exactly k+1 zones have a node down. */
  ghost function ZonesDown(raw: seq<Outages>, k: nat): nat -> bool
    requires |raw| == N_NODES
  {
    (t: nat) => AffectedZones(raw, N_ZONES, t) == k + 1
  }

  /** Exactly k+1 zones have a node down, and fewer had one a second before. */
  ghost function ZonesFail(raw: seq<Outages>, k: nat): nat -> bool
    requires |raw| == N_NODES
  {
    (t: nat) => AffectedZones(raw, N_ZONES, t) == k + 1 && (t == 0 || AffectedZones(raw, N_ZONES, t - 1) < k + 1)
  }

  ghost function AtLeastDown(raw: seq<Outages>, n: nat): nat -> bool {
    (t: nat) => DownNodes(raw, t) >= n
  }

  /** The share of the keys that cannot be reached. */
  ghost function Lost(raw: seq<Outages>): nat -> real
    requires |raw| == N_NODES
  {
    (t: nat) => ShareLost(raw, N_ZONES, t)
  }

  /** At a second that satisfies p some node goes down or comes back. */
  ghost function Changing(raw: seq<Outages>, p: nat -> bool): nat -> bool {
    (t: nat) => p(t) && Changes(raw, t)
  }

  // ----- The cluster list determines the counters -----

  lemma ClusterCount(s: seq<Interval>, raw: seq<Outages>, t: nat)
    requires |raw| == N_NODES && ClusterRight(s, raw, N_ZONES)
    ensures CntAt(s, t) == AffectedZones(raw, N_ZONES, t)
  {
    assert LoadAt(s, t) == ClusterLoad(raw, N_ZONES, t);
  }

  /** The counts of the cluster list index the counters, and it ends with the year. */
  lemma ClusterInRange(s: seq<Interval>, raw: seq<Outages>)
    requires |raw| == N_NODES && ClusterRight(s, raw, N_ZONES) && AllWellFormed(s)
    ensures EndsBy(s, MAXSECS) && forall i :: 0 <= i < |s| ==> 1 <= s[i].cnt <= N_ZONES
  {
    forall i | 0 <= i < |s| ensures 1 <= s[i].cnt <= N_ZONES {
      PieceOfMember(s, i, s[i].beg);
      ClusterCount(s, raw, s[i].beg);
      assert LoadAt(s, s[i].beg) == ClusterLoad(raw, N_ZONES, s[i].beg);
    }
  }

  // ----- Two nodes down, as seen from the cluster load -----

  /** The tolerance of almostEqual separates one node's share from every larger one. */
  lemma ShareOfOne(d: nat)
    requires d > 0
    ensures AlmostEqual(Share(d), Share(1)) <==> d == 1
  {
    if d >= 2 {
      assert Share(d) >= 0.5;
    }
  }

  lemma DownInNextZone(raw: seq<Outages>, n: nat, t: nat)
    requires |raw| == N_NODES && n < N_ZONES
    ensures DownNodes(FirstZones(raw, n + 1), t) == DownNodes(FirstZones(raw, n), t) + DownNodes(ZoneOf(raw, n), t)
  {
    ZoneAfterZones(raw, n);
    DownNodesConcat(FirstZones(raw, n), ZoneOf(raw, n), t);
  }

  /** At least one node is down for each affected zone, and none otherwise. */
  lemma {:induction false} ZonesAndNodes(raw: seq<Outages>, n: nat, t: nat)
    requires |raw| == N_NODES && n <= N_ZONES
    ensures var k, d := AffectedZones(raw, n, t), DownNodes(FirstZones(raw, n), t);
            k <= d && (k == 0 <==> d == 0)
  {
    if n > 0 {
      ZonesAndNodes(raw, n - 1, t);
      DownInNextZone(raw, n - 1, t);
    }
  }

  /** If only one zone is affected, its share is that of all the nodes that are down. */
  lemma {:induction false} SingleZoneShare(raw: seq<Outages>, n: nat, t: nat)
    requires |raw| == N_NODES && n <= N_ZONES && AffectedZones(raw, n, t) == 1
    ensures ShareLost(raw, n, t) == Share(DownNodes(FirstZones(raw, n), t))
  {
    ZonesAndNodes(raw, n - 1, t);
    DownInNextZone(raw, n - 1, t);
    var d := DownNodes(ZoneOf(raw, n - 1), t);
    ShareNext(raw, n - 1, t);
    if d == 0 {
      SingleZoneShare(raw, n - 1, t);
    }
  }

  lemma ShareNext(raw: seq<Outages>, n: nat, t: nat)
    requires |raw| == N_NODES && n < N_ZONES
    ensures var d := DownNodes(ZoneOf(raw, n), t);
            && (d == 0 ==> ShareLost(raw, n + 1, t) == ShareLost(raw, n, t))
            && (d > 0 && AffectedZones(raw, n, t) == 0 ==> ShareLost(raw, n + 1, t) == Share(d))
  {
    NothingAffectedNothingLost(raw, n, t);
  }

  /** The test of Evaluate on the merged load recognizes exactly the seconds with two nodes down. */
  lemma MultipleMeansTwoDown(raw: seq<Outages>, t: nat)
    requires |raw| == N_NODES
    ensures Multiple(ClusterLoad(raw, N_ZONES, t)) <==> DownNodes(raw, t) >= 2
  {
    ZonesAndNodes(raw, N_ZONES, t);
    assert FirstZones(raw, N_ZONES) == raw;
    if AffectedZones(raw, N_ZONES, t) == 1 {
      SingleZoneShare(raw, N_ZONES, t);
      ShareOfOne(DownNodes(raw, t));
    }
  }

  // ----- The counters of a year -----

  lemma OutagesOfYear(s: seq<Interval>, raw: seq<Outages>, k: nat)
    requires |raw| == N_NODES && ClusterRight(s, raw, N_ZONES) && EndsBy(s, MAXSECS)
    ensures TotalOf(ZERO, s, |s|, OutagePick(s, k)).dur == Count(ZonesDown(raw, k), MAXSECS)
  {
    assert s[..|s|] == s;
    OutageDuration(s, |s|, k, MAXSECS);
    forall t: nat ensures OutageSecond(s, k)(t) == ZonesDown(raw, k)(t) {
      ClusterCount(s, raw, t);
    }
    CountEqual(OutageSecond(s, k), ZonesDown(raw, k), MAXSECS);
  }

  lemma SameFailure(s: seq<Interval>, raw: seq<Outages>, k: nat, t: nat)
    requires |raw| == N_NODES && ClusterRight(s, raw, N_ZONES)
    ensures FailureSecond(s, k)(t) == ZonesFail(raw, k)(t)
  {
    ClusterCount(s, raw, t);
    if t > 0 { ClusterCount(s, raw, t - 1); }
  }

  lemma FailuresOfYear(s: seq<Interval>, raw: seq<Outages>, k: nat)
    requires |raw| == N_NODES && ClusterRight(s, raw, N_ZONES) && EndsBy(s, MAXSECS)
    ensures TotalOf(ZERO, s, |s|, FailurePick(s, k)).n == Count(ZonesFail(raw, k), MAXSECS)
  {
    assert s[..|s|] == s;
    FailureCount(s, |s|, k, MAXSECS);
    forall t: nat ensures FailureSecond(s, k)(t) == ZonesFail(raw, k)(t) {
      SameFailure(s, raw, k, t);
    }
    CountEqual(FailureSecond(s, k), ZonesFail(raw, k), MAXSECS);
  }

  lemma MultipleOfYear(s: seq<Interval>, raw: seq<Outages>)
    requires |raw| == N_NODES && ClusterRight(s, raw, N_ZONES) && EndsBy(s, MAXSECS)
    ensures TotalOf(ZERO, s, |s|, MultiplePick(s)).dur == Count(AtLeastDown(raw, 2), MAXSECS)
  {
    assert s[..|s|] == s;
    MultipleDuration(s, |s|, MAXSECS);
    forall t: nat ensures MultipleSecond(s)(t) == AtLeastDown(raw, 2)(t) {
      assert LoadAt(s, t) == ClusterLoad(raw, N_ZONES, t);
      MultipleMeansTwoDown(raw, t);
    }
    CountEqual(MultipleSecond(s), AtLeastDown(raw, 2), MAXSECS);
  }

  /** The number of picked intervals and their shares depend on the node outages only: the list is cut exactly
      where some node goes down or comes back. */
  lemma ChangesOfYear(s: seq<Interval>, raw: seq<Outages>, pick: nat -> bool, p: nat -> bool)
    requires |raw| == N_NODES && ClusterRight(s, raw, N_ZONES) && EndsBy(s, MAXSECS) && CutsRight(s, raw)
    requires forall i: nat :: i < |s| ==> pick(i) == p(s[i].beg)
    requires forall t: nat :: p(t) ==> AffectedZones(raw, N_ZONES, t) > 0
    ensures TotalOf(ZERO, s, |s|, pick).n == Count(Changing(raw, p), MAXSECS)
    ensures TotalOf(ZERO, s, |s|, pick).rat == Weighted(Changing(raw, p), Lost(raw), MAXSECS)
  {
    assert s[..|s|] == s;
    forall i: nat | i < |s| ensures s[i].ratio == Lost(raw)(s[i].beg) {
      PieceOfMember(s, i, s[i].beg);
      assert LoadAt(s, s[i].beg) == ClusterLoad(raw, N_ZONES, s[i].beg);
    }
    BeginsCounted(s, |s|, pick, p, Lost(raw), MAXSECS);
    var begin, changing := Begin(s, p), Changing(raw, p);
    forall t: nat ensures begin(t) == changing(t) {
      BeginIsCut(s, t);
      ClusterCount(s, raw, t);
      assert Cut(s, t) <==> Changes(raw, t);
    }
    CountEqual(begin, changing, MAXSECS);
    WeightedEqual(begin, changing, Lost(raw), Lost(raw), MAXSECS);
  }

  lemma OutageChanges(s: seq<Interval>, raw: seq<Outages>, k: nat)
    requires |raw| == N_NODES && ClusterRight(s, raw, N_ZONES) && EndsBy(s, MAXSECS) && CutsRight(s, raw)
    ensures var t, p := TotalOf(ZERO, s, |s|, OutagePick(s, k)), Changing(raw, ZonesDown(raw, k));
            t.n == Count(p, MAXSECS) && t.rat == Weighted(p, Lost(raw), MAXSECS)
  {
    forall i: nat | i < |s| ensures OutagePick(s, k)(i) == ZonesDown(raw, k)(s[i].beg) {
      PieceOfMember(s, i, s[i].beg);
      ClusterCount(s, raw, s[i].beg);
    }
    ChangesOfYear(s, raw, OutagePick(s, k), ZonesDown(raw, k));
  }

  lemma MultipleChanges(s: seq<Interval>, raw: seq<Outages>)
    requires |raw| == N_NODES && ClusterRight(s, raw, N_ZONES) && EndsBy(s, MAXSECS) && CutsRight(s, raw)
    ensures var t, p := TotalOf(ZERO, s, |s|, MultiplePick(s)), Changing(raw, AtLeastDown(raw, 2));
            t.n == Count(p, MAXSECS) && t.rat == Weighted(p, Lost(raw), MAXSECS)
  {
    forall i: nat | i < |s| ensures MultiplePick(s)(i) == AtLeastDown(raw, 2)(s[i].beg) {
      PieceOfMember(s, i, s[i].beg);
      assert LoadAt(s, s[i].beg) == ClusterLoad(raw, N_ZONES, s[i].beg);
      MultipleMeansTwoDown(raw, s[i].beg);
    }
    forall t: nat | AtLeastDown(raw, 2)(t) ensures AffectedZones(raw, N_ZONES, t) > 0 {
      AnyDown(raw, t);
    }
    ChangesOfYear(s, raw, MultiplePick(s), AtLeastDown(raw, 2));
  }

  /** A failure sets in only where some node goes down. */
  lemma FailureChanges(raw: seq<Outages>, k: nat, t: nat)
    requires |raw| == N_NODES && ZonesFail(raw, k)(t)
    ensures Changes(raw, t)
  {
    if !Changes(raw, t) {
      forall n | 0 <= n < N_NODES ensures Covered(raw[n], t) <==> t > 0 && Covered(raw[n], t - 1) {
        assert !Flips(raw[n], t);
      }
      SameAffected(raw, N_ZONES, t);
    }
  }

  lemma {:induction false} SameAffected(raw: seq<Outages>, n: nat, t: nat)
    requires |raw| == N_NODES && n <= N_ZONES
    requires forall i :: 0 <= i < N_NODES ==> (Covered(raw[i], t) <==> t > 0 && Covered(raw[i], t - 1))
    ensures AffectedZones(raw, n, t) == if t > 0 then AffectedZones(raw, n, t - 1) else 0
  {
    if n > 0 {
      SameAffected(raw, n - 1, t);
      SameDownBefore(ZoneOf(raw, n - 1), t);
    }
  }

  lemma {:induction false} SameDownBefore(nodes: seq<Outages>, t: nat)
    requires forall i :: 0 <= i < |nodes| ==> (Covered(nodes[i], t) <==> t > 0 && Covered(nodes[i], t - 1))
    ensures DownNodes(nodes, t) == if t > 0 then DownNodes(nodes, t - 1) else 0
  {
    if nodes != [] {
      SameDownBefore(nodes[..|nodes| - 1], t);
    }
  }

  lemma FailureShares(s: seq<Interval>, raw: seq<Outages>, k: nat)
    requires |raw| == N_NODES && ClusterRight(s, raw, N_ZONES) && EndsBy(s, MAXSECS) && CutsRight(s, raw)
    ensures TotalOf(ZERO, s, |s|, FailurePick(s, k)).rat == Weighted(ZonesFail(raw, k), Lost(raw), MAXSECS)
  {
    forall i: nat | i < |s| ensures FailurePick(s, k)(i) == ZonesFail(raw, k)(s[i].beg) {
      FailureAtBegin(s, i, k);
      SameFailure(s, raw, k, s[i].beg);
    }
    ChangesOfYear(s, raw, FailurePick(s, k), ZonesFail(raw, k));
    var fail, changing := ZonesFail(raw, k), Changing(raw, ZonesFail(raw, k));
    forall t: nat ensures fail(t) == changing(t) {
      if fail(t) { FailureChanges(raw, k, t); }
    }
    WeightedEqual(fail, changing, Lost(raw), Lost(raw), MAXSECS);
  }

  /** The outage durations for one, two and three zones add up to the time with any node down. */
  lemma {:induction false} OutagesPartition(raw: seq<Outages>, n: nat)
    requires |raw| == N_NODES
    ensures Count(ZonesDown(raw, 0), n) + Count(ZonesDown(raw, 1), n) + Count(ZonesDown(raw, 2), n)
            == Count(AtLeastDown(raw, 1), n)
    decreases n
  {
    if n > 0 {
      OutagesPartition(raw, n - 1);
      AnyDown(raw, n - 1);
    }
  }

  lemma AnyDown(raw: seq<Outages>, t: nat)
    requires |raw| == N_NODES
    ensures AffectedZones(raw, N_ZONES, t) > 0 <==> DownNodes(raw, t) > 0
  {
    ZonesAndNodes(raw, N_ZONES, t);
    assert FirstZones(raw, N_ZONES) == raw;
  }

  // ----- What the counters report -----

  /** Late intervals are outages of a single zone. */
  function LateIn(tail: seq<Interval>, k: nat): seq<Interval> {
    if k == 0 then tail else []
  }

  /** The counter of outages of k+1 zones: how often the nodes that are down change while k+1 zones are affected,
      for how long they are, and the share of the keys that is lost from each change on; and the late intervals. */
  ghost predicate OutagesTotal(t: Total, raw: seq<Outages>, k: nat, tail: seq<Interval>)
    requires |raw| == N_NODES
  {
    var p, late := Changing(raw, ZonesDown(raw, k)), LateIn(tail, k);
    && t.n == Count(p, MAXSECS) + |late|
    && t.dur == Count(ZonesDown(raw, k), MAXSECS) + Excess(late)
    && t.rat == Weighted(p, Lost(raw), MAXSECS) + Shares(|late|)
  }

  /** How many failures of one zone those after the year add: each begins one, and so does a first one that
      begins with the end of the year, unless a node is down in the last second. */
  ghost function LateFailureCount(raw: seq<Outages>, tail: seq<Interval>): nat {
    After(tail) + if tail != [] && tail[0].beg == MAXSECS && DownNodes(raw, MAXSECS - 1) == 0 then 1 else 0
  }

  /** The counter of failures of k+1 zones: how often one set in, and the share lost at its onset. */
  ghost predicate FailuresTotal(t: Total, raw: seq<Outages>, k: nat, tail: seq<Interval>)
    requires |raw| == N_NODES
  {
    var late := LateFailureCount(raw, LateIn(tail, k));
    && t.n == Count(ZonesFail(raw, k), MAXSECS) + late
    && t.rat == Weighted(ZonesFail(raw, k), Lost(raw), MAXSECS) + Shares(late)
  }

  /** The counter of outages of two nodes or more. */
  ghost predicate MultipleTotal(t: Total, raw: seq<Outages>)
    requires |raw| == N_NODES
  {
    var p := Changing(raw, AtLeastDown(raw, 2));
    && t.n == Count(p, MAXSECS)
    && t.dur == Count(AtLeastDown(raw, 2), MAXSECS)
    && t.rat == Weighted(p, Lost(raw), MAXSECS)
  }

  ghost predicate ZoneReport(outages: Statistic, failures: Statistic, raw: seq<Outages>, k: nat, tail: seq<Interval>)
    requires |raw| == N_NODES
    reads outages, failures
  {
    OutagesTotal(outages.Value(), raw, k, tail) && FailuresTotal(failures.Value(), raw, k, tail)
  }

  /** All counters report what happens to the nodes. tail are the late intervals that have reached the cluster:
      they affect the counters of a single zone, and no others. */
  ghost predicate Reports(res: Result, raw: seq<Outages>, tail: seq<Interval>)
    requires |raw| == N_NODES && res.Valid()
    reads res.atLeast2, res.outages, res.failures
  {
    && (forall k :: 0 <= k < N_ZONES ==> ZoneReport(res.outages[k], res.failures[k], raw, k, tail))
    && MultipleTotal(res.atLeast2.Value(), raw)
  }

  /** The last interval lasts to the end of the year exactly if a node is down in the last second. */
  lemma LastsDownAtEnd(core: seq<Interval>, raw: seq<Outages>)
    requires |raw| == N_NODES && ClusterRight(core, raw, N_ZONES) && EndsBy(core, MAXSECS)
    ensures LastsToEnd(core) <==> DownNodes(raw, MAXSECS - 1) > 0
  {
    ClusterCount(core, raw, MAXSECS - 1);
    AnyDown(raw, MAXSECS - 1);
    if LastsToEnd(core) {
      PieceOfMember(core, |core| - 1, MAXSECS - 1);
    } else if i :| 0 <= i < |core| && core[i].Covers(MAXSECS - 1) {
      assert i < |core| - 1 ==> core[i].end <= core[i + 1].beg < core[i + 1].end;
    }
  }

  /** All counters of a year, from its cluster list. */
  lemma YearOutages(s: seq<Interval>, raw: seq<Outages>, k: nat)
    requires |raw| == N_NODES && ClusterDone(s, raw, N_ZONES)
    ensures OutagesTotal(TotalOf(ZERO, s, |s|, OutagePick(s, k)), raw, k, Tail(s))
  {
    assert FirstZones(raw, N_ZONES) == raw;
    ClusterInRange(Core(s), raw);
    OutagesOfYear(Core(s), raw, k);
    OutageChanges(Core(s), raw, k);
    ClusterTail(s, raw);
    OutagesWithLate(s, Core(s), Tail(s), k);
  }

  lemma CoreFailures(core: seq<Interval>, raw: seq<Outages>, k: nat)
    requires |raw| == N_NODES && ClusterRight(core, raw, N_ZONES) && EndsBy(core, MAXSECS) && CutsRight(core, raw)
    ensures FailuresTotal(TotalOf(ZERO, core, |core|, FailurePick(core, k)), raw, k, [])
  {
    FailuresOfYear(core, raw, k);
    FailureShares(core, raw, k);
  }

  lemma LateFailuresAtEnd(core: seq<Interval>, raw: seq<Outages>, k: nat, tail: seq<Interval>)
    requires |raw| == N_NODES && ClusterRight(core, raw, N_ZONES) && EndsBy(core, MAXSECS)
    ensures LateFailureCount(raw, LateIn(tail, k)) == if k == 0 then After(tail) + AtEnd(core, tail) else 0
  {
    LastsDownAtEnd(core, raw);
  }

  lemma FailuresJoined(c: Total, t: Total, raw: seq<Outages>, k: nat, tail: seq<Interval>)
    requires |raw| == N_NODES && FailuresTotal(c, raw, k, []) && Joined(c, t, LateFailureCount(raw, LateIn(tail, k)))
    ensures FailuresTotal(t, raw, k, tail)
  {
  }

  lemma ClusterCore(s: seq<Interval>, raw: seq<Outages>)
    requires |raw| == N_NODES && ClusterDone(s, raw, N_ZONES)
    ensures ClusterRight(Core(s), raw, N_ZONES) && EndsBy(Core(s), MAXSECS) && CutsRight(Core(s), raw)
  {
    assert FirstZones(raw, N_ZONES) == raw;
    ClusterInRange(Core(s), raw);
  }

  lemma FailuresOfList(s: seq<Interval>, core: seq<Interval>, tail: seq<Interval>, raw: seq<Outages>, k: nat)
    requires |raw| == N_NODES && ClusterRight(core, raw, N_ZONES) && EndsBy(core, MAXSECS) && CutsRight(core, raw)
    requires s == core + tail && LateFrom(s, |core|)
    ensures FailuresTotal(TotalOf(ZERO, s, |s|, FailurePick(s, k)), raw, k, tail)
  {
    var c, t := TotalOf(ZERO, core, |core|, FailurePick(core, k)), TotalOf(ZERO, s, |s|, FailurePick(s, k));
    CoreFailures(core, raw, k);
    FailuresWithLate(s, core, tail, k);
    LateFailuresAtEnd(core, raw, k, tail);
    FailuresJoined(c, t, raw, k, tail);
  }

  lemma YearFailures(s: seq<Interval>, raw: seq<Outages>, k: nat)
    requires |raw| == N_NODES && ClusterDone(s, raw, N_ZONES)
    ensures FailuresTotal(TotalOf(ZERO, s, |s|, FailurePick(s, k)), raw, k, Tail(s))
  {
    ClusterCore(s, raw);
    ClusterTail(s, raw);
    FailuresOfList(s, Core(s), Tail(s), raw, k);
  }

  lemma YearMultiple(s: seq<Interval>, raw: seq<Outages>)
    requires |raw| == N_NODES && ClusterDone(s, raw, N_ZONES)
    ensures MultipleTotal(TotalOf(ZERO, s, |s|, MultiplePick(s)), raw)
  {
    assert FirstZones(raw, N_ZONES) == raw;
    ClusterInRange(Core(s), raw);
    MultipleOfYear(Core(s), raw);
    MultipleChanges(Core(s), raw);
    ClusterTail(s, raw);
    MultipleWithLate(s, Core(s), Tail(s));
  }

  lemma ClusterTail(s: seq<Interval>, raw: seq<Outages>)
    requires |raw| == N_NODES && ClusterDone(s, raw, N_ZONES)
    ensures s == Core(s) + Tail(s) && LateFrom(s, |Core(s)|) && TailOf(Tail(s), raw)
  {
    assert FirstZones(raw, N_ZONES) == raw;
    forall i | |Core(s)| <= i < |s| ensures s[i].Late() && s[i].Load() == Down(1, Share(1)) {
      assert s[i] == Tail(s)[i - |Core(s)|];
    }
  }

  /** The index in Evaluate is in range. */
  lemma CountsInRange(s: seq<Interval>, raw: seq<Outages>)
    requires |raw| == N_NODES && ClusterDone(s, raw, N_ZONES)
    ensures forall i :: 0 <= i < |s| ==> 1 <= s[i].cnt <= N_ZONES
  {
    ClusterInRange(Core(s), raw);
    ClusterTail(s, raw);
    forall i | 0 <= i < |s| ensures 1 <= s[i].cnt <= N_ZONES {
      if i < |Core(s)| {
        assert s[i] == Core(s)[i];
      } else {
        assert s[i].Load() == Down(1, Share(1));
      }
    }
  }

  lemma TotalsReport(res: Result, s: seq<Interval>, raw: seq<Outages>)
    requires |raw| == N_NODES && ClusterDone(s, raw, N_ZONES) && res.Valid()
    requires res.atLeast2.Value() == TotalOf(ZERO, s, |s|, MultiplePick(s))
    requires forall k :: 0 <= k < N_ZONES ==> res.outages[k].Value() == TotalOf(ZERO, s, |s|, OutagePick(s, k))
    requires forall k :: 0 <= k < N_ZONES ==> res.failures[k].Value() == TotalOf(ZERO, s, |s|, FailurePick(s, k))
    ensures Reports(res, raw, Tail(s))
  {
    YearMultiple(s, raw);
    forall k | 0 <= k < N_ZONES
      ensures ZoneReport(res.outages[k], res.failures[k], raw, k, Tail(s))
    {
      YearOutages(s, raw, k);
      YearFailures(s, raw, k);
      assert res.outages[k].Value() == TotalOf(ZERO, s, |s|, OutagePick(s, k));
      assert res.failures[k].Value() == TotalOf(ZERO, s, |s|, FailurePick(s, k));
    }
  }

  /** Without late intervals the durations for one, two and three zones add up to the time with any node down. */
  lemma ReportsPartition(res: Result, raw: seq<Outages>)
    requires |raw| == N_NODES && res.Valid() && Reports(res, raw, [])
    ensures res.outages[0].dur + res.outages[1].dur + res.outages[2].dur == Count(AtLeastDown(raw, 1), MAXSECS)
  {
    assert ZoneReport(res.outages[0], res.failures[0], raw, 0, []);
    assert ZoneReport(res.outages[1], res.failures[1], raw, 1, []);
    assert ZoneReport(res.outages[2], res.failures[2], raw, 2, []);
    OutagesPartition(raw, MAXSECS);
  }

  /** One simulated year on a reset object: Simulate and Evaluate, for any failures that AddFailure has clamped. */
  method SimulateYear(ay: AvailabilityYear, ghost raw: seq<Outages>) returns (ghost tail: seq<Interval>)
    requires ay.Valid() && ay.res.Valid() && ay.res.IsReset() && |raw| == N_NODES
    requires forall i :: 0 <= i < N_NODES ==> ay.nodes[i].s == raw[i] && AllClamped(raw[i])
    requires forall z :: 0 <= z < N_ZONES ==> ay.zones[z].s == []
    modifies ay, ay.nodes, Store(ay.zones, ay.tmp), ay.cluster
    modifies ay.res, ay.res.atLeast2, ay.res.outages, ay.res.failures
    ensures ay.Valid() && ay.res.n == 1
    ensures ay.nodes == old(ay.nodes)
    ensures Store(ay.zones, ay.tmp) + {ay.cluster} == old(Store(ay.zones, ay.tmp) + {ay.cluster})
    ensures TailOf(tail, raw) && Reports(ay.res, raw, tail)
  {
    ay.Simulate(raw);
    assert ay.res.IsReset();
    tail := Tail(ay.cluster.s);
    ClusterTail(ay.cluster.s, raw);
    CountsInRange(ay.cluster.s, raw);
    ay.Evaluate();
    TotalsReport(ay.res, ay.cluster.s, raw);
  }

  // ----- Failures that begin after the year -----

  /** No failure begins after the end of the year. */
  ghost predicate NoneAfterYear(raw: seq<Outages>) {
    forall x :: x in LatesOf(raw) ==> x.beg == MAXSECS
  }

  /** Each of them adds more seconds than there are in a year. */
  lemma {:induction false} ExcessOfLates(s: seq<Interval>)
    requires AllLate(s)
    ensures if forall x :: x in s ==> x.beg == MAXSECS then Excess(s) == 0 else Excess(s) > MAXSECS
  {
    if s != [] {
      var last := |s| - 1;
      ExcessOfLates(s[..last]);
      assert s == s[..last] + [s[last]];
      assert s[last].Late() && s[last] in s;
    }
  }

  lemma {:induction false} LatesOfAreLate(nodes: seq<Outages>)
    ensures AllLate(LatesOf(nodes))
  {
    if nodes != [] {
      LatesOfAreLate(nodes[..|nodes| - 1]);
      LatesAreLate(nodes[|nodes| - 1]);
    }
  }

  lemma {:induction false} LatesAreLate(s: seq<Interval>)
    ensures AllLate(Lates(s))
  {
    if s != [] {
      LatesAreLate(s[1..]);
    }
  }

  /** If no node has more than one late failure: the outages of single zones are reported exactly if no failure
      begins after the year; otherwise the report exceeds them by more than a year. */
  lemma ReportExact(res: Result, raw: seq<Outages>, tail: seq<Interval>)
    requires |raw| == N_NODES && res.Valid() && Reports(res, raw, tail) && TailOf(tail, raw) && OneLateEach(raw)
    ensures if NoneAfterYear(raw) then res.outages[0].dur == Count(ZonesDown(raw, 0), MAXSECS)
            else res.outages[0].dur > Count(ZonesDown(raw, 0), MAXSECS) + MAXSECS
  {
    assert ZoneReport(res.outages[0], res.failures[0], raw, 0, tail);
    LatesOfAreLate(raw);
    ExcessOfLates(LatesOf(raw));
  }

  lemma {:induction false} AfterOfLates(s: seq<Interval>)
    requires AllLate(s)
    ensures After(s) == 0 <==> forall x :: x in s ==> x.beg == MAXSECS
  {
    if s != [] {
      var last := |s| - 1;
      AfterOfLates(s[..last]);
      assert s == s[..last] + [s[last]];
      assert s[last].Late() && s[last] in s;
    }
  }

  /** Likewise for the failures of single zones: in addition, if there are late failures, a node has to be down in
      the last second of the year. */
  lemma FailuresExact(res: Result, raw: seq<Outages>, tail: seq<Interval>)
    requires |raw| == N_NODES && res.Valid() && Reports(res, raw, tail) && TailOf(tail, raw) && OneLateEach(raw)
    ensures res.failures[0].n == Count(ZonesFail(raw, 0), MAXSECS) <==> FailuresRight(raw)
  {
    assert ZoneReport(res.outages[0], res.failures[0], raw, 0, tail);
    LateFailuresExact(raw, tail);
  }

  ghost predicate FailuresRight(raw: seq<Outages>) {
    NoneAfterYear(raw) && (LatesOf(raw) != [] ==> DownNodes(raw, MAXSECS - 1) > 0)
  }

  lemma LateFailuresExact(raw: seq<Outages>, tail: seq<Interval>)
    requires TailOf(tail, raw) && OneLateEach(raw)
    ensures LateFailureCount(raw, tail) == 0 <==> FailuresRight(raw)
  {
    LatesOfAreLate(raw);
    ExcessOfLates(LatesOf(raw));
    ExcessOfLates(tail);
    AfterOfLates(tail);
    if tail != [] { assert tail[0].Late() && tail[0] in tail; }
  }

  // ----- A built year -----

  /** The outages of the nodes, and what the events add to them. */
  ghost predicate YearBuilt(raw: seq<Outages>, lists: seq<Outages>, events: seq<Interval>) {
    && |raw| == |lists| == N_NODES && |events| == N_EVENTS && Scheduled(events) && StartClear(events, Gathered(lists))
    && (forall n :: 0 <= n < N_NODES ==> AllWellFormed(lists[n]))
    && forall n :: 0 <= n < N_NODES ==> raw[n] == lists[n] + GlobalEvents(events, n)
  }

  /** Every upgrade reaches its last node by the end of the year. */
  predicate NoOverrun(events: seq<Interval>)
    requires |events| == N_EVENTS
  {
    forall i :: 0 <= i < N_ROLLING_UPGRADES ==> UpgradeTime(events[i].beg, N_NODES - 1) <= MAXSECS
  }

  lemma BuiltLates(raw: seq<Outages>, lists: seq<Outages>, events: seq<Interval>, n: nat)
    requires YearBuilt(raw, lists, events) && n < N_NODES
    ensures AllClamped(raw[n]) && |Lates(raw[n])| <= 1
    ensures Lates(raw[n]) == LateUpgrade(events[0], n) + LateUpgrade(events[1], n)
  {
    assert AllWellFormed(lists[n]) && raw[n] == lists[n] + GlobalEvents(events, n);
    LatesConcat(lists[n], GlobalEvents(events, n));
    NoLates(lists[n]);
    LateUpgrades(events, n);
    OneUpgradeOverruns(events, n, n);
  }

  lemma {:induction false} LateOfSome(nodes: seq<Outages>, x: Interval) returns (n: nat)
    requires x in LatesOf(nodes)
    ensures n < |nodes| && x in Lates(nodes[n])
  {
    var last := |nodes| - 1;
    if x in Lates(nodes[last]) {
      n := last;
    } else {
      n := LateOfSome(nodes[..last], x);
    }
  }

  lemma {:induction false} LateOfAll(nodes: seq<Outages>, x: Interval, n: nat)
    requires n < |nodes| && x in Lates(nodes[n])
    ensures x in LatesOf(nodes)
  {
    var last := |nodes| - 1;
    if n < last {
      LateOfAll(nodes[..last], x, n);
    }
  }

  lemma BuiltClamped(raw: seq<Outages>, lists: seq<Outages>, events: seq<Interval>)
    requires YearBuilt(raw, lists, events)
    ensures OneLateEach(raw) && forall n :: 0 <= n < N_NODES ==> AllClamped(raw[n])
  {
    forall n | 0 <= n < N_NODES ensures |Lates(raw[n])| <= 1 && AllClamped(raw[n]) {
      BuiltLates(raw, lists, events, n);
    }
  }

  lemma LateUpgradeStart(event: Interval, n: nat, x: Interval)
    requires n < N_NODES && UpgradeTime(event.beg, N_NODES - 1) <= MAXSECS && x in LateUpgrade(event, n)
    ensures x.beg == MAXSECS
  {
    assert UpgradeTime(event.beg, n) <= UpgradeTime(event.beg, N_NODES - 1);
  }

  lemma NoOverrunNoneAfter(raw: seq<Outages>, lists: seq<Outages>, events: seq<Interval>, x: Interval)
    requires YearBuilt(raw, lists, events) && NoOverrun(events) && x in LatesOf(raw)
    ensures x.beg == MAXSECS
  {
    var n := LateOfSome(raw, x);
    BuiltLates(raw, lists, events, n);
    if x in LateUpgrade(events[0], n) {
      LateUpgradeStart(events[0], n, x);
    } else {
      LateUpgradeStart(events[1], n, x);
    }
  }

  /** An upgrade that reaches its last node no earlier than the end of the year leaves a late failure there. */
  lemma LateAtLast(raw: seq<Outages>, lists: seq<Outages>, events: seq<Interval>, i: nat) returns (x: Interval)
    requires YearBuilt(raw, lists, events) && i < N_ROLLING_UPGRADES
    requires UpgradeTime(events[i].beg, N_NODES - 1) >= MAXSECS
    ensures x in LatesOf(raw) && x.beg == UpgradeTime(events[i].beg, N_NODES - 1)
  {
    BuiltLates(raw, lists, events, N_NODES - 1);
    x := Failure(UpgradeTime(events[i].beg, N_NODES - 1), MTBR_ROLLING_UPGRADE);
    assert x in LateUpgrade(events[i], N_NODES - 1);
    LateOfAll(raw, x, N_NODES - 1);
  }

  /** In a built year no failure begins after the end exactly if every upgrade is through by then. */
  lemma BuiltNoneAfterYear(raw: seq<Outages>, lists: seq<Outages>, events: seq<Interval>)
    requires YearBuilt(raw, lists, events)
    ensures NoneAfterYear(raw) <==> NoOverrun(events)
  {
    if NoOverrun(events) {
      forall x | x in LatesOf(raw) ensures x.beg == MAXSECS {
        NoOverrunNoneAfter(raw, lists, events, x);
      }
    } else {
      var i: nat :| i < N_ROLLING_UPGRADES && UpgradeTime(events[i].beg, N_NODES - 1) > MAXSECS;
      var x := LateAtLast(raw, lists, events, i);
    }
  }

  /** Some upgrade reaches its last node exactly at the end of the year. */
  ghost predicate EndsWithYear(events: seq<Interval>)
    requires |events| == N_EVENTS
  {
    exists i :: 0 <= i < N_ROLLING_UPGRADES && UpgradeTime(events[i].beg, N_NODES - 1) == MAXSECS
  }

  lemma LateEndsWithYear(events: seq<Interval>, n: nat, i: nat)
    requires |events| == N_EVENTS && NoOverrun(events) && n < N_NODES && i < N_ROLLING_UPGRADES
    requires UpgradeTime(events[i].beg, n) >= MAXSECS
    ensures EndsWithYear(events)
  {
    assert UpgradeTime(events[i].beg, n) <= UpgradeTime(events[i].beg, N_NODES - 1);
  }

  /** If none overruns, that alone leaves late failures. */
  lemma BuiltSomeLate(raw: seq<Outages>, lists: seq<Outages>, events: seq<Interval>)
    requires YearBuilt(raw, lists, events) && NoOverrun(events)
    ensures LatesOf(raw) != [] <==> EndsWithYear(events)
  {
    if LatesOf(raw) != [] {
      var n := LateOfSome(raw, LatesOf(raw)[0]);
      BuiltLates(raw, lists, events, n);
      LateEndsWithYear(events, n, if UpgradeTime(events[0].beg, n) >= MAXSECS then 0 else 1);
    }
    if i: nat :| i < N_ROLLING_UPGRADES && UpgradeTime(events[i].beg, N_NODES - 1) == MAXSECS {
      var x := LateAtLast(raw, lists, events, i);
    }
  }

  /** Just before an upgrade reaches its last node, no node is down for any event. */
  lemma IdleBeforeLast(events: seq<Interval>, i: nat, n: nat)
    requires |events| == N_EVENTS && Scheduled(events) && i < N_ROLLING_UPGRADES && n < N_NODES
    requires UpgradeTime(events[i].beg, N_NODES - 1) == MAXSECS
    ensures !Covered(GlobalEvents(events, n), MAXSECS - 1)
  {
    var t := MAXSECS - 1;
    if Covered(GlobalEvents(events, n), t) {
      var e := DownForSome(events, n, t);
      WithinEvent(events, n, e, t);
      OverrunLasts(events, i, N_NODES - 1);
      EventsExclude(events, e, i, t);
      UpgradeCovers(events[i].beg, n, t);
      assert false;
    }
  }

  lemma {:induction false} SameDown(a: seq<Outages>, b: seq<Outages>, t: nat)
    requires |a| == |b| && forall n :: 0 <= n < |a| ==> (Covered(a[n], t) <==> Covered(b[n], t))
    ensures DownNodes(a, t) == DownNodes(b, t)
  {
    if a != [] {
      SameDown(a[..|a| - 1], b[..|a| - 1], t);
    }
  }

  lemma DownWithoutEvents(raw: seq<Outages>, lists: seq<Outages>, events: seq<Interval>)
    requires YearBuilt(raw, lists, events) && EndsWithYear(events)
    ensures DownNodes(raw, MAXSECS - 1) == DownNodes(lists, MAXSECS - 1)
  {
    var i: nat :| i < N_ROLLING_UPGRADES && UpgradeTime(events[i].beg, N_NODES - 1) == MAXSECS;
    forall n: nat | n < N_NODES ensures Covered(raw[n], MAXSECS - 1) <==> Covered(lists[n], MAXSECS - 1) {
      IdleBeforeLast(events, i, n);
      CoveredConcat(lists[n], GlobalEvents(events, n), MAXSECS - 1);
      assert raw[n] == lists[n] + GlobalEvents(events, n);
    }
    SameDown(raw, lists, MAXSECS - 1);
  }

  /** The failures of one zone are right exactly if no upgrade overruns the year, and if one that reaches its last
      node with the end of the year finds an outage that has nothing to do with the events in the last second. */
  ghost predicate BuiltFailuresRight(lists: seq<Outages>, events: seq<Interval>)
    requires |events| == N_EVENTS
  {
    NoOverrun(events) && (EndsWithYear(events) ==> DownNodes(lists, MAXSECS - 1) > 0)
  }

  lemma BuiltFailuresExact(raw: seq<Outages>, lists: seq<Outages>, events: seq<Interval>)
    requires YearBuilt(raw, lists, events)
    ensures FailuresRight(raw) <==> BuiltFailuresRight(lists, events)
  {
    BuiltNoneAfterYear(raw, lists, events);
    if NoOverrun(events) {
      BuiltSomeLate(raw, lists, events);
    }
    if EndsWithYear(events) {
      DownWithoutEvents(raw, lists, events);
    }
  }
}
