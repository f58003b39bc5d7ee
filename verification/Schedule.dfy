/** What simulation.go promises of its scheduled events, against what the drawing of their times
    and the retrofitting into node failures achieve. */
module Schedule {
  import opened Events
  import opened IntervalLists
  import opened Intervals
  import opened Lateness
  import opened Outages

  /** Node n is down at second t because of event e. */
  ghost predicate DownFor(events: seq<Interval>, n: nat, e: nat, t: nat)
    requires |events| == N_EVENTS && e < N_EVENTS
  {
    if e < N_ROLLING_UPGRADES then Failure(UpgradeTime(events[e].beg, n), MTBR_ROLLING_UPGRADE).Covers(t)
    else e == N_ROLLING_UPGRADES + n / ZONE_SIZE && Failure(events[e].beg, MTBR_ZONE_SHUTDOWN).Covers(t)
  }

  lemma GlobalEventsOf(events: seq<Interval>, n: nat)
    requires |events| == N_EVENTS && n < N_NODES
    ensures GlobalEvents(events, n) ==
            [Failure(UpgradeTime(events[0].beg, n), MTBR_ROLLING_UPGRADE),
             Failure(UpgradeTime(events[1].beg, n), MTBR_ROLLING_UPGRADE),
             Shutdown(events, n)]
  {
    assert Upgrades(events, n, 1) == [] + [Failure(UpgradeTime(events[0].beg, n), MTBR_ROLLING_UPGRADE)];
  }

  lemma DownForSome(events: seq<Interval>, n: nat, t: nat) returns (e: nat)
    requires |events| == N_EVENTS && n < N_NODES && Covered(GlobalEvents(events, n), t)
    ensures e < N_EVENTS && DownFor(events, n, e, t)
  {
    GlobalEventsOf(events, n);
    var i: nat :| i < |GlobalEvents(events, n)| && GlobalEvents(events, n)[i].Covers(t);
    e := if i < N_ROLLING_UPGRADES then i else N_ROLLING_UPGRADES + n / ZONE_SIZE;
  }

  /** A node is down for an event only while the event lasts. */
  lemma WithinEvent(events: seq<Interval>, n: nat, e: nat, t: nat)
    requires |events| == N_EVENTS && Scheduled(events) && n < N_NODES && e < N_EVENTS && DownFor(events, n, e, t)
    ensures events[e].Covers(t)
  {
    assert events[e] == Failure(events[e].beg, EventDuration(e)) && events[e].beg < MAXSECS;
  }

  /** An upgrade lasts from its first node to the end of its last one, a shutdown three hours. */
  lemma EventLasts(events: seq<Interval>, e: nat, t: nat)
    requires Scheduled(events) && e < |events|
    ensures events[e].Covers(t) <==>
            events[e].beg <= t < events[e].beg + (if e < 2 then 150 * 11 + 120 else 10800) && t < MAXSECS
  {
    assert events[e] == Failure(events[e].beg, EventDuration(e));
    FailureCovers(events[e].beg, EventDuration(e), t);
  }

  /** For a shutdown every node of its zone is down from its start to its end, within the year. */
  lemma ShutdownTakesZoneDown(events: seq<Interval>, z: nat, n: nat, t: nat)
    requires |events| == N_EVENTS && Scheduled(events) && z < N_ZONES && n < N_NODES && n / ZONE_SIZE == z
    ensures var beg := events[N_ROLLING_UPGRADES + z].beg;
            DownFor(events, n, N_ROLLING_UPGRADES + z, t) <==> beg <= t < beg + 10800 && t < MAXSECS
  {
    assert events[N_ROLLING_UPGRADES + z].beg < MAXSECS;
  }

  /** For an upgrade node n is down for two minutes, n times two and a half minutes after its start. */
  lemma UpgradeTakesNodeDown(events: seq<Interval>, e: nat, n: nat, t: nat)
    requires |events| == N_EVENTS && Scheduled(events) && e < N_ROLLING_UPGRADES && n < N_NODES
    ensures var beg := events[e].beg + 150 * n;
            DownFor(events, n, e, t) <==> beg <= t < beg + 120 && t < MAXSECS
  {
    assert events[e].beg < MAXSECS;
  }

  lemma DownForCovered(events: seq<Interval>, n: nat, e: nat, t: nat)
    requires |events| == N_EVENTS && n < N_NODES && e < N_EVENTS && DownFor(events, n, e, t)
    ensures Covered(GlobalEvents(events, n), t)
  {
    GlobalEventsOf(events, n);
    assert GlobalEvents(events, n)[if e < N_ROLLING_UPGRADES then e else N_ROLLING_UPGRADES].Covers(t);
  }

  /** What the events do to a node is what they do one by one. */
  lemma DownForEvents(events: seq<Interval>, n: nat, t: nat)
    requires |events| == N_EVENTS && n < N_NODES
    ensures Covered(GlobalEvents(events, n), t) <==> exists e: nat :: e < N_EVENTS && DownFor(events, n, e, t)
  {
    if Covered(GlobalEvents(events, n), t) {
      var e := DownForSome(events, n, t);
    }
    if e: nat :| e < N_EVENTS && DownFor(events, n, e, t) {
      DownForCovered(events, n, e, t);
    }
  }

  lemma UpgradeCovers(beg: nat, n: nat, t: nat)
    requires beg < MAXSECS && n < N_NODES && Failure(UpgradeTime(beg, n), MTBR_ROLLING_UPGRADE).Covers(t)
    ensures UpgradeTime(beg, n) <= t < UpgradeTime(beg, n) + MTBR_ROLLING_UPGRADE
  {
  }

  /** Two nodes are never down together for the same rolling upgrade. */
  lemma OneNodeAtATime(events: seq<Interval>, m: nat, n: nat, e: nat, t: nat)
    requires |events| == N_EVENTS && Scheduled(events) && m < n < N_NODES && e < N_ROLLING_UPGRADES
    requires DownFor(events, m, e, t)
    ensures !DownFor(events, n, e, t)
  {
    var beg := events[e].beg;
    assert beg < MAXSECS;
    UpgradeCovers(beg, m, t);
    if DownFor(events, n, e, t) {
      UpgradeCovers(beg, n, t);
    }
  }

  /** Events are mutually exclusive. */
  lemma EventsExclude(events: seq<Interval>, e: nat, f: nat, t: nat)
    requires |events| == N_EVENTS && Scheduled(events) && e < N_EVENTS && f < N_EVENTS
    requires events[e].Covers(t) && events[f].Covers(t)
    ensures e == f
  {
    assert events[e].Overlap(events[f]) && events[f].Overlap(events[e]);
  }

  /** Nodes of different zones are never down together for maintenance. */
  lemma ZonesExclude(events: seq<Interval>, m: nat, n: nat, t: nat)
    requires |events| == N_EVENTS && Scheduled(events) && m < n < N_NODES
    requires Covered(GlobalEvents(events, m), t) && Covered(GlobalEvents(events, n), t)
    ensures m / ZONE_SIZE == n / ZONE_SIZE
  {
    var e := DownForSome(events, m, t);
    var f := DownForSome(events, n, t);
    WithinEvent(events, m, e, t);
    WithinEvent(events, n, f, t);
    EventsExclude(events, e, f, t);
    if e < N_ROLLING_UPGRADES {
      OneNodeAtATime(events, m, n, e, t);
    }
  }

  /** The failures of all the nodes that are due to the events, and to nothing else. */
  function Maintenance(events: seq<Interval>): (raw: seq<Outages>)
    requires |events| == N_EVENTS
    ensures |raw| == N_NODES
    ensures forall n :: 0 <= n < N_NODES ==> raw[n] == GlobalEvents(events, n)
  {
    seq(N_NODES, n requires 0 <= n < N_NODES => GlobalEvents(events, n))
  }

  lemma {:induction false} SomeNodeDown(nodes: seq<Outages>, t: nat) returns (n: nat)
    requires DownNodes(nodes, t) > 0
    ensures n < |nodes| && Covered(nodes[n], t)
  {
    var last := |nodes| - 1;
    if Covered(nodes[last], t) {
      n := last;
    } else {
      n := SomeNodeDown(nodes[..last], t);
    }
  }

  lemma NodesOfTwoZones(y: nat, z: nat, m: nat, n: nat)
    requires y < z && y * ZONE_SIZE <= m < (y + 1) * ZONE_SIZE && z * ZONE_SIZE <= n < (z + 1) * ZONE_SIZE
    ensures m < n && m / ZONE_SIZE == y && n / ZONE_SIZE == z
  {
    assert ZONE_SIZE == 4;
    assert y * 4 <= m < y * 4 + 4 && z * 4 <= n < z * 4 + 4;
  }

  lemma NodeOfZoneDown(events: seq<Interval>, z: nat, t: nat) returns (n: nat)
    requires |events| == N_EVENTS && z < N_ZONES && DownNodes(ZoneOf(Maintenance(events), z), t) > 0
    ensures n < N_NODES && z * ZONE_SIZE <= n < (z + 1) * ZONE_SIZE && Covered(GlobalEvents(events, n), t)
  {
    var i := SomeNodeDown(ZoneOf(Maintenance(events), z), t);
    n := z * ZONE_SIZE + i;
  }

  /** Some node of zone z is down for maintenance. */
  ghost predicate InMaintenance(events: seq<Interval>, z: nat, t: nat)
    requires |events| == N_EVENTS && z < N_ZONES
  {
    DownNodes(ZoneOf(Maintenance(events), z), t) > 0
  }

  lemma TwoZonesExclude(events: seq<Interval>, y: nat, z: nat, t: nat)
    requires |events| == N_EVENTS && Scheduled(events) && y < z < N_ZONES && InMaintenance(events, y, t)
    ensures !InMaintenance(events, z, t)
  {
    if InMaintenance(events, z, t) {
      var m := NodeOfZoneDown(events, y, t);
      var n := NodeOfZoneDown(events, z, t);
      NodesOfTwoZones(y, z, m, n);
      ZonesExclude(events, m, n, t);
    }
  }

  ghost predicate Hit(raw: seq<Outages>, z: nat, t: nat)
    requires |raw| == N_NODES && z < N_ZONES
  {
    DownNodes(ZoneOf(raw, z), t) > 0
  }

  lemma {:induction false} NoneHit(raw: seq<Outages>, n: nat, t: nat)
    requires |raw| == N_NODES && n <= N_ZONES && forall z: nat :: z < n ==> !Hit(raw, z, t)
    ensures AffectedZones(raw, n, t) == 0
  {
    if n > 0 {
      assert !Hit(raw, n - 1, t);
      NoneHit(raw, n - 1, t);
    }
  }

  /** Zones that exclude each other are never affected together. */
  lemma {:induction false} OneHit(raw: seq<Outages>, n: nat, t: nat)
    requires |raw| == N_NODES && n <= N_ZONES
    requires forall y: nat, z: nat :: y < z < n && Hit(raw, y, t) ==> !Hit(raw, z, t)
    ensures AffectedZones(raw, n, t) <= 1
  {
    if n > 0 {
      if Hit(raw, n - 1, t) {
        NoneHit(raw, n - 1, t);
      } else {
        OneHit(raw, n - 1, t);
      }
    }
  }

  /** Maintenance alone never affects more than one zone. */
  lemma MaintenanceAffectsOneZone(events: seq<Interval>, n: nat, t: nat)
    requires |events| == N_EVENTS && Scheduled(events) && n <= N_ZONES
    ensures AffectedZones(Maintenance(events), n, t) <= 1
  {
    var raw := Maintenance(events);
    forall y: nat, z: nat | y < z < n && Hit(raw, y, t)
      ensures !Hit(raw, z, t)
    {
      TwoZonesExclude(events, y, z, t);
    }
    OneHit(raw, n, t);
  }

  // ----- Events and node outages -----

  lemma {:induction false} GatheredIncludes(lists: seq<Outages>, n: nat, t: nat)
    requires n < |lists| && Covered(lists[n], t)
    ensures Included(Gathered(lists), t)
  {
    var last := |lists| - 1;
    var all := Gathered(lists);
    if n == last {
      var i :| 0 <= i < |lists[n]| && lists[n][i].Covers(t);
      assert all[|Gathered(lists[..last])| + i].Include(t);
    } else {
      GatheredIncludes(lists[..last], n, t);
      var i :| 0 <= i < |Gathered(lists[..last])| && Gathered(lists[..last])[i].Include(t);
      assert all[i].Include(t);
    }
  }

  /** No event is scheduled when there is already a node down. */
  lemma NoNodeDownAtStart(events: seq<Interval>, lists: seq<Outages>, i: nat)
    requires StartClear(events, Gathered(lists)) && i < |events|
    ensures DownNodes(lists, events[i].beg) == 0
  {
    if DownNodes(lists, events[i].beg) > 0 {
      var n := SomeNodeDown(lists, events[i].beg);
      GatheredIncludes(lists, n, events[i].beg);
    }
  }

  /** That is all that is checked: an outage may set in while an event is under way. */
  ghost predicate SetsInDuring(events: seq<Interval>, outages: seq<Interval>) {
    exists i, j :: 0 <= i < |events| && 0 <= j < |outages| && Inside(events[i], outages[j].beg)
  }

  predicate Inside(x: Interval, t: nat) {
    x.beg < t < x.end
  }

  ghost predicate Meet(events: seq<Interval>, outages: seq<Interval>) {
    exists i, j :: 0 <= i < |events| && 0 <= j < |outages| && events[i].Overlap(outages[j])
  }

  /** Some event meets some outage exactly if some outage sets in strictly inside an event. */
  lemma EventsMeetOutages(events: seq<Interval>, outages: seq<Interval>)
    requires Scheduled(events) && StartClear(events, outages) && AllWellFormed(outages)
    ensures Meet(events, outages) <==> SetsInDuring(events, outages)
  {
    forall i, j | 0 <= i < |events| && 0 <= j < |outages|
      ensures events[i].Overlap(outages[j]) <==> Inside(events[i], outages[j].beg)
    {
      assert !outages[j].Include(events[i].beg) && outages[j].WellFormed();
    }
    if SetsInDuring(events, outages) {
      var i, j :| 0 <= i < |events| && 0 <= j < |outages| && Inside(events[i], outages[j].beg);
      assert events[i].Overlap(outages[j]);
    }
  }

  // ----- Upgrades that overrun the year -----

  /** Of what is retrofitted into a node, only an upgrade that reaches it after the year is late. */
  lemma LateUpgrades(events: seq<Interval>, n: nat)
    requires |events| == N_EVENTS && Scheduled(events) && n < N_NODES
    ensures AllClamped(GlobalEvents(events, n))
    ensures Lates(GlobalEvents(events, n)) == LateUpgrade(events[0], n) + LateUpgrade(events[1], n)
  {
    var u, v := UpgradeTime(events[0].beg, n), UpgradeTime(events[1].beg, n);
    var x, y, z := Failure(u, MTBR_ROLLING_UPGRADE), Failure(v, MTBR_ROLLING_UPGRADE), Shutdown(events, n);
    GlobalEventsOf(events, n);
    FailureClamped(u, MTBR_ROLLING_UPGRADE);
    FailureClamped(v, MTBR_ROLLING_UPGRADE);
    ShutdownWellFormed(events, n);
    LatesOfThree(x, y, z);
  }

  function LateUpgrade(event: Interval, n: nat): (s: seq<Interval>)
    ensures |s| <= 1
  {
    var u := UpgradeTime(event.beg, n);
    if u >= MAXSECS then [Failure(u, MTBR_ROLLING_UPGRADE)] else []
  }

  lemma ShutdownWellFormed(events: seq<Interval>, n: nat)
    requires |events| == N_EVENTS && Scheduled(events) && n < N_NODES
    ensures Shutdown(events, n).WellFormed()
  {
    FailureClamped(events[N_ROLLING_UPGRADES + n / ZONE_SIZE].beg, MTBR_ZONE_SHUTDOWN);
  }

  lemma LatesOfThree(x: Interval, y: Interval, z: Interval)
    ensures Lates([x, y, z]) ==
            (if x.Late() then [x] else []) + (if y.Late() then [y] else []) + (if z.Late() then [z] else [])
  {
    assert [x, y, z] == [x] + ([y] + [z]);
    LatesConcat([x], [y] + [z]);
    LatesConcat([y], [z]);
    LatesOne(x);
    LatesOne(y);
    LatesOne(z);
  }

  lemma LatesOne(x: Interval)
    ensures Lates([x]) == if x.Late() then [x] else []
  {
    assert [x][1..] == [];
  }

  lemma OverrunLasts(events: seq<Interval>, e: nat, n: nat)
    requires |events| == N_EVENTS && Scheduled(events) && e < N_ROLLING_UPGRADES && n < N_NODES
    requires UpgradeTime(events[e].beg, n) >= MAXSECS
    ensures events[e].Covers(MAXSECS - 1)
  {
    assert events[e] == Failure(events[e].beg, EventDuration(e));
  }

  /** Two upgrades that overran the year would meet in its last second. */
  lemma OneUpgradeOverruns(events: seq<Interval>, m: nat, n: nat)
    requires |events| == N_EVENTS && Scheduled(events) && m < N_NODES && n < N_NODES
    ensures UpgradeTime(events[0].beg, m) < MAXSECS || UpgradeTime(events[1].beg, n) < MAXSECS
  {
    if UpgradeTime(events[0].beg, m) >= MAXSECS && UpgradeTime(events[1].beg, n) >= MAXSECS {
      OverrunLasts(events, 0, m);
      OverrunLasts(events, 1, n);
      EventsExclude(events, 0, 1, MAXSECS - 1);
    }
  }

  // ----- When the retrofitted failures are well formed -----

  /** Shutdowns always are; a rolling upgrade is exactly if it reaches its last node within the year,
      which the choice of its start does not ensure. */
  lemma GlobalEventsWellFormed(events: seq<Interval>)
    requires |events| >= N_ROLLING_UPGRADES + N_ZONE_SHUTDOWNS * N_ZONES
    requires forall i :: 0 <= i < |events| ==> events[i].beg < MAXSECS
    ensures (forall n :: 0 <= n < N_NODES ==> AllWellFormed(GlobalEvents(events, n))) <==>
            forall i :: 0 <= i < N_ROLLING_UPGRADES ==> UpgradeTime(events[i].beg, N_NODES - 1) < MAXSECS
  {
    forall n | 0 <= n < N_NODES
      ensures AllWellFormed(GlobalEvents(events, n)) <==>
              forall i :: 0 <= i < N_ROLLING_UPGRADES ==> UpgradeTime(events[i].beg, n) < MAXSECS
    {
      NodeEventsWellFormed(events, n);
    }
    assert AllWellFormed(GlobalEvents(events, N_NODES - 1)) <==>
           forall i :: 0 <= i < N_ROLLING_UPGRADES ==> UpgradeTime(events[i].beg, N_NODES - 1) < MAXSECS;
    assert forall i, n :: 0 <= i < N_ROLLING_UPGRADES && 0 <= n < N_NODES ==>
             UpgradeTime(events[i].beg, n) <= UpgradeTime(events[i].beg, N_NODES - 1);
  }

  lemma NodeEventsWellFormed(events: seq<Interval>, n: nat)
    requires |events| >= N_ROLLING_UPGRADES + N_ZONE_SHUTDOWNS * N_ZONES && n < N_NODES
    requires forall i :: 0 <= i < |events| ==> events[i].beg < MAXSECS
    ensures AllWellFormed(GlobalEvents(events, n)) <==>
            forall i :: 0 <= i < N_ROLLING_UPGRADES ==> UpgradeTime(events[i].beg, n) < MAXSECS
  {
    var u0, u1 := UpgradeTime(events[0].beg, n), UpgradeTime(events[1].beg, n);
    FailureWellFormed(u0, MTBR_ROLLING_UPGRADE);
    FailureWellFormed(u1, MTBR_ROLLING_UPGRADE);
    FailureWellFormed(events[N_ROLLING_UPGRADES + n / ZONE_SIZE].beg, MTBR_ZONE_SHUTDOWN);
    var e := GlobalEvents(events, n);
    assert Upgrades(events, n, 1) == [] + [Failure(u0, MTBR_ROLLING_UPGRADE)];
    assert e == [Failure(u0, MTBR_ROLLING_UPGRADE), Failure(u1, MTBR_ROLLING_UPGRADE), Shutdown(events, n)];
    assert AllWellFormed(e) <==> e[0].WellFormed() && e[1].WellFormed() && e[2].WellFormed();
  }
}
