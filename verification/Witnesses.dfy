/** Years that show where simulation.go does not do what it announces. In all of them every node reboots at the
    same three times and nothing else happens, except for the events; they differ in the first upgrade. */
module Witnesses {
  import opened Draws
  import opened Events
  import opened IntervalLists
  import opened Intervals
  import opened Outages
  import opened Schedule
  import opened Year

  // ----- The events -----

  /** A schedule: the first upgrade at the given time, the others at leisure. */
  function Plan(first: nat, n: nat): (events: seq<Interval>)
    requires first < MAXSECS && n <= N_EVENTS
    ensures |events| == n
  {
    seq(n, i requires 0 <= i < n => PlanEvent(first, i))
  }

  /** The first upgrade keeps clear of the other events. */
  predicate Plannable(first: nat) {
    5000 <= first < 90000 || 500000 <= first < MAXSECS
  }

  function PlanTime(first: nat, i: nat): nat {
    if i == 0 then first else 100000 * i
  }

  function PlanEvent(first: nat, i: nat): Interval
    requires first < MAXSECS && i < N_EVENTS
  {
    Failure(PlanTime(first, i), EventDuration(i))
  }

  /** The draws that lead to it. */
  function PlanDraws(first: nat, n: nat): (draws: seq<nat>)
    requires first < MAXSECS && n <= N_EVENTS
    ensures InYear(draws)
    decreases N_EVENTS - n
  {
    if n == N_EVENTS then [] else [PlanTime(first, n)] + PlanDraws(first, n + 1)
  }

  lemma PlanApart(first: nat, i: nat, j: nat)
    requires Plannable(first) && i < j < N_EVENTS
    ensures !PlanEvent(first, i).Overlap(PlanEvent(first, j))
  {
  }

  /** No draw of the plan is rejected. */
  lemma PlanStep(first: nat, avoid: seq<Interval>, i: nat, n: nat)
    requires Plannable(first) && i < N_EVENTS && n > 0
    requires !Included(avoid, PlanTime(first, i))
    ensures Drawn(Plan(first, i), avoid, n, PlanDraws(first, i), EventDuration(i)) ==
            Drawn(Plan(first, i + 1), avoid, n - 1, PlanDraws(first, i + 1), EventDuration(i))
  {
    var draws := PlanDraws(first, i);
    assert draws[0] == PlanTime(first, i) && draws[1..] == PlanDraws(first, i + 1);
    forall k | 0 <= k < i ensures !Plan(first, i)[k].Overlap(PlanEvent(first, i)) {
      PlanApart(first, k, i);
    }
    assert Plan(first, i) + [PlanEvent(first, i)] == Plan(first, i + 1);
  }

  ghost predicate PlanClear(first: nat, outages: seq<Interval>) {
    forall i: nat :: i < N_EVENTS ==> !Included(outages, PlanTime(first, i))
  }

  lemma UpgradesPlanned(first: nat, outages: seq<Interval>)
    requires Plannable(first) && PlanClear(first, outages)
    ensures Drawn([], outages, N_ROLLING_UPGRADES, PlanDraws(first, 0), EventDuration(0)) ==
            Drawing(Plan(first, 2), 0, PlanDraws(first, 2))
  {
    assert Plan(first, 0) == [] && EventDuration(0) == EventDuration(1);
    PlanStep(first, outages, 0, 2);
    PlanStep(first, outages, 1, 1);
  }

  lemma ShutdownsPlanned(first: nat, outages: seq<Interval>)
    requires Plannable(first) && PlanClear(first, outages)
    ensures Drawn(Plan(first, 2), outages, N_ZONE_SHUTDOWNS * N_ZONES, PlanDraws(first, 2), EventDuration(2)) ==
            Drawing(Plan(first, N_EVENTS), 0, [])
  {
    assert EventDuration(2) == EventDuration(3) == EventDuration(4);
    PlanStep(first, outages, 2, 3);
    PlanStep(first, outages, 3, 2);
    PlanStep(first, outages, 4, 1);
  }

  lemma PlanDrawn(first: nat, outages: seq<Interval>)
    requires Plannable(first) && PlanClear(first, outages)
    ensures EventsDrawn(outages, PlanDraws(first, 0)) == Drawing(Plan(first, N_EVENTS), 0, [])
  {
    UpgradesPlanned(first, outages);
    ShutdownsPlanned(first, outages);
  }

  // ----- The nodes -----

  const NO_HW := seq(N_NODES, _ => false)
  const NO_NET := seq(N_ZONES, _ => false)

  /** The third reboot sets in one second after the first shutdown. */
  const REBOOTS: Outages := [Failure(1000, MTBR_REBOOT), Failure(2000, MTBR_REBOOT), Failure(200001, MTBR_REBOOT)]
  const REBOOT_DRAWS: seq<nat> := [1000, 2000, 200001]

  function Rebooting(n: nat): (lists: seq<Outages>)
    ensures |lists| == n && forall i :: 0 <= i < n ==> lists[i] == REBOOTS
  {
    seq(n, _ => REBOOTS)
  }

  /** The draws for n nodes, and those that follow. */
  function NodeDraws(n: nat, after: seq<nat>): seq<nat> {
    if n == 0 then after else REBOOT_DRAWS + NodeDraws(n - 1, after)
  }

  lemma RebootDrawn(s: Outages, n: nat, t: nat, after: seq<nat>)
    requires n > 0 && !Collides(s, Failure(t, MTBR_REBOOT))
    ensures Drawn(s, [], n, [t] + after, MTBR_REBOOT) == Drawn(s + [Failure(t, MTBR_REBOOT)], [], n - 1, after, MTBR_REBOOT)
  {
    assert ([t] + after)[0] == t && ([t] + after)[1..] == after;
  }

  lemma RebootsDrawn(after: seq<nat>)
    ensures NodeDrawn(REBOOT_DRAWS + after, false) == Drawing(REBOOTS, 0, after)
  {
    var x, y := Failure(1000, MTBR_REBOOT), Failure(2000, MTBR_REBOOT);
    RebootDrawn([], 3, 1000, [2000, 200001] + after);
    RebootDrawn([x], 2, 2000, [200001] + after);
    RebootDrawn([x, y], 1, 200001, after);
    assert REBOOT_DRAWS + after == [1000] + ([2000, 200001] + after);
    assert [2000, 200001] + after == [2000] + ([200001] + after);
    assert [] + [x] == [x] && [x] + [y] == [x, y] && [x, y] + [Failure(200001, MTBR_REBOOT)] == REBOOTS;
  }

  lemma {:induction false} NodesDrawn(m: nat, n: nat, after: seq<nat>)
    requires m <= n <= N_NODES
    ensures OwnDrawn(NodeDraws(n, after), NO_HW, m) == Own(Rebooting(m), true, NodeDraws(n - m, after))
  {
    if m > 0 {
      NodesDrawn(m - 1, n, after);
      RebootsDrawn(NodeDraws(n - m, after));
      assert Rebooting(m) == Rebooting(m - 1) + [REBOOTS];
    } else {
      assert Rebooting(0) == [];
    }
  }

  lemma {:induction false} NoNetsDrawn(draws: seq<nat>, n: nat)
    requires n <= N_ZONES
    ensures var w := NetsDrawn(draws, NO_NET, n);
            w.ok && w.rest == draws && forall z :: 0 <= z < n ==> w.times[z] == None
  {
    if n > 0 {
      NoNetsDrawn(draws, n - 1);
    }
  }

  lemma {:induction false} GatheredClear(lists: seq<Outages>, t: nat)
    requires forall n :: 0 <= n < |lists| ==> !Included(lists[n], t)
    ensures !Included(Gathered(lists), t)
  {
    if lists != [] {
      GatheredClear(lists[..|lists| - 1], t);
    }
  }

  /** No event starts while the nodes reboot. */
  lemma RebootsClear(first: nat, n: nat)
    requires Plannable(first)
    ensures PlanClear(first, Gathered(Rebooting(n)))
  {
    forall i: nat | i < N_EVENTS ensures !Included(Gathered(Rebooting(n)), PlanTime(first, i)) {
      GatheredClear(Rebooting(n), PlanTime(first, i));
    }
  }

  lemma {:induction false} NodeDrawsInYear(n: nat, after: seq<nat>)
    requires InYear(after)
    ensures InYear(NodeDraws(n, after))
  {
    if n > 0 {
      NodeDrawsInYear(n - 1, after);
    }
  }

  lemma LastReboot(n: nat)
    requires n > 0
    ensures var all := Gathered(Rebooting(n));
            all != [] && all[|all| - 1] == REBOOTS[2]
  {
    assert Gathered(Rebooting(n)) == Gathered(Rebooting(n)[..n - 1]) + REBOOTS;
  }

  // ----- The years -----

  function YearDraws(first: nat): (draws: seq<nat>)
    requires Plannable(first)
  {
    NodeDraws(N_NODES, PlanDraws(first, 0))
  }

  lemma PlannedYear(first: nat)
    requires Plannable(first)
    ensures InYear(YearDraws(first))
    ensures YearDrawn(YearDraws(first), NO_HW, NO_NET, Rebooting(N_NODES), Plan(first, N_EVENTS), [])
  {
    var after := PlanDraws(first, 0);
    NodeDrawsInYear(N_NODES, after);
    NodesDrawn(N_NODES, N_NODES, after);
    NoNetsDrawn(after, N_ZONES);
    RebootsClear(first, N_NODES);
    PlanDrawn(first, Gathered(Rebooting(N_NODES)));
  }

  lemma RebootMeetsShutdown(events: seq<Interval>, outages: seq<Interval>)
    requires events == Plan(5000, N_EVENTS) && outages != [] && outages[|outages| - 1] == REBOOTS[2]
    ensures Meet(events, outages)
  {
    assert events[2] == PlanEvent(5000, 2);
    assert events[2].Overlap(outages[|outages| - 1]);
  }

  /** A year in which the nodes reboot during a shutdown. */
  lemma EventMayMeetOutage() returns (draws: seq<nat>, lists: seq<Outages>, events: seq<Interval>)
    ensures InYear(draws) && YearDrawn(draws, NO_HW, NO_NET, lists, events, [])
    ensures Meet(events, Gathered(lists))
  {
    draws, lists, events := YearDraws(5000), Rebooting(N_NODES), Plan(5000, N_EVENTS);
    PlannedYear(5000);
    LastReboot(N_NODES);
    RebootMeetsShutdown(events, Gathered(lists));
  }

  /** A year with an upgrade in its last second: it overruns. */
  lemma UpgradeMayOverrun() returns (draws: seq<nat>, lists: seq<Outages>, events: seq<Interval>)
    ensures InYear(draws) && YearDrawn(draws, NO_HW, NO_NET, lists, events, [])
    ensures |events| == N_EVENTS && !NoOverrun(events)
  {
    draws, lists, events := YearDraws(MAXSECS - 1), Rebooting(N_NODES), Plan(MAXSECS - 1, N_EVENTS);
    PlannedYear(MAXSECS - 1);
    assert events[0] == PlanEvent(MAXSECS - 1, 0);
  }

  /** A year with an upgrade that reaches the last node with the end of the year, when no other is down: nothing
      overruns, but one failure of one zone is counted too much. */
  lemma EmptyFailureMayCount() returns (draws: seq<nat>, lists: seq<Outages>, events: seq<Interval>)
    ensures InYear(draws) && YearDrawn(draws, NO_HW, NO_NET, lists, events, [])
    ensures |events| == N_EVENTS && NoOverrun(events) && !BuiltFailuresRight(lists, events)
  {
    var first := MAXSECS - (N_NODES - 1) * (MTBR_ROLLING_UPGRADE + IDLE_ROLLING_UPGRADE);
    draws, lists, events := YearDraws(first), Rebooting(N_NODES), Plan(first, N_EVENTS);
    PlannedYear(first);
    assert events[0] == PlanEvent(first, 0) && events[1] == PlanEvent(first, 1);
    if DownNodes(lists, MAXSECS - 1) > 0 {
      var n := SomeNodeDown(lists, MAXSECS - 1);
      assert false;
    }
  }
}
