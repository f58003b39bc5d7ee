/** The outages of the nodes as simulation.go builds them, and the scheduled events that are retrofitted into them. */
module Events {
  import opened CanonicalForm
  import opened Draws
  import opened IntervalLists
  import opened Intervals
  import opened Outages

  const N_ROLLING_UPGRADES: nat := 2
  const MTBR_ROLLING_UPGRADE: nat := 2 * 60
  const IDLE_ROLLING_UPGRADE: nat := 30
  const N_ZONE_SHUTDOWNS: nat := 1
  const MTBR_ZONE_SHUTDOWN: nat := 3 * 3600

  /** Rolling upgrades come first, then the shutdowns. */
  const N_EVENTS: nat := N_ROLLING_UPGRADES + N_ZONE_SHUTDOWNS * N_ZONES

  /** The time a whole event takes. */
  function EventDuration(i: nat): (d: nat)
    ensures 0 < d < MAXSECS
  {
    if i < N_ROLLING_UPGRADES then (N_NODES - 1) * (MTBR_ROLLING_UPGRADE + IDLE_ROLLING_UPGRADE) + MTBR_ROLLING_UPGRADE
    else MTBR_ZONE_SHUTDOWN
  }

  /** The first events, which start within the year and do not meet. */
  ghost predicate Scheduled(events: seq<Interval>) {
    && |events| <= N_EVENTS
    && (forall i :: 0 <= i < |events| ==> events[i].beg < MAXSECS && events[i] == Failure(events[i].beg, EventDuration(i)))
    && (forall i, j :: 0 <= i < j < |events| ==> !events[i].Overlap(events[j]))
  }

  /** No event starts while a node is down. */
  ghost predicate StartClear(events: seq<Interval>, outages: seq<Interval>) {
    forall i :: 0 <= i < |events| ==> !Included(outages, events[i].beg)
  }

  /** When a rolling upgrade that starts at t reaches node n. */
  function UpgradeTime(t: nat, n: nat): nat {
    t + n * (MTBR_ROLLING_UPGRADE + IDLE_ROLLING_UPGRADE)
  }

  /** The failures of node n due to the first k rolling upgrades. */
  function Upgrades(events: seq<Interval>, n: nat, k: nat): Outages
    requires k <= |events|
  {
    if k == 0 then []
    else Upgrades(events, n, k - 1) + [Failure(UpgradeTime(events[k - 1].beg, n), MTBR_ROLLING_UPGRADE)]
  }

  function GlobalEvents(events: seq<Interval>, n: nat): Outages
    requires |events| >= N_ROLLING_UPGRADES + N_ZONE_SHUTDOWNS * N_ZONES && n < N_NODES
  {
    Upgrades(events, n, N_ROLLING_UPGRADES) + [Shutdown(events, n)]
  }

  /** The failure of node n due to the shutdown of its zone. */
  function Shutdown(events: seq<Interval>, n: nat): Interval
    requires |events| >= N_ROLLING_UPGRADES + N_ZONE_SHUTDOWNS * N_ZONES && n < N_NODES
  {
    Failure(events[N_ROLLING_UPGRADES + n / ZONE_SIZE].beg, MTBR_ZONE_SHUTDOWN)
  }

  // ----- Drawing the events -----

  /** First the upgrades, then the shutdowns. */
  function EventsDrawn(outages: seq<Interval>, draws: seq<nat>): Drawing {
    var u := Drawn([], outages, N_ROLLING_UPGRADES, draws, EventDuration(0));
    if u.left > 0 then Drawing(u.list, u.left + N_ZONE_SHUTDOWNS * N_ZONES, u.rest)
    else Drawn(u.list, outages, N_ZONE_SHUTDOWNS * N_ZONES, u.rest, EventDuration(N_ROLLING_UPGRADES))
  }

  /** However many are found: the events do not meet, and none starts while a node is down. */
  lemma EventsDrawnScheduled(outages: seq<Interval>, draws: seq<nat>)
    requires InYear(draws)
    ensures var d := EventsDrawn(outages, draws);
            && Scheduled(d.list) && StartClear(d.list, outages) && InYear(d.rest)
            && |d.list| + d.left == N_EVENTS && (d.left > 0 ==> d.rest == [])
  {
    var u := Drawn([], outages, N_ROLLING_UPGRADES, draws, EventDuration(0));
    DrawnApart([], outages, N_ROLLING_UPGRADES, draws, EventDuration(0));
    if u.left == 0 {
      DrawnApart(u.list, outages, N_ZONE_SHUTDOWNS * N_ZONES, u.rest, EventDuration(N_ROLLING_UPGRADES));
    }
    var d := EventsDrawn(outages, draws);
    assert u.list <= d.list;
    forall i | 0 <= i < |d.list| ensures Fits(d.list[i], outages, EventDuration(i)) {
      if i < |u.list| { assert d.list[i] == u.list[i]; }
    }
  }

  // ----- The outages of the nodes -----

  const N_REBOOTS: nat := 3
  const MTBR_REBOOT: nat := 5 * 60
  const MTBR_NET_FAILURE: nat := 3600
  const MTBR_HW_FAILURE: nat := 3 * 24 * 3600

  /** The failures of a node itself: its reboots, and a hardware failure if it is to have one. */
  function OwnFailures(hw: bool): nat {
    N_REBOOTS + if hw then 1 else 0
  }

  function OwnDuration(i: nat): nat {
    if i < N_REBOOTS then MTBR_REBOOT else MTBR_HW_FAILURE
  }

  /** The failures of one node. */
  function NodeDrawn(draws: seq<nat>, hw: bool): Drawing {
    var d := Drawn([], [], N_REBOOTS, draws, MTBR_REBOOT);
    if d.left == 0 && hw then Drawn(d.list, [], 1, d.rest, MTBR_HW_FAILURE) else d
  }

  /** The failures of the first n nodes; ok tells that the draws were enough. */
  datatype Own = Own(lists: seq<Outages>, ok: bool, rest: seq<nat>)

  function OwnDrawn(draws: seq<nat>, hw: seq<bool>, n: nat): (o: Own)
    requires n <= |hw|
    ensures o.ok ==> |o.lists| == n
  {
    if n == 0 then Own([], true, draws)
    else
      var o := OwnDrawn(draws, hw, n - 1);
      if !o.ok then o
      else
        var d := NodeDrawn(o.rest, hw[n - 1]);
        Own(o.lists + [d.list], d.left == 0, d.rest)
  }

  /** The times of the network failures of the first n zones. */
  datatype Nets = Nets(times: seq<Option<nat>>, ok: bool, rest: seq<nat>)

  function NetsDrawn(draws: seq<nat>, net: seq<bool>, n: nat): (w: Nets)
    requires n <= |net|
    ensures w.ok ==> |w.times| == n
    ensures w.ok ==> forall z :: 0 <= z < n ==> (net[z] <==> w.times[z].Some?)
  {
    if n == 0 then Nets([], true, draws)
    else
      var w := NetsDrawn(draws, net, n - 1);
      if !w.ok then w
      else if !net[n - 1] then Nets(w.times + [None], true, w.rest)
      else if w.rest == [] then Nets(w.times, false, [])
      else Nets(w.times + [Some(w.rest[0])], true, w.rest[1..])
  }

  lemma {:induction false} OwnFails(draws: seq<nat>, hw: seq<bool>, m: nat, n: nat)
    requires m <= n <= |hw| && !OwnDrawn(draws, hw, m).ok
    ensures OwnDrawn(draws, hw, n) == OwnDrawn(draws, hw, m)
  {
    if m < n {
      OwnFails(draws, hw, m, n - 1);
    }
  }

  lemma {:induction false} NetsFail(draws: seq<nat>, net: seq<bool>, m: nat, n: nat)
    requires m <= n <= |net| && !NetsDrawn(draws, net, m).ok
    ensures NetsDrawn(draws, net, n) == NetsDrawn(draws, net, m)
  {
    if m < n {
      NetsFail(draws, net, m, n - 1);
    }
  }

  /** The failures of a node, with that of the network of its zone. */
  function WithNet(s: Outages, net: Option<nat>): Outages {
    match net
    case None => s
    case Some(t) => s + [Failure(t, MTBR_NET_FAILURE)]
  }

  /** The lists of the nodes of a zone, with its network failure. */
  ghost predicate ZoneBuilt(lists: seq<Outages>, own: seq<Outages>, net: Option<nat>)
    requires |lists| == |own|
  {
    forall i :: 0 <= i < |lists| ==> lists[i] == WithNet(own[i], net)
  }

  ghost predicate NodesBuilt(lists: seq<Outages>, own: seq<Outages>, nets: seq<Option<nat>>)
    requires |lists| == |own| == N_NODES && |nets| == N_ZONES
  {
    forall z: nat :: z < N_ZONES ==> ZoneBuilt(ZoneOf(lists, z), ZoneOf(own, z), nets[z])
  }

  // ----- What the outages of a node look like -----

  ghost predicate OwnBuilt(s: Outages, hw: bool) {
    && |s| == OwnFailures(hw) && Apart(s)
    && forall i :: 0 <= i < |s| ==> Fits(s[i], [], OwnDuration(i))
  }

  /** Three reboots, and a hardware failure if it is to have one, which do not meet. */
  lemma NodeDrawnBuilt(draws: seq<nat>, hw: bool)
    requires InYear(draws)
    ensures var d := NodeDrawn(draws, hw);
            InYear(d.rest) && (d.left == 0 ==> OwnBuilt(d.list, hw)) && (d.left > 0 ==> d.rest == [])
  {
    var d := Drawn([], [], N_REBOOTS, draws, MTBR_REBOOT);
    DrawnApart([], [], N_REBOOTS, draws, MTBR_REBOOT);
    if d.left == 0 && hw {
      DrawnApart(d.list, [], 1, d.rest, MTBR_HW_FAILURE);
      var e := Drawn(d.list, [], 1, d.rest, MTBR_HW_FAILURE);
      assert d.list <= e.list;
      forall i | 0 <= i < N_REBOOTS ensures Fits(e.list[i], [], OwnDuration(i)) {
        assert e.list[i] == d.list[i];
      }
    }
  }

  /** The reboots last five minutes, the hardware failure three days, as far as the year goes. */
  lemma OwnOutages(s: Outages, hw: bool, i: nat, t: nat)
    requires OwnBuilt(s, hw) && i < |s|
    ensures |s| == if hw then 4 else 3
    ensures s[i].beg < MAXSECS
    ensures s[i].Covers(t) <==> s[i].beg <= t < s[i].beg + (if i < 3 then 300 else 259200) && t < MAXSECS
  {
    assert Fits(s[i], [], OwnDuration(i));
    FailureCovers(s[i].beg, OwnDuration(i), t);
  }

  lemma {:induction false} OwnDrawnBuilt(draws: seq<nat>, hw: seq<bool>, n: nat)
    requires InYear(draws) && n <= |hw|
    ensures var o := OwnDrawn(draws, hw, n);
            InYear(o.rest) && (if o.ok then forall i :: 0 <= i < n ==> OwnBuilt(o.lists[i], hw[i]) else o.rest == [])
  {
    if n > 0 {
      OwnDrawnBuilt(draws, hw, n - 1);
      var o := OwnDrawn(draws, hw, n - 1);
      if o.ok {
        NodeDrawnBuilt(o.rest, hw[n - 1]);
      }
    }
  }

  lemma {:induction false} NetsDrawnInYear(draws: seq<nat>, net: seq<bool>, n: nat)
    requires InYear(draws) && n <= |net|
    ensures var w := NetsDrawn(draws, net, n);
            && InYear(w.rest) && (!w.ok ==> w.rest == [])
            && forall z :: 0 <= z < |w.times| && w.times[z].Some? ==> w.times[z].value < MAXSECS
  {
    if n > 0 {
      NetsDrawnInYear(draws, net, n - 1);
    }
  }

  lemma OwnWellFormed(s: Outages, hw: bool)
    requires OwnBuilt(s, hw)
    ensures AllWellFormed(s)
  {
    forall i | 0 <= i < |s| ensures s[i].WellFormed() {
      FailureClamped(s[i].beg, OwnDuration(i));
    }
  }

  lemma WithNetWellFormed(s: Outages, net: Option<nat>)
    requires AllWellFormed(s) && (net.Some? ==> net.value < MAXSECS)
    ensures AllWellFormed(WithNet(s, net))
  {
    if net.Some? {
      FailureClamped(net.value, MTBR_NET_FAILURE);
    }
  }

  lemma NodesWellFormed(lists: seq<Outages>, own: seq<Outages>, nets: seq<Option<nat>>)
    requires |lists| == |own| == N_NODES && |nets| == N_ZONES && NodesBuilt(lists, own, nets)
    requires forall i :: 0 <= i < N_NODES ==> AllWellFormed(own[i])
    requires forall z :: 0 <= z < N_ZONES && nets[z].Some? ==> nets[z].value < MAXSECS
    ensures forall i :: 0 <= i < N_NODES ==> AllWellFormed(lists[i])
  {
    forall n: nat | n < N_NODES ensures AllWellFormed(lists[n]) {
      var z, i := n / ZONE_SIZE, n % ZONE_SIZE;
      assert n == z * ZONE_SIZE + i;
      assert ZoneBuilt(ZoneOf(lists, z), ZoneOf(own, z), nets[z]);
      assert ZoneOf(lists, z)[i] == lists[n] && ZoneOf(own, z)[i] == own[n];
      WithNetWellFormed(own[n], nets[z]);
    }
  }

  /** A network failure takes the nodes of its zone down for an hour, within the year, and adds nothing else to
      their own failures. */
  lemma NetTakesZoneDown(lists: seq<Outages>, own: seq<Outages>, nets: seq<Option<nat>>, n: nat, t: nat)
    requires |lists| == |own| == N_NODES && |nets| == N_ZONES && NodesBuilt(lists, own, nets) && n < N_NODES
    requires nets[n / ZONE_SIZE].Some? ==> nets[n / ZONE_SIZE].value < MAXSECS
    ensures var net := nets[n / ZONE_SIZE];
            Covered(lists[n], t) <==>
            Covered(own[n], t) || (net.Some? && net.value <= t < net.value + 3600 && t < MAXSECS)
  {
    var z, i := n / ZONE_SIZE, n % ZONE_SIZE;
    assert n == z * ZONE_SIZE + i;
    assert ZoneBuilt(ZoneOf(lists, z), ZoneOf(own, z), nets[z]);
    assert ZoneOf(lists, z)[i] == lists[n] && ZoneOf(own, z)[i] == own[n];
    if nets[z].Some? {
      var x := Failure(nets[z].value, MTBR_NET_FAILURE);
      CoveredConcat(own[n], [x], t);
      assert [x][0] == x;
    }
  }

  /** The times of the failures that there are. */
  function TimesOf(nets: seq<Option<nat>>): seq<nat> {
    if nets == [] then []
    else
      var last := nets[|nets| - 1];
      TimesOf(nets[..|nets| - 1]) + if last.Some? then [last.value] else []
  }

  /** The network failures take the next draws, in order. */
  lemma {:induction false} NetsTakeDraws(draws: seq<nat>, net: seq<bool>, n: nat)
    requires n <= |net| && NetsDrawn(draws, net, n).ok
    ensures var w := NetsDrawn(draws, net, n);
            TimesOf(w.times) + w.rest == draws
  {
    if n > 0 {
      NetsTakeDraws(draws, net, n - 1);
      var v, w := NetsDrawn(draws, net, n - 1), NetsDrawn(draws, net, n);
      assert w.times[..n - 1] == v.times;
      if net[n - 1] {
        assert v.rest == [v.rest[0]] + v.rest[1..];
        assert TimesOf(v.times) + [v.rest[0]] + v.rest[1..] == TimesOf(v.times) + v.rest;
      }
    }
  }

  /** All the outages of the first n nodes, one after the other. */
  function Gathered(lists: seq<Outages>): seq<Interval> {
    if lists == [] then [] else Gathered(lists[..|lists| - 1]) + lists[|lists| - 1]
  }

  /** The year that the draws lead to: the outages of the nodes, the events, and the draws that are left. */
  ghost predicate YearDrawn(draws: seq<nat>, hw: seq<bool>, net: seq<bool>, lists: seq<Outages>, events: seq<Interval>, rest: seq<nat>)
    requires |hw| == N_NODES && |net| == N_ZONES
  {
    var own := OwnDrawn(draws, hw, |hw|);
    var nets := NetsDrawn(own.rest, net, |net|);
    && own.ok && nets.ok && |lists| == N_NODES && NodesBuilt(lists, own.lists, nets.times)
    && EventsDrawn(Gathered(lists), nets.rest) == Drawing(events, 0, rest)
  }

  /** The draws do not lead to a year: too many of them are rejected. */
  ghost predicate DrawsRunOut(draws: seq<nat>, hw: seq<bool>, net: seq<bool>, lists: seq<Outages>)
    requires |hw| == N_NODES && |net| == N_ZONES
  {
    var own := OwnDrawn(draws, hw, |hw|);
    var nets := NetsDrawn(own.rest, net, |net|);
    || !own.ok || !nets.ok
    || (|lists| == N_NODES && NodesBuilt(lists, own.lists, nets.times) && EventsDrawn(Gathered(lists), nets.rest).left > 0)
  }

  // ----- Every failure has a draw of its own -----

  lemma NodeDrawsConserved(draws: seq<nat>, hw: bool)
    ensures var d := NodeDrawn(draws, hw);
            multiset(StartsOf(d.list)) + multiset(d.rest) <= multiset(draws)
  {
    var d := Drawn([], [], N_REBOOTS, draws, MTBR_REBOOT);
    DrawsConserved([], [], N_REBOOTS, draws, MTBR_REBOOT);
    assert StartsOf([]) == [];
    if d.left == 0 && hw {
      DrawsConserved(d.list, [], 1, d.rest, MTBR_HW_FAILURE);
    }
  }

  lemma StartsConcat(a: seq<Interval>, b: seq<Interval>)
    ensures StartsOf(a + b) == StartsOf(a) + StartsOf(b)
  {
  }

  lemma {:induction false} OwnDrawsConserved(draws: seq<nat>, hw: seq<bool>, n: nat)
    requires n <= |hw|
    ensures var o := OwnDrawn(draws, hw, n);
            multiset(StartsOf(Gathered(o.lists))) + multiset(o.rest) <= multiset(draws)
  {
    if n == 0 {
      assert StartsOf([]) == [];
    } else {
      OwnDrawsConserved(draws, hw, n - 1);
      var o := OwnDrawn(draws, hw, n - 1);
      if o.ok {
        var d := NodeDrawn(o.rest, hw[n - 1]);
        NodeDrawsConserved(o.rest, hw[n - 1]);
        assert (o.lists + [d.list])[..|o.lists|] == o.lists;
        StartsConcat(Gathered(o.lists), d.list);
      }
    }
  }

  lemma EventDrawsConserved(outages: seq<Interval>, draws: seq<nat>)
    ensures var d := EventsDrawn(outages, draws);
            multiset(StartsOf(d.list)) + multiset(d.rest) <= multiset(draws)
  {
    var u := Drawn([], outages, N_ROLLING_UPGRADES, draws, EventDuration(0));
    DrawsConserved([], outages, N_ROLLING_UPGRADES, draws, EventDuration(0));
    DrawsConserved(u.list, outages, N_ZONE_SHUTDOWNS * N_ZONES, u.rest, EventDuration(N_ROLLING_UPGRADES));
    assert StartsOf([]) == [];
  }

  /** In a year no two failures of nodes, failures of networks or events share a draw. */
  lemma YearDrawsConserved(draws: seq<nat>, hw: seq<bool>, net: seq<bool>, lists: seq<Outages>, events: seq<Interval>, rest: seq<nat>)
    requires |hw| == N_NODES && |net| == N_ZONES && YearDrawn(draws, hw, net, lists, events, rest)
    ensures var own := OwnDrawn(draws, hw, |hw|);
            var nets := NetsDrawn(own.rest, net, |net|);
            multiset(StartsOf(Gathered(own.lists))) + multiset(TimesOf(nets.times)) + multiset(StartsOf(events)) + multiset(rest)
            <= multiset(draws)
  {
    var own := OwnDrawn(draws, hw, |hw|);
    var nets := NetsDrawn(own.rest, net, |net|);
    OwnDrawsConserved(draws, hw, |hw|);
    NetsTakeDraws(own.rest, net, |net|);
    EventDrawsConserved(Gathered(lists), nets.rest);
    assert multiset(TimesOf(nets.times) + nets.rest) == multiset(TimesOf(nets.times)) + multiset(nets.rest);
  }
}
