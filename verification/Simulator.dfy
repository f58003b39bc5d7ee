/** The Monte-Carlo simulation of simulation.go: year after year is built, simulated, evaluated and aggregated. */
module Simulation {
  import opened Availability
  import opened Draws
  import opened Events
  import opened IntervalLists
  import opened Intervals
  import opened LateOutages
  import opened Lateness
  import opened Outages
  import opened Seconds
  import opened Year

  /** Which nodes have a hardware failure in a year, and which zones a network failure. */
  datatype Incidents = Incidents(hw: seq<bool>, net: seq<bool>)

  predicate Complete(x: Incidents) {
    |x.hw| == N_NODES && |x.net| == N_ZONES
  }

  /** A year that has been simulated: the outages of the nodes, without and with the scheduled events, and the
      late intervals that have reached the cluster. */
  datatype Past = Past(lists: seq<Outages>, events: seq<Interval>, raw: seq<Outages>, tail: seq<Interval>)

  ghost predicate PastBuilt(y: Past) {
    YearBuilt(y.raw, y.lists, y.events) && TailOf(y.tail, y.raw)
  }

  ghost predicate AllBuilt(years: seq<Past>) {
    forall i :: 0 <= i < |years| ==> PastBuilt(years[i])
  }

  lemma BuiltSnoc(years: seq<Past>, y: Past)
    requires AllBuilt(years) && PastBuilt(y)
    ensures AllBuilt(years + [y])
  {
  }

  // ----- Counters as values -----

  /** The counters of one, two and three zones. */
  datatype PerZones = PerZones(one: Total, two: Total, three: Total)
  {
    function At(k: nat): Total {
      if k == 0 then one else if k == 1 then two else three
    }

    function Plus(o: PerZones): PerZones {
      PerZones(one.Plus(o.one), two.Plus(o.two), three.Plus(o.three))
    }
  }

  datatype Counters = Counters(n: int, multiple: Total, outages: PerZones, failures: PerZones)
  {
    function Plus(o: Counters): Counters {
      Counters(n + o.n, multiple.Plus(o.multiple), outages.Plus(o.outages), failures.Plus(o.failures))
    }
  }

  function CountersOf(res: Result): Counters
    requires res.Valid()
    reads res, res.atLeast2, res.outages, res.failures
  {
    Counters(res.n, res.atLeast2.Value(),
             PerZones(res.outages[0].Value(), res.outages[1].Value(), res.outages[2].Value()),
             PerZones(res.failures[0].Value(), res.failures[1].Value(), res.failures[2].Value()))
  }

  // ----- What they have to report -----

  /** Seconds of a year with exactly k+1 affected zones, failures of exactly k+1 zones, seconds with two nodes down. */
  ghost function Duration(y: Past, k: nat): nat {
    if |y.raw| == N_NODES then Count(ZonesDown(y.raw, k), MAXSECS) else 0
  }

  ghost function Failures(y: Past, k: nat): nat {
    if |y.raw| == N_NODES then Count(ZonesFail(y.raw, k), MAXSECS) else 0
  }

  ghost function MultipleTime(y: Past): nat {
    Count(AtLeastDown(y.raw, 2), MAXSECS)
  }

  /** What d counts and c does not. */
  function Minus(d: Total, c: Total): Total {
    Total(d.n - c.n, d.dur - c.dur, d.rat - c.rat)
  }

  ghost predicate OutagesReported(c: Counters, d: Counters, y: Past, k: nat)
    requires |y.raw| == N_NODES
  {
    OutagesTotal(Minus(d.outages.At(k), c.outages.At(k)), y.raw, k, y.tail)
  }

  ghost predicate FailuresReported(c: Counters, d: Counters, y: Past, k: nat)
    requires |y.raw| == N_NODES
  {
    FailuresTotal(Minus(d.failures.At(k), c.failures.At(k)), y.raw, k, y.tail)
  }

  /** What d reports, over what c reports, for the year y. */
  ghost predicate Reported(c: Counters, d: Counters, y: Past) {
    && |y.raw| == N_NODES && d.n == c.n + 1 && MultipleTotal(Minus(d.multiple, c.multiple), y.raw)
    && (forall k: nat :: k < N_ZONES ==> OutagesReported(c, d, y, k))
    && (forall k: nat :: k < N_ZONES ==> FailuresReported(c, d, y, k))
  }

  /** The counters before and after each of the years report them, one after the other. */
  ghost predicate Aggregated(counts: seq<Counters>, years: seq<Past>) {
    && |counts| == |years| + 1
    && forall i :: 0 <= i < |years| ==> Reported(counts[i], counts[i + 1], years[i])
  }

  const NOTHING := Counters(0, ZERO, PerZones(ZERO, ZERO, ZERO), PerZones(ZERO, ZERO, ZERO))

  lemma MinusNothing(t: Total)
    ensures Minus(t, ZERO) == t
  {
  }

  lemma ReportsReported(res: Result, y: Past)
    requires res.Valid() && |y.raw| == N_NODES && res.n == 1 && Reports(res, y.raw, y.tail)
    ensures Reported(NOTHING, CountersOf(res), y)
  {
    var c := CountersOf(res);
    MinusNothing(c.multiple);
    forall k: nat | k < N_ZONES
      ensures OutagesReported(NOTHING, c, y, k) && FailuresReported(NOTHING, c, y, k)
    {
      assert ZoneReport(res.outages[k], res.failures[k], y.raw, k, y.tail);
      assert k == 0 || k == 1 || k == 2;
      MinusNothing(c.outages.At(k));
      MinusNothing(c.failures.At(k));
    }
  }

  lemma MinusPlus(d: Total, one: Total)
    ensures Minus(d.Plus(one), d) == Minus(one, ZERO)
  {
  }

  lemma SumReported(d: Counters, one: Counters, y: Past)
    requires Reported(NOTHING, one, y)
    ensures Reported(d, d.Plus(one), y)
  {
    MinusPlus(d.multiple, one.multiple);
    forall k: nat | k < N_ZONES
      ensures OutagesReported(d, d.Plus(one), y, k) && FailuresReported(d, d.Plus(one), y, k)
    {
      assert OutagesReported(NOTHING, one, y, k) && FailuresReported(NOTHING, one, y, k);
      MinusPlus(d.outages.At(k), one.outages.At(k));
      MinusPlus(d.failures.At(k), one.failures.At(k));
    }
  }

  // ----- The loop over the years -----

  /** One turn of the loop, up to Evaluate; ok tells that the draws were enough. */
  method RunYear(ay: AvailabilityYear, draws: seq<nat>, x: Incidents)
    returns (ok: bool, rest: seq<nat>, ghost y: Past, ghost one: Counters)
    requires ay.Valid() && ay.res.Valid() && InYear(draws) && Complete(x)
    modifies ay.Repr()
    ensures ay.Valid() && ay.Repr() == old(ay.Repr()) && InYear(rest)
    ensures if ok then PastDrawn(y, draws, x, rest) else RunOut(draws, x)
    ensures ok ==> PastBuilt(y) && Reported(NOTHING, one, y) && one == CountersOf(ay.res)
  {
    ghost var lists: seq<Outages>, events: seq<Interval>, raw: seq<Outages>;
    ok, rest, lists, events, raw := BuildYear(ay, draws, x);
    y := Past(lists, [], [], []);
    if ok {
      y := CountYear(ay, lists, events, raw);
    }
    one := CountersOf(ay.res);
  }

  /** Resets and builds the year. */
  method BuildYear(ay: AvailabilityYear, draws: seq<nat>, x: Incidents)
    returns (ok: bool, rest: seq<nat>, ghost lists: seq<Outages>, ghost events: seq<Interval>, ghost raw: seq<Outages>)
    requires ay.Valid() && ay.res.Valid() && InYear(draws) && Complete(x)
    modifies ay.Repr() - {ay}
    ensures InYear(rest) && ay.res.IsReset() && forall z :: 0 <= z < N_ZONES ==> ay.zones[z].s == []
    ensures if ok then YearDrawn(draws, x.hw, x.net, lists, events, rest) else RunOut(draws, x)
    ensures ok ==> YearBuilt(raw, lists, events) && forall i :: 0 <= i < N_NODES ==> ay.nodes[i].s == raw[i]
  {
    ay.Reset();
    ok, rest, lists := ay.Build(draws, x.hw, x.net);
    raw, events := Contents(ay.nodes), ay.tmp.s;
    if ok {
      BuiltAsDrawn(draws, x, lists, events, rest, raw);
    }
  }

  /** Simulates and evaluates a built year. */
  method CountYear(ay: AvailabilityYear, ghost lists: seq<Outages>, ghost events: seq<Interval>, ghost raw: seq<Outages>)
    returns (ghost y: Past)
    requires ay.Valid() && ay.res.Valid() && ay.res.IsReset() && YearBuilt(raw, lists, events)
    requires forall i :: 0 <= i < N_NODES ==> ay.nodes[i].s == raw[i]
    requires forall z :: 0 <= z < N_ZONES ==> ay.zones[z].s == []
    modifies ay.Repr()
    ensures ay.Valid() && ay.Repr() == old(ay.Repr())
    ensures y.lists == lists && y.events == events && PastBuilt(y) && Reported(NOTHING, CountersOf(ay.res), y)
  {
    BuiltClamped(raw, lists, events);
    ghost var tail := CountClamped(ay, raw);
    y := Past(lists, events, raw, tail);
    ReportsReported(ay.res, y);
  }

  method CountClamped(ay: AvailabilityYear, ghost raw: seq<Outages>) returns (ghost tail: seq<Interval>)
    requires ay.Valid() && ay.res.Valid() && ay.res.IsReset() && |raw| == N_NODES
    requires forall i :: 0 <= i < N_NODES ==> ay.nodes[i].s == raw[i] && AllClamped(raw[i])
    requires forall z :: 0 <= z < N_ZONES ==> ay.zones[z].s == []
    modifies ay.Repr()
    ensures ay.Valid() && ay.Repr() == old(ay.Repr())
    ensures ay.res.n == 1 && TailOf(tail, raw) && Reports(ay.res, raw, tail)
  {
    tail := SimulateYear(ay, raw);
  }

  /** What the draws lead to is a built year. */
  lemma BuiltAsDrawn(draws: seq<nat>, x: Incidents, lists: seq<Outages>, events: seq<Interval>, rest: seq<nat>, raw: seq<Outages>)
    requires InYear(draws) && Complete(x) && |raw| == N_NODES && |events| == N_EVENTS
    requires YearDrawn(draws, x.hw, x.net, lists, events, rest)
    requires forall n :: 0 <= n < N_NODES ==> raw[n] == lists[n] + GlobalEvents(events, n)
    ensures YearBuilt(raw, lists, events)
  {
    var own := OwnDrawn(draws, x.hw, |x.hw|);
    var nets := NetsDrawn(own.rest, x.net, |x.net|);
    OwnDrawnBuilt(draws, x.hw, |x.hw|);
    NetsDrawnInYear(own.rest, x.net, |x.net|);
    forall i | 0 <= i < N_NODES ensures AllWellFormed(own.lists[i]) {
      OwnWellFormed(own.lists[i], x.hw[i]);
    }
    NodesWellFormed(lists, own.lists, nets.times);
    EventsDrawnScheduled(Gathered(lists), nets.rest);
  }

  ghost predicate PastDrawn(y: Past, draws: seq<nat>, x: Incidents, left: seq<nat>)
    requires Complete(x)
  {
    YearDrawn(draws, x.hw, x.net, y.lists, y.events, left)
  }

  ghost predicate RunOut(draws: seq<nat>, x: Incidents)
    requires Complete(x)
  {
    exists lists :: DrawsRunOut(draws, x.hw, x.net, lists)
  }

  /** The years are those that the draws lead to; draws[i] is what is left of them before the i-th year. */
  ghost predicate AllDrawn(years: seq<Past>, incidents: seq<Incidents>, draws: seq<seq<nat>>)
    requires |years| <= |incidents| && forall i :: 0 <= i < |incidents| ==> Complete(incidents[i])
  {
    && |draws| == |years| + 1
    && forall i :: 0 <= i < |years| ==> PastDrawn(years[i], draws[i], incidents[i], draws[i + 1])
  }

  /** The years so far, the counters before and after each of them, and the draws that were left. */
  datatype History = History(years: seq<Past>, counts: seq<Counters>, lefts: seq<seq<nat>>)

  ghost predicate Recorded(h: History, incidents: seq<Incidents>)
    requires forall i :: 0 <= i < |incidents| ==> Complete(incidents[i])
  {
    && |h.years| <= |incidents| && AllBuilt(h.years)
    && AllDrawn(h.years, incidents, h.lefts) && Aggregated(h.counts, h.years)
  }

  lemma RecordedSnoc(h: History, incidents: seq<Incidents>, y: Past, now: Counters, left: seq<nat>)
    requires (forall i :: 0 <= i < |incidents| ==> Complete(incidents[i])) && Recorded(h, incidents)
    requires |h.years| < |incidents| && PastBuilt(y) && PastDrawn(y, h.lefts[|h.years|], incidents[|h.years|], left)
    requires Reported(h.counts[|h.years|], now, y)
    ensures Recorded(History(h.years + [y], h.counts + [now], h.lefts + [left]), incidents)
  {
    BuiltSnoc(h.years, y);
    DrawnSnoc(h.years, incidents, h.lefts, y, left);
    AggregatedSnoc(h.years, h.counts, y, now);
  }

  lemma DrawnSnoc(years: seq<Past>, incidents: seq<Incidents>, lefts: seq<seq<nat>>, y: Past, left: seq<nat>)
    requires |years| < |incidents| && forall i :: 0 <= i < |incidents| ==> Complete(incidents[i])
    requires AllDrawn(years, incidents, lefts) && PastDrawn(y, lefts[|years|], incidents[|years|], left)
    ensures AllDrawn(years + [y], incidents, lefts + [left])
  {
  }

  lemma AggregatedSnoc(years: seq<Past>, counts: seq<Counters>, y: Past, now: Counters)
    requires Aggregated(counts, years) && Reported(counts[|years|], now, y)
    ensures Aggregated(counts + [now], years + [y])
  {
  }

  /** Runs the simulation, year after year, as long as the draws are enough. */
  method Run(ay: AvailabilityYear, res: Result, draws: seq<nat>, incidents: seq<Incidents>) returns (ghost h: History)
    requires ay.Valid() && ay.res.Valid() && res.Valid() && ay.Repr() !! res.Repr()
    requires InYear(draws) && forall i :: 0 <= i < |incidents| ==> Complete(incidents[i])
    modifies ay.Repr(), res.Repr()
    ensures Recorded(h, incidents)
    ensures h.counts[0] == old(CountersOf(res)) && h.counts[|h.years|] == CountersOf(res)
    ensures h.lefts[0] == draws && (|h.years| < |incidents| ==> RunOut(h.lefts[|h.years|], incidents[|h.years|]))
  {
    h := History([], [CountersOf(res)], [draws]);
    var ok, rest := true, draws;
    var i := 0;
    while i < |incidents| && ok
      invariant i <= |incidents| && InYear(rest) && ay.Valid() && ay.Repr() == old(ay.Repr())
      invariant Recorded(h, incidents) && h.counts[0] == old(CountersOf(res)) && h.lefts[0] == draws
      invariant h.counts[|h.years|] == CountersOf(res)
      invariant if ok then |h.years| == i && h.lefts[i] == rest
                else |h.years| < |incidents| && RunOut(h.lefts[|h.years|], incidents[|h.years|])
      decreases |incidents| - i
    {
      ok, rest, h := RecordYear(ay, res, rest, incidents, i, h);
      i := i + 1;
    }
  }

  /** One turn of the loop, recorded. */
  method RecordYear(ay: AvailabilityYear, res: Result, draws: seq<nat>, incidents: seq<Incidents>, i: nat, ghost h: History)
    returns (ok: bool, rest: seq<nat>, ghost g: History)
    requires ay.Valid() && ay.res.Valid() && res.Valid() && ay.Repr() !! res.Repr() && InYear(draws)
    requires (forall j :: 0 <= j < |incidents| ==> Complete(incidents[j])) && Recorded(h, incidents)
    requires i == |h.years| < |incidents| && h.counts[i] == CountersOf(res) && h.lefts[i] == draws
    modifies ay.Repr(), res.Repr()
    ensures ay.Valid() && ay.Repr() == old(ay.Repr()) && InYear(rest)
    ensures Recorded(g, incidents) && g.counts[|g.years|] == CountersOf(res)
    ensures g.counts[0] == h.counts[0] && g.lefts[0] == h.lefts[0]
    ensures if ok then |g.years| == i + 1 && g.lefts[i + 1] == rest else |g.years| == i && g.lefts[i] == draws && RunOut(draws, incidents[i])
  {
    g := h;
    ghost var y: Past, one: Counters;
    ok, rest, y, one := NextYear(ay, res, draws, incidents[i]);
    if ok {
      SumReported(h.counts[i], one, y);
      RecordedSnoc(h, incidents, y, h.counts[i].Plus(one), rest);
      g := History(h.years + [y], h.counts + [h.counts[i].Plus(one)], h.lefts + [rest]);
    }
  }

  /** One turn of the loop; one are the counters of the year. */
  method NextYear(ay: AvailabilityYear, res: Result, draws: seq<nat>, x: Incidents)
    returns (ok: bool, rest: seq<nat>, ghost y: Past, ghost one: Counters)
    requires ay.Valid() && ay.res.Valid() && res.Valid() && ay.Repr() !! res.Repr() && InYear(draws) && Complete(x)
    modifies ay.Repr(), res.Repr()
    ensures ay.Valid() && ay.Repr() == old(ay.Repr()) && InYear(rest)
    ensures if ok then PastBuilt(y) && PastDrawn(y, draws, x, rest) && Reported(NOTHING, one, y) else RunOut(draws, x)
    ensures CountersOf(res) == if ok then old(CountersOf(res)).Plus(one) else old(CountersOf(res))
  {
    ghost var before := CountersOf(res);
    ok, rest, y, one := RunYear(ay, draws, x);
    assert CountersOf(res) == before;
    if ok {
      AddYear(res, ay);
    }
  }

  /** Adds the counters of the year. */
  method AddYear(res: Result, ay: AvailabilityYear)
    requires ay.Valid() && ay.res.Valid() && res.Valid() && ay.Repr() !! res.Repr()
    modifies res.Repr()
    ensures ay.Valid() && ay.Repr() == old(ay.Repr())
    ensures CountersOf(res) == old(CountersOf(res)).Plus(old(CountersOf(ay.res)))
  {
    Aggregate(res, ay.res);
  }

  method Aggregate(res: Result, one: Result)
    requires one.Valid() && res.Valid() && one.Repr() !! res.Repr()
    modifies res.Repr()
    ensures CountersOf(res) == old(CountersOf(res)).Plus(CountersOf(one))
  {
    res.Aggregate(one);
  }

  // ----- When the aggregated counters are right -----

  ghost function DurationOf(years: seq<Past>, k: nat): nat {
    if years == [] then 0 else DurationOf(years[..|years| - 1], k) + Duration(years[|years| - 1], k)
  }

  function ExcessOf(years: seq<Past>): nat {
    if years == [] then 0 else ExcessOf(years[..|years| - 1]) + Excess(years[|years| - 1].tail)
  }

  /** Over any number of years the durations of two and three zones are right, and those of one zone are off by
      what late intervals add. */
  lemma {:induction false} AggregatedDuration(counts: seq<Counters>, years: seq<Past>, k: nat)
    requires Aggregated(counts, years) && k < N_ZONES
    ensures counts[|years|].outages.At(k).dur ==
            counts[0].outages.At(k).dur + DurationOf(years, k) + if k == 0 then ExcessOf(years) else 0
    decreases |years|
  {
    if years != [] {
      var last := |years| - 1;
      AggregatedDuration(counts[..last + 1], years[..last], k);
      assert Reported(counts[last], counts[last + 1], years[last]);
      assert OutagesReported(counts[last], counts[last + 1], years[last], k);
    }
  }

  ghost function FailuresOf(years: seq<Past>, k: nat): nat {
    if years == [] then 0 else FailuresOf(years[..|years| - 1], k) + Failures(years[|years| - 1], k)
  }

  ghost function LateFailuresOf(years: seq<Past>): nat {
    if years == [] then 0
    else
      var y := years[|years| - 1];
      LateFailuresOf(years[..|years| - 1]) + LateFailureCount(y.raw, y.tail)
  }

  /** So are the failures of two and three zones, and those of one zone are off by what late intervals add. */
  lemma {:induction false} AggregatedFailures(counts: seq<Counters>, years: seq<Past>, k: nat)
    requires Aggregated(counts, years) && k < N_ZONES
    ensures counts[|years|].failures.At(k).n ==
            counts[0].failures.At(k).n + FailuresOf(years, k) + if k == 0 then LateFailuresOf(years) else 0
    decreases |years|
  {
    if years != [] {
      var last := |years| - 1;
      AggregatedFailures(counts[..last + 1], years[..last], k);
      assert Reported(counts[last], counts[last + 1], years[last]);
      assert FailuresReported(counts[last], counts[last + 1], years[last], k);
    }
  }

  ghost function MultipleTimeOf(years: seq<Past>): nat {
    if years == [] then 0 else MultipleTimeOf(years[..|years| - 1]) + MultipleTime(years[|years| - 1])
  }

  /** The years are counted, and the time with at least two nodes down is right in any case. */
  lemma {:induction false} AggregatedMultiple(counts: seq<Counters>, years: seq<Past>)
    requires Aggregated(counts, years)
    ensures counts[|years|].n == counts[0].n + |years|
    ensures counts[|years|].multiple.dur == counts[0].multiple.dur + MultipleTimeOf(years)
    decreases |years|
  {
    if years != [] {
      var last := |years| - 1;
      AggregatedMultiple(counts[..last + 1], years[..last]);
      assert Reported(counts[last], counts[last + 1], years[last]);
    }
  }

  // ----- Averages: how many outages there were, and the shares of the keys lost -----

  ghost function SumOf(years: seq<Past>, f: Past -> real): real {
    if years == [] then 0.0 else SumOf(years[..|years| - 1], f) + f(years[|years| - 1])
  }

  ghost function NumberOf(years: seq<Past>, f: Past -> nat): nat {
    if years == [] then 0 else NumberOf(years[..|years| - 1], f) + f(years[|years| - 1])
  }

  /** Changes of the nodes that are down with k+1 zones affected, and the shares lost from each on; late intervals
      count as one, with the share of one node. */
  ghost function OutageCount(k: nat): Past -> nat {
    (y: Past) =>
      if |y.raw| != N_NODES then 0
      else Count(Changing(y.raw, ZonesDown(y.raw, k)), MAXSECS) + |LateIn(y.tail, k)|
  }

  ghost function OutageShares(k: nat): Past -> real {
    (y: Past) =>
      if |y.raw| != N_NODES then 0.0
      else Weighted(Changing(y.raw, ZonesDown(y.raw, k)), Lost(y.raw), MAXSECS) + Shares(|LateIn(y.tail, k)|)
  }

  /** The same with two nodes down. */
  ghost function MultipleCount(): Past -> nat {
    (y: Past) => if |y.raw| != N_NODES then 0 else Count(Changing(y.raw, AtLeastDown(y.raw, 2)), MAXSECS)
  }

  ghost function MultipleShares(): Past -> real {
    (y: Past) =>
      if |y.raw| != N_NODES then 0.0 else Weighted(Changing(y.raw, AtLeastDown(y.raw, 2)), Lost(y.raw), MAXSECS)
  }

  /** The shares lost when failures of k+1 zones set in. */
  ghost function OnsetShares(k: nat): Past -> real {
    (y: Past) =>
      if |y.raw| != N_NODES then 0.0
      else
        Weighted(ZonesFail(y.raw, k), Lost(y.raw), MAXSECS) + Shares(LateFailureCount(y.raw, LateIn(y.tail, k)))
  }

  /** Both parts of the average of the share lost are sums over the years, for outages of k+1 zones. */
  lemma {:induction false} AggregatedShares(counts: seq<Counters>, years: seq<Past>, k: nat)
    requires Aggregated(counts, years) && k < N_ZONES
    ensures counts[|years|].outages.At(k).n == counts[0].outages.At(k).n + NumberOf(years, OutageCount(k))
    ensures counts[|years|].outages.At(k).rat == counts[0].outages.At(k).rat + SumOf(years, OutageShares(k))
    ensures counts[|years|].failures.At(k).rat == counts[0].failures.At(k).rat + SumOf(years, OnsetShares(k))
    decreases |years|
  {
    if years != [] {
      var last := |years| - 1;
      AggregatedShares(counts[..last + 1], years[..last], k);
      assert Reported(counts[last], counts[last + 1], years[last]);
      assert OutagesReported(counts[last], counts[last + 1], years[last], k);
      assert FailuresReported(counts[last], counts[last + 1], years[last], k);
    }
  }

  /** And for those of two nodes or more. */
  lemma {:induction false} AggregatedMultipleShares(counts: seq<Counters>, years: seq<Past>)
    requires Aggregated(counts, years)
    ensures counts[|years|].multiple.n == counts[0].multiple.n + NumberOf(years, MultipleCount())
    ensures counts[|years|].multiple.rat == counts[0].multiple.rat + SumOf(years, MultipleShares())
    decreases |years|
  {
    if years != [] {
      var last := |years| - 1;
      AggregatedMultipleShares(counts[..last + 1], years[..last]);
      assert Reported(counts[last], counts[last + 1], years[last]);
    }
  }

  // ----- When the failures of one zone are right -----

  /** No failure of one zone is counted too much exactly if every year is one whose upgrades let it be right. */
  lemma {:induction false} LateFailuresOfYears(years: seq<Past>)
    requires AllBuilt(years)
    ensures LateFailuresOf(years) == 0 <==> AllFailuresRight(years)
  {
    if years != [] {
      var last := |years| - 1;
      LateFailuresOfYears(years[..last]);
      LateFailuresOfYear(years[last]);
      AllFailuresRightSnoc(years);
    }
  }

  ghost predicate AllFailuresRight(years: seq<Past>) {
    forall i :: 0 <= i < |years| ==> YearFailuresRight(years[i])
  }

  ghost predicate YearFailuresRight(y: Past) {
    |y.events| == N_EVENTS && BuiltFailuresRight(y.lists, y.events)
  }

  lemma AllFailuresRightSnoc(years: seq<Past>)
    requires years != []
    ensures AllFailuresRight(years) <==> AllFailuresRight(years[..|years| - 1]) && YearFailuresRight(years[|years| - 1])
  {
    var last := |years| - 1;
    assert forall i :: 0 <= i < last ==> years[..last][i] == years[i];
  }

  lemma LateFailuresOfYear(y: Past)
    requires PastBuilt(y)
    ensures LateFailureCount(y.raw, y.tail) == 0 <==> YearFailuresRight(y)
  {
    BuiltClamped(y.raw, y.lists, y.events);
    LateFailuresExact(y.raw, y.tail);
    BuiltFailuresExact(y.raw, y.lists, y.events);
  }

  /** No seconds are added exactly if no upgrade has overrun its year. */
  lemma {:induction false} ExcessOfYears(years: seq<Past>)
    requires AllBuilt(years)
    ensures ExcessOf(years) == 0 <==> NoneOverran(years)
  {
    if years != [] {
      var last := |years| - 1;
      ExcessOfYears(years[..last]);
      ExcessOfYear(years[last]);
      NoneOverranSnoc(years);
    }
  }

  lemma NoneOverranSnoc(years: seq<Past>)
    requires years != []
    ensures NoneOverran(years) <==> NoneOverran(years[..|years| - 1]) && !Overran(years[|years| - 1])
  {
    var last := |years| - 1;
    assert forall i :: 0 <= i < last ==> years[..last][i] == years[i];
  }

  ghost predicate Overran(y: Past) {
    |y.events| == N_EVENTS && !NoOverrun(y.events)
  }

  ghost predicate NoneOverran(years: seq<Past>) {
    forall i :: 0 <= i < |years| ==> !Overran(years[i])
  }

  lemma ExcessOfYear(y: Past)
    requires PastBuilt(y)
    ensures Excess(y.tail) == 0 <==> !Overran(y)
  {
    BuiltClamped(y.raw, y.lists, y.events);
    BuiltNoneAfterYear(y.raw, y.lists, y.events);
    LatesOfAreLate(y.raw);
    ExcessOfLates(LatesOf(y.raw));
  }
}
