/** Counting seconds: how the per-interval counters of `Evaluate` relate to the seconds of the year. */
module Seconds {
  import opened Cuts
  import opened Intervals
  import opened Lateness

  /** How many of the first n seconds satisfy p. */
  ghost function Count(p: nat -> bool, n: nat): (c: nat)
    ensures c <= n
  {
    if n == 0 then 0 else Count(p, n - 1) + if p(n - 1) then 1 else 0
  }

  /** p and q agree outside [lo, hi); inside, p is false and q is b. */
  ghost predicate Adds(p: nat -> bool, q: nat -> bool, lo: nat, hi: nat, b: bool) {
    forall t: nat :: if lo <= t < hi then !p(t) && q(t) == b else p(t) == q(t)
  }

  lemma {:induction false} CountAdds(p: nat -> bool, q: nat -> bool, lo: nat, hi: nat, b: bool, n: nat)
    requires lo <= hi && Adds(p, q, lo, hi, b)
    ensures Count(q, n) == Count(p, n) + if !b || n <= lo then 0 else if n <= hi then n - lo else hi - lo
    decreases n
  {
    if n > 0 {
      CountAdds(p, q, lo, hi, b, n - 1);
    }
  }

  lemma {:induction false} CountEqual(p: nat -> bool, q: nat -> bool, n: nat)
    requires forall t: nat :: t < n ==> p(t) == q(t)
    ensures Count(p, n) == Count(q, n)
    decreases n
  {
    if n > 0 {
      CountEqual(p, q, n - 1);
    }
  }

  lemma {:induction false} CountNone(p: nat -> bool, n: nat)
    requires forall t: nat :: t < n ==> !p(t)
    ensures Count(p, n) == 0
    decreases n
  {
    if n > 0 {
      CountNone(p, n - 1);
    }
  }

  /** The weights of those of the first n seconds that satisfy p, added up. */
  ghost function Weighted(p: nat -> bool, w: nat -> real, n: nat): real {
    if n == 0 then 0.0 else Weighted(p, w, n - 1) + if p(n - 1) then w(n - 1) else 0.0
  }

  lemma {:induction false} WeightedNone(p: nat -> bool, w: nat -> real, n: nat)
    requires forall t: nat :: t < n ==> !p(t)
    ensures Weighted(p, w, n) == 0.0
    decreases n
  {
    if n > 0 {
      WeightedNone(p, w, n - 1);
    }
  }

  lemma {:induction false} WeightedEqual(p: nat -> bool, q: nat -> bool, w: nat -> real, v: nat -> real, n: nat)
    requires forall t: nat :: t < n ==> p(t) == q(t) && (p(t) ==> w(t) == v(t))
    ensures Weighted(p, w, n) == Weighted(q, v, n)
    decreases n
  {
    if n > 0 {
      WeightedEqual(p, q, w, v, n - 1);
    }
  }

  lemma {:induction false} WeightedAdds(p: nat -> bool, q: nat -> bool, at: nat, b: bool, w: nat -> real, n: nat)
    requires Adds(p, q, at, at + 1, b)
    ensures Weighted(q, w, n) == Weighted(p, w, n) + if b && at < n then w(at) else 0.0
    decreases n
  {
    if n > 0 {
      WeightedAdds(p, q, at, b, w, n - 1);
    }
  }

  /** Count and Weighted are what their names say. */
  lemma {:induction false} CountIsSize(p: nat -> bool, n: nat)
    ensures Count(p, n) == |set t: nat | t < n && p(t)|
    decreases n
  {
    var s := set t: nat | t < n && p(t);
    if n > 0 {
      CountIsSize(p, n - 1);
      var before := set t: nat | t < n - 1 && p(t);
      assert s == if p(n - 1) then before + {n - 1} else before;
    } else {
      assert s == {};
    }
  }

  // ----- The counters, as totals over the intervals -----

  /** The values of a Statistic. */
  datatype Total = Total(n: int, dur: int, rat: real)
  {
    function Plus(t: Total): Total {
      Total(n + t.n, dur + t.dur, rat + t.rat)
    }

    function Add(x: Interval): Total {
      Total(n + 1, dur + x.Duration(), rat + x.ratio)
    }
  }

  const ZERO := Total(0, 0, 0.0)

  /** One interval is added to the total if it is picked. */
  function Picked(before: Total, s: seq<Interval>, i: nat, pick: nat -> bool): Total
    requires i < |s|
  {
    if pick(i) then before.Add(s[i]) else before
  }

  /** The total, on top of init, over the picked ones among the first n intervals. */
  function TotalOf(init: Total, s: seq<Interval>, n: nat, pick: nat -> bool): Total
    requires n <= |s|
  {
    if n == 0 then init else Picked(TotalOf(init, s, n - 1, pick), s, n - 1, pick)
  }

  /** The number of picked intervals is any quantity that grows by one with each of them. */
  lemma {:induction false} NumberPicked(s: seq<Interval>, n: nat, pick: nat -> bool, f: nat -> int)
    requires n <= |s| && f(0) == 0
    requires forall m: nat :: m < n ==> f(m + 1) == f(m) + if pick(m) then 1 else 0
    ensures TotalOf(ZERO, s, n, pick).n == f(n)
  {
    if n > 0 {
      NumberPicked(s, n - 1, pick, f);
    }
  }

  /** And so is their duration, of one that grows by the duration of each of them. */
  lemma {:induction false} DurationPicked(s: seq<Interval>, n: nat, pick: nat -> bool, f: nat -> int)
    requires n <= |s| && f(0) == 0
    requires forall m: nat :: m < n ==> f(m + 1) == f(m) + if pick(m) then s[m].Duration() else 0
    ensures TotalOf(ZERO, s, n, pick).dur == f(n)
  {
    if n > 0 {
      DurationPicked(s, n - 1, pick, f);
    }
  }

  /** And so is the sum of their shares, of one that grows by the share of each of them. */
  lemma {:induction false} RatioPicked(s: seq<Interval>, n: nat, pick: nat -> bool, f: nat -> real)
    requires n <= |s| && f(0) == 0.0
    requires forall m: nat :: m < n ==> f(m + 1) == f(m) + if pick(m) then s[m].ratio else 0.0
    ensures TotalOf(ZERO, s, n, pick).rat == f(n)
  {
    if n > 0 {
      RatioPicked(s, n - 1, pick, f);
    }
  }

  /** An interval with k+1 affected zones. */
  function OutagePick(s: seq<Interval>, k: nat): nat -> bool {
    (i: nat) => i < |s| && s[i].cnt == k + 1
  }

  /** Such an interval that does not continue, seamlessly, one with as many affected zones. */
  function FailurePick(s: seq<Interval>, k: nat): nat -> bool {
    (i: nat) => i < |s| && s[i].cnt == k + 1 && (i == 0 || s[i - 1].end != s[i].beg || s[i - 1].cnt < s[i].cnt)
  }

  /** An interval where more than one node is down. */
  function MultiplePick(s: seq<Interval>): nat -> bool {
    (i: nat) => i < |s| && s[i].cnt > 0 && Multiple(s[i].Load())
  }

  /** The source compares the share of a single affected zone with that of one node, up to a tolerance. */
  predicate AlmostEqual(a: real, b: real) {
    var diff := if b - a < 0.0 then -(b - a) else b - a;
    diff < 0.00001
  }

  predicate Multiple(l: Load) {
    l.Down? && (l.cnt > 1 || !AlmostEqual(l.ratio, Share(1)))
  }

  // ----- The list up to an interval, second by second -----

  function CntAt(s: seq<Interval>, t: nat): nat {
    match LoadAt(s, t)
    case Up => 0
    case Down(cnt, _) => cnt
  }

  lemma {:induction false} LoadSnoc(s: seq<Interval>, n: nat, t: nat)
    requires Disjoint(s) && n < |s|
    ensures LoadAt(s[..n + 1], t) == if s[n].Covers(t) then s[n].Load() else LoadAt(s[..n], t)
  {
    if s[n].Covers(t) {
      PieceOfMember(s[..n + 1], n, t);
    } else if p :| 0 <= p < n && s[p].Covers(t) {
      PieceOfMember(s[..n + 1], p, t);
      PieceOfMember(s[..n], p, t);
    } else {
      assert !Covered(s[..n + 1], t) && !Covered(s[..n], t);
    }
  }

  lemma NothingCoveredFrom(s: seq<Interval>, n: nat, t: nat)
    requires Disjoint(s) && n <= |s| && (forall i :: 0 <= i < n ==> s[i].end <= t)
    ensures LoadAt(s[..n], t) == Up
  {
  }

  ghost function OutageSecond(s: seq<Interval>, k: nat): nat -> bool {
    (t: nat) => CntAt(s, t) == k + 1
  }

  /** k+1 zones are affected at this second, fewer were at the previous one; before time 0 there are none. */
  ghost function FailureSecond(s: seq<Interval>, k: nat): nat -> bool {
    (t: nat) => CntAt(s, t) == k + 1 && (t == 0 || CntAt(s, t - 1) < k + 1)
  }

  ghost function MultipleSecond(s: seq<Interval>): nat -> bool {
    (t: nat) => Multiple(LoadAt(s, t))
  }

  predicate EndsBy(s: seq<Interval>, horizon: nat) {
    horizon < UINT32 && forall i :: 0 <= i < |s| ==> s[i].end <= horizon && s[i].cnt > 0
  }

  lemma OutageStep(s: seq<Interval>, n: nat, k: nat, horizon: nat)
    requires Disjoint(s) && n < |s| && EndsBy(s, horizon)
    ensures Count(OutageSecond(s[..n + 1], k), horizon) ==
            Count(OutageSecond(s[..n], k), horizon) + if OutagePick(s, k)(n) then s[n].Duration() else 0
  {
    var p, q, x := OutageSecond(s[..n], k), OutageSecond(s[..n + 1], k), s[n];
    forall t: nat
      ensures if x.beg <= t < x.end then !p(t) && q(t) == (x.cnt == k + 1) else p(t) == q(t)
    {
      OutageSnoc(s, n, k, t);
    }
    CountAdds(p, q, x.beg, x.end, x.cnt == k + 1, horizon);
  }

  lemma MultipleStep(s: seq<Interval>, n: nat, horizon: nat)
    requires Disjoint(s) && n < |s| && EndsBy(s, horizon)
    ensures Count(MultipleSecond(s[..n + 1]), horizon) ==
            Count(MultipleSecond(s[..n]), horizon) + if MultiplePick(s)(n) then s[n].Duration() else 0
  {
    var p, q, x := MultipleSecond(s[..n]), MultipleSecond(s[..n + 1]), s[n];
    forall t: nat
      ensures if x.beg <= t < x.end then !p(t) && q(t) == Multiple(x.Load()) else p(t) == q(t)
    {
      MultipleSnoc(s, n, t);
    }
    CountAdds(p, q, x.beg, x.end, Multiple(x.Load()), horizon);
  }

  /** The outage counters add up to the seconds with exactly k+1 affected zones. */
  lemma OutageDuration(s: seq<Interval>, n: nat, k: nat, horizon: nat)
    requires Disjoint(s) && n <= |s| && EndsBy(s, horizon)
    ensures TotalOf(ZERO, s, n, OutagePick(s, k)).dur == Count(OutageSecond(s[..n], k), horizon)
  {
    CountNone(OutageSecond(s[..0], k), horizon);
    var f := (m: nat) => if m <= |s| then Count(OutageSecond(s[..m], k), horizon) else 0;
    forall m: nat | m < n
      ensures f(m + 1) == f(m) + if OutagePick(s, k)(m) then s[m].Duration() else 0
    {
      OutageStep(s, m, k, horizon);
    }
    DurationPicked(s, n, OutagePick(s, k), f);
  }

  lemma OutageSnoc(s: seq<Interval>, n: nat, k: nat, t: nat)
    requires Disjoint(s) && n < |s|
    ensures var p, q := OutageSecond(s[..n], k)(t), OutageSecond(s[..n + 1], k)(t);
            if s[n].Covers(t) then !p && q == (s[n].cnt == k + 1) else p == q
  {
    LoadSnoc(s, n, t);
    if s[n].beg <= t { NothingCoveredFrom(s, n, t); }
  }

  lemma MultipleSnoc(s: seq<Interval>, n: nat, t: nat)
    requires Disjoint(s) && n < |s|
    ensures var p, q := MultipleSecond(s[..n])(t), MultipleSecond(s[..n + 1])(t);
            if s[n].Covers(t) then !p && q == Multiple(s[n].Load()) else p == q
  {
    LoadSnoc(s, n, t);
    if s[n].beg <= t { NothingCoveredFrom(s, n, t); }
  }

  /** The same for the intervals where more than one node is down. */
  lemma MultipleDuration(s: seq<Interval>, n: nat, horizon: nat)
    requires Disjoint(s) && n <= |s| && EndsBy(s, horizon)
    ensures TotalOf(ZERO, s, n, MultiplePick(s)).dur == Count(MultipleSecond(s[..n]), horizon)
  {
    CountNone(MultipleSecond(s[..0]), horizon);
    var f := (m: nat) => if m <= |s| then Count(MultipleSecond(s[..m]), horizon) else 0;
    forall m: nat | m < n
      ensures f(m + 1) == f(m) + if MultiplePick(s)(m) then s[m].Duration() else 0
    {
      MultipleStep(s, m, horizon);
    }
    DurationPicked(s, n, MultiplePick(s), f);
  }

  /** The load just before an interval is that of its predecessor, if the two touch. */
  lemma BeforeInterval(s: seq<Interval>, n: nat)
    requires Disjoint(s) && n < |s| && s[n].beg > 0
    ensures LoadAt(s[..n], s[n].beg - 1) ==
            if n == 0 || s[n - 1].end != s[n].beg then Up else s[n - 1].Load()
  {
    if n == 0 || s[n - 1].end != s[n].beg {
      NothingCoveredFrom(s, n, s[n].beg - 1);
    } else {
      PieceOfMember(s[..n], n - 1, s[n].beg - 1);
    }
  }

  lemma CntSnoc(s: seq<Interval>, n: nat, t: nat)
    requires Disjoint(s) && n < |s|
    ensures t < s[n].beg ==> CntAt(s[..n + 1], t) == CntAt(s[..n], t)
    ensures s[n].beg <= t ==> CntAt(s[..n], t) == 0
    ensures s[n].beg <= t ==> CntAt(s[..n + 1], t) == if t < s[n].end then s[n].cnt else 0
  {
    LoadSnoc(s, n, t);
    if s[n].beg <= t { NothingCoveredFrom(s, n, t); }
  }

  /** Away from its first second an interval brings no failure. */
  lemma FailureElsewhere(s: seq<Interval>, n: nat, k: nat, t: nat)
    requires Disjoint(s) && n < |s| && t != s[n].beg
    ensures FailureSecond(s[..n], k)(t) == FailureSecond(s[..n + 1], k)(t)
  {
    CntSnoc(s, n, t);
    if t > 0 { CntSnoc(s, n, t - 1); }
  }

  lemma CntBefore(s: seq<Interval>, n: nat)
    requires Disjoint(s) && n < |s| && s[n].beg > 0
    ensures CntAt(s[..n + 1], s[n].beg - 1) == if n == 0 || s[n - 1].end != s[n].beg then 0 else s[n - 1].cnt
  {
    CntSnoc(s, n, s[n].beg - 1);
    BeforeInterval(s, n);
  }

  /** One more interval is one more failure exactly if its first second is one. */
  lemma FailureAtStart(s: seq<Interval>, n: nat, k: nat)
    requires Disjoint(s) && n < |s| && (forall i :: 0 <= i < |s| ==> s[i].cnt > 0)
    ensures !FailureSecond(s[..n], k)(s[n].beg)
    ensures FailureSecond(s[..n + 1], k)(s[n].beg) == FailurePick(s, k)(n)
  {
    CntAtStart(s, n);
    StartIsFailure(s, n, k);
  }

  lemma StartIsFailure(s: seq<Interval>, n: nat, k: nat)
    requires n < |s| && s[n].cnt > 0 && (n > 0 ==> s[n].beg > 0) && StartCounts(s, n)
    ensures !FailureSecond(s[..n], k)(s[n].beg)
    ensures FailureSecond(s[..n + 1], k)(s[n].beg) == FailurePick(s, k)(n)
  {
  }

  /** The counts at the first second of an interval, and one second before. */
  predicate StartCounts(s: seq<Interval>, n: nat)
    requires n < |s|
  {
    && CntAt(s[..n], s[n].beg) == 0 && CntAt(s[..n + 1], s[n].beg) == s[n].cnt
    && (s[n].beg > 0 ==>
          CntAt(s[..n + 1], s[n].beg - 1) == if n == 0 || s[n - 1].end != s[n].beg then 0 else s[n - 1].cnt)
  }

  lemma CntAtStart(s: seq<Interval>, n: nat)
    requires Disjoint(s) && n < |s|
    ensures StartCounts(s, n) && (n > 0 ==> s[n].beg > 0)
  {
    LaterStart(s, n);
    CntSnoc(s, n, s[n].beg);
    if s[n].beg > 0 {
      CntBefore(s, n);
    }
  }

  lemma LaterStart(s: seq<Interval>, n: nat)
    requires Disjoint(s) && n < |s|
    ensures n > 0 ==> s[n].beg > 0
  {
    if n > 0 {
      assert s[n - 1].end <= s[n].beg;
    }
  }

  lemma FailureSnoc(s: seq<Interval>, n: nat, k: nat, t: nat)
    requires Disjoint(s) && n < |s| && (forall i :: 0 <= i < |s| ==> s[i].cnt > 0)
    ensures var p, q := FailureSecond(s[..n], k)(t), FailureSecond(s[..n + 1], k)(t);
            if s[n].beg <= t < s[n].beg + 1 then !p && q == FailurePick(s, k)(n) else p == q
  {
    if t == s[n].beg {
      FailureAtStart(s, n, k);
    } else {
      FailureElsewhere(s, n, k, t);
    }
  }

  lemma FailureStep(s: seq<Interval>, n: nat, k: nat, horizon: nat)
    requires Disjoint(s) && n < |s| && EndsBy(s, horizon)
    ensures Count(FailureSecond(s[..n + 1], k), horizon) ==
            Count(FailureSecond(s[..n], k), horizon) + if FailurePick(s, k)(n) then 1 else 0
  {
    var p, q := FailureSecond(s[..n], k), FailureSecond(s[..n + 1], k);
    forall t: nat
      ensures if s[n].beg <= t < s[n].beg + 1 then !p(t) && q(t) == FailurePick(s, k)(n) else p(t) == q(t)
    {
      FailureSnoc(s, n, k, t);
    }
    CountAdds(p, q, s[n].beg, s[n].beg + 1, FailurePick(s, k)(n), horizon);
  }

  lemma NoFailureYet(s: seq<Interval>, k: nat, horizon: nat)
    ensures Count(FailureSecond(s[..0], k), horizon) == 0
  {
    CountNone(FailureSecond(s[..0], k), horizon);
  }

  /** The failure counters count the seconds at which a failure of exactly k+1 zones sets in,
      however the list is cut into intervals. */
  lemma FailureCount(s: seq<Interval>, n: nat, k: nat, horizon: nat)
    requires Disjoint(s) && n <= |s| && EndsBy(s, horizon)
    ensures TotalOf(ZERO, s, n, FailurePick(s, k)).n == Count(FailureSecond(s[..n], k), horizon)
  {
    NoFailureYet(s, k, horizon);
    var f := (m: nat) => if m <= |s| then Count(FailureSecond(s[..m], k), horizon) else 0;
    forall m: nat | m < n
      ensures f(m + 1) == f(m) + if FailurePick(s, k)(m) then 1 else 0
    {
      FailureStep(s, m, k, horizon);
    }
    NumberPicked(s, n, FailurePick(s, k), f);
  }

  // ----- The number of intervals, and their shares -----

  /** An interval begins at a second that satisfies p. */
  ghost function Begin(s: seq<Interval>, p: nat -> bool): nat -> bool {
    (t: nat) => p(t) && BeginsAt(s, t)
  }

  lemma BeginsAtSnoc(s: seq<Interval>, n: nat, t: nat)
    requires n < |s|
    ensures BeginsAt(s[..n + 1], t) <==> BeginsAt(s[..n], t) || s[n].beg == t
  {
    if i :| 0 <= i < n && s[..n][i].beg == t {
      assert s[..n + 1][i].beg == t;
    }
    assert s[..n + 1][n] == s[n] && forall i :: 0 <= i < n ==> s[..n + 1][i] == s[..n][i];
  }

  lemma BeginSnoc(s: seq<Interval>, n: nat, p: nat -> bool)
    requires Disjoint(s) && n < |s|
    ensures Adds(Begin(s[..n], p), Begin(s[..n + 1], p), s[n].beg, s[n].beg + 1, p(s[n].beg))
  {
    var before, after, at := Begin(s[..n], p), Begin(s[..n + 1], p), s[n].beg;
    forall t: nat
      ensures if at <= t < at + 1 then !before(t) && after(t) == p(at) else before(t) == after(t)
    {
      BeginsAtSnoc(s, n, t);
    }
  }

  lemma NothingBegins(p: nat -> bool, w: nat -> real, horizon: nat)
    ensures Count(Begin([], p), horizon) == 0 && Weighted(Begin([], p), w, horizon) == 0.0
  {
    var none := Begin([], p);
    forall t: nat ensures !none(t) {
      assert !BeginsAt([], t);
    }
    CountNone(none, horizon);
    WeightedNone(none, w, horizon);
  }

  /** The picked intervals are the beginnings at seconds that satisfy p, with the shares w of those seconds. */
  lemma {:induction false} BeginsCounted(s: seq<Interval>, n: nat, pick: nat -> bool, p: nat -> bool, w: nat -> real, horizon: nat)
    requires Disjoint(s) && n <= |s| && EndsBy(s, horizon)
    requires forall i: nat :: i < n ==> pick(i) == p(s[i].beg) && (pick(i) ==> s[i].ratio == w(s[i].beg))
    ensures TotalOf(ZERO, s, n, pick).n == Count(Begin(s[..n], p), horizon)
    ensures TotalOf(ZERO, s, n, pick).rat == Weighted(Begin(s[..n], p), w, horizon)
    decreases n
  {
    if n == 0 {
      assert s[..0] == [];
      NothingBegins(p, w, horizon);
    } else {
      var m := n - 1;
      BeginsCounted(s, m, pick, p, w, horizon);
      BeginSnoc(s, m, p);
      var at, b := s[m].beg, p(s[m].beg);
      CountAdds(Begin(s[..m], p), Begin(s[..n], p), at, at + 1, b, horizon);
      WeightedAdds(Begin(s[..m], p), Begin(s[..n], p), at, b, w, horizon);
    }
  }

  /** The test on the previous interval, seen from the whole list. */
  lemma FailureAtBegin(s: seq<Interval>, n: nat, k: nat)
    requires Disjoint(s) && n < |s| && (forall i :: 0 <= i < |s| ==> s[i].cnt > 0)
    ensures FailurePick(s, k)(n) == FailureSecond(s, k)(s[n].beg)
  {
    LaterStart(s, n);
    PieceOfMember(s, n, s[n].beg);
    if s[n].beg > 0 {
      LoadBefore(s, n);
    }
    BeginIsFailure(s, n, k);
  }

  lemma BeginIsFailure(s: seq<Interval>, n: nat, k: nat)
    requires n < |s| && s[n].cnt > 0 && (n > 0 ==> s[n].beg > 0) && CntAt(s, s[n].beg) == s[n].cnt
    requires s[n].beg > 0 ==>
               CntAt(s, s[n].beg - 1) == if n == 0 || s[n - 1].end != s[n].beg then 0 else s[n - 1].cnt
    ensures FailurePick(s, k)(n) == FailureSecond(s, k)(s[n].beg)
  {
  }

  lemma LoadBefore(s: seq<Interval>, n: nat)
    requires Disjoint(s) && n < |s| && s[n].beg > 0
    ensures CntAt(s, s[n].beg - 1) == if n == 0 || s[n - 1].end != s[n].beg then 0 else s[n - 1].cnt
  {
    var t := s[n].beg - 1;
    if n > 0 && s[n - 1].end == s[n].beg {
      PieceOfMember(s, n - 1, t);
    } else {
      forall i | 0 <= i < |s| ensures !s[i].Covers(t) {
        assert i < n - 1 ==> s[i].end <= s[n - 1].beg < s[n - 1].end;
      }
      assert !Covered(s, t);
    }
  }

  // ----- Late intervals behind the list -----

  /** Totals over a beginning that two lists share. */
  lemma {:induction false} TotalShared(init: Total, s: seq<Interval>, t: seq<Interval>, n: nat, p: nat -> bool, q: nat -> bool)
    requires n <= |s| && n <= |t| && s[..n] == t[..n]
    requires forall i: nat :: i < n ==> p(i) == q(i)
    ensures TotalOf(init, s, n, p) == TotalOf(init, t, n, q)
    decreases n
  {
    if n > 0 {
      assert s[..n][..n - 1] == s[..n - 1] && t[..n][..n - 1] == t[..n - 1];
      assert s[n - 1] == s[..n][n - 1] == t[n - 1];
      TotalShared(init, s, t, n - 1, p, q);
    }
  }

  /** Totals stay the same where nothing is picked. */
  lemma {:induction false} NothingPicked(init: Total, s: seq<Interval>, m: nat, n: nat, p: nat -> bool)
    requires m <= n <= |s| && forall i: nat :: m <= i < n ==> !p(i)
    ensures TotalOf(init, s, n, p) == TotalOf(init, s, m, p)
    decreases n
  {
    if n > m {
      NothingPicked(init, s, m, n - 1, p);
    }
  }

  /** Late intervals with the load of one node, from the m-th on. */
  ghost predicate LateFrom(s: seq<Interval>, m: nat) {
    m <= |s| && forall i :: m <= i < |s| ==> s[i].Late() && s[i].Load() == Down(1, Share(1))
  }

  /** They are outages of one zone that last as long as the subtraction of their bounds wraps around to. */
  lemma {:induction false} LateOutages(s: seq<Interval>, m: nat, n: nat, k: nat)
    requires LateFrom(s, m) && m <= n <= |s|
    ensures TotalOf(ZERO, s, n, OutagePick(s, k)).n == TotalOf(ZERO, s, m, OutagePick(s, k)).n + if k == 0 then n - m else 0
    ensures TotalOf(ZERO, s, n, OutagePick(s, k)).dur ==
            TotalOf(ZERO, s, m, OutagePick(s, k)).dur + if k == 0 then Excess(s[m..n]) else 0
    decreases n
  {
    if n > m {
      LateOutages(s, m, n - 1, k);
      assert s[m..n][..n - m - 1] == s[m..n - 1] && s[m..n][n - m - 1] == s[n - 1];
      assert s[n - 1].Late() && s[n - 1].Load() == Down(1, Share(1));
    }
  }

  /** The share of one node, a number of times. */
  function Shares(n: nat): real {
    if n == 0 then 0.0 else Shares(n - 1) + Share(1)
  }

  lemma {:induction false} SharesProduct(n: nat)
    ensures Shares(n) == n as real * Share(1)
  {
    if n > 0 {
      SharesProduct(n - 1);
    }
  }

  /** The total t is c and n more, each with the share of one node. */
  ghost predicate Joined(c: Total, t: Total, n: nat) {
    t.n == c.n + n && t.rat == c.rat + Shares(n)
  }

  /** Each that is picked adds the share of one node. */
  lemma {:induction false} LateShares(s: seq<Interval>, m: nat, n: nat, pick: nat -> bool) returns (count: nat)
    requires LateFrom(s, m) && m <= n <= |s|
    ensures Joined(TotalOf(ZERO, s, m, pick), TotalOf(ZERO, s, n, pick), count)
    decreases n
  {
    count := 0;
    if n > m {
      count := LateShares(s, m, n - 1, pick);
      assert s[n - 1].Load() == Down(1, Share(1));
      if pick(n - 1) {
        count := count + 1;
      }
    }
  }

  /** How many of the intervals begin after the end of the year. */
  function After(s: seq<Interval>): (c: nat)
    ensures c <= |s|
  {
    if s == [] then 0 else After(s[..|s| - 1]) + if s[|s| - 1].beg > MAXSECS then 1 else 0
  }

  lemma AfterSnoc(s: seq<Interval>, m: nat, n: nat)
    requires m <= n < |s|
    ensures After(s[m..n + 1]) == After(s[m..n]) + if s[n].beg > MAXSECS then 1 else 0
  {
    assert s[m..n + 1][..n - m] == s[m..n] && s[m..n + 1][n - m] == s[n];
  }

  /** One that begins with the end of the year is counted if it comes first and nothing lasts until then. */
  function AtEnd(core: seq<Interval>, tail: seq<Interval>): nat {
    if tail != [] && tail[0].beg == MAXSECS && !LastsToEnd(core) then 1 else 0
  }

  predicate LastsToEnd(core: seq<Interval>) {
    core != [] && core[|core| - 1].end == MAXSECS
  }

  lemma LateIsFailure(s: seq<Interval>, m: nat, n: nat)
    requires LateFrom(s, m) && m <= n < |s| && (m > 0 ==> s[m - 1].end <= MAXSECS && s[m - 1].cnt > 0)
    ensures FailurePick(s, 0)(n) <==> s[n].beg > MAXSECS || (n == m && !LastsToEnd(s[..m]))
  {
    assert s[n].Load() == Down(1, Share(1));
    if n > m {
      assert s[n - 1].Late() && s[n - 1].Load() == Down(1, Share(1));
    }
    assert s[n].Late();
  }

  lemma PickedOnce(s: seq<Interval>, n: nat, pick: nat -> bool)
    requires n < |s|
    ensures TotalOf(ZERO, s, n + 1, pick).n == TotalOf(ZERO, s, n, pick).n + if pick(n) then 1 else 0
  {
  }

  /** How many of the intervals from m to i are failures of one zone. */
  function LateFailuresUpTo(s: seq<Interval>, m: nat, i: nat): nat
    requires m <= i <= |s|
  {
    After(s[m..i]) + if i > m then AtEnd(s[..m], s[m..]) else 0
  }

  ghost predicate LateStep(s: seq<Interval>, m: nat, i: nat)
    requires m <= i < |s|
  {
    LateFailuresUpTo(s, m, i + 1) == LateFailuresUpTo(s, m, i) + if FailurePick(s, 0)(i) then 1 else 0
  }

  lemma LateFailureStep(s: seq<Interval>, m: nat, i: nat)
    requires LateFrom(s, m) && m <= i < |s| && (m > 0 ==> s[m - 1].end <= MAXSECS && s[m - 1].cnt > 0)
    ensures LateStep(s, m, i)
  {
    AfterSnoc(s, m, i);
    LateIsFailure(s, m, i);
    assert s[i].Late() && s[m..][0] == s[m];
  }

  lemma {:induction false} LateSteps(s: seq<Interval>, m: nat, n: nat)
    requires m <= n <= |s| && forall i: nat :: m <= i < n ==> LateStep(s, m, i)
    ensures TotalOf(ZERO, s, n, FailurePick(s, 0)).n ==
            TotalOf(ZERO, s, m, FailurePick(s, 0)).n + LateFailuresUpTo(s, m, n)
    decreases n
  {
    if n > m {
      LateSteps(s, m, n - 1);
      assert LateStep(s, m, n - 1);
      PickedOnce(s, n - 1, FailurePick(s, 0));
    }
  }

  /** Each is counted as a failure of one zone if it begins after the end of the year. */
  lemma LateFailures(s: seq<Interval>, m: nat)
    requires LateFrom(s, m) && (m > 0 ==> s[m - 1].end <= MAXSECS && s[m - 1].cnt > 0)
    ensures TotalOf(ZERO, s, |s|, FailurePick(s, 0)).n ==
            TotalOf(ZERO, s, m, FailurePick(s, 0)).n + LateFailuresUpTo(s, m, |s|)
  {
    forall i: nat | m <= i < |s| ensures LateStep(s, m, i) {
      LateFailureStep(s, m, i);
    }
    LateSteps(s, m, |s|);
  }

  lemma LateNoOtherFailures(s: seq<Interval>, m: nat, k: nat)
    requires LateFrom(s, m) && k > 0
    ensures TotalOf(ZERO, s, |s|, FailurePick(s, k)) == TotalOf(ZERO, s, m, FailurePick(s, k))
  {
    forall i: nat | m <= i < |s| ensures !FailurePick(s, k)(i) {
      assert s[i].Load() == Down(1, Share(1));
    }
    NothingPicked(ZERO, s, m, |s|, FailurePick(s, k));
  }

  lemma LateNotMultiple(s: seq<Interval>, m: nat)
    requires LateFrom(s, m)
    ensures TotalOf(ZERO, s, |s|, MultiplePick(s)) == TotalOf(ZERO, s, m, MultiplePick(s))
  {
    forall i: nat | m <= i < |s| ensures !MultiplePick(s)(i) {
      assert s[i].Load() == Down(1, Share(1));
    }
    NothingPicked(ZERO, s, m, |s|, MultiplePick(s));
  }

  /** The outage counters, from those of the intervals of the year. */
  lemma OutagesWithLate(s: seq<Interval>, core: seq<Interval>, tail: seq<Interval>, k: nat)
    requires s == core + tail && LateFrom(s, |core|)
    ensures var t, c := TotalOf(ZERO, s, |s|, OutagePick(s, k)), TotalOf(ZERO, core, |core|, OutagePick(core, k));
            Joined(c, t, if k == 0 then |tail| else 0) && t.dur == c.dur + if k == 0 then Excess(tail) else 0
  {
    var m := |core|;
    assert s[..m] == core && s[m..|s|] == tail && core[..m] == core;
    TotalShared(ZERO, s, core, m, OutagePick(s, k), OutagePick(core, k));
    LateOutages(s, m, |s|, k);
    var count := LateShares(s, m, |s|, OutagePick(s, k));
  }

  lemma FailuresOfCore(s: seq<Interval>, core: seq<Interval>, k: nat)
    requires core <= s
    ensures TotalOf(ZERO, s, |core|, FailurePick(s, k)) == TotalOf(ZERO, core, |core|, FailurePick(core, k))
  {
    assert s[..|core|] == core && core[..|core|] == core;
    TotalShared(ZERO, s, core, |core|, FailurePick(s, k), FailurePick(core, k));
  }

  lemma LateFailuresJoined(s: seq<Interval>, m: nat)
    requires LateFrom(s, m) && (m > 0 ==> s[m - 1].end <= MAXSECS && s[m - 1].cnt > 0)
    ensures Joined(TotalOf(ZERO, s, m, FailurePick(s, 0)), TotalOf(ZERO, s, |s|, FailurePick(s, 0)), LateFailuresUpTo(s, m, |s|))
  {
    LateFailures(s, m);
    var count := LateShares(s, m, |s|, FailurePick(s, 0));
  }

  lemma TailFailures(s: seq<Interval>, core: seq<Interval>, tail: seq<Interval>)
    requires s == core + tail
    ensures LateFailuresUpTo(s, |core|, |s|) == After(tail) + AtEnd(core, tail)
  {
    assert s[..|core|] == core && s[|core|..|s|] == s[|core|..] == tail;
  }

  /** The failure counters. */
  lemma FailuresWithLate(s: seq<Interval>, core: seq<Interval>, tail: seq<Interval>, k: nat)
    requires s == core + tail && LateFrom(s, |core|) && EndsBy(core, MAXSECS)
    ensures Joined(TotalOf(ZERO, core, |core|, FailurePick(core, k)), TotalOf(ZERO, s, |s|, FailurePick(s, k)),
                   if k == 0 then After(tail) + AtEnd(core, tail) else 0)
  {
    var m := |core|;
    FailuresOfCore(s, core, k);
    if k == 0 {
      if m > 0 { assert s[m - 1] == core[m - 1]; }
      LateFailuresJoined(s, m);
      TailFailures(s, core, tail);
    } else {
      LateNoOtherFailures(s, m, k);
    }
  }

  lemma MultipleWithLate(s: seq<Interval>, core: seq<Interval>, tail: seq<Interval>)
    requires s == core + tail && LateFrom(s, |core|)
    ensures TotalOf(ZERO, s, |s|, MultiplePick(s)) == TotalOf(ZERO, core, |core|, MultiplePick(core))
  {
    var m := |core|;
    assert s[..m] == core && core[..m] == core;
    TotalShared(ZERO, s, core, m, MultiplePick(s), MultiplePick(core));
    LateNotMultiple(s, m);
  }
}
