/** The OLTP injector of main.go: how many operations it sends at each tick. */
module Injection {

  /** Milliseconds between two ticks. */
  function Period(tps: int): (p: nat)
    ensures p > 0 && 1000 % p == 0
  {
    if tps < 10 then 1000
    else if tps < 100 then 100
    else if tps < 500 then 50
    else if tps < 1000 then 20
    else 10
  }

  /** Ticks in a second. */
  function Periods(tps: int): (n: nat)
    ensures n in {1, 10, 20, 50, 100}
    ensures tps < 10 ==> n == 1
  {
    1000 / Period(tps)
  }

  /** One tick a second for a target below 10, then 10, 20, 50, and from 1000 on a hundred. */
  lemma TicksPerSecond(tps: int)
    ensures Periods(tps) == if tps < 10 then 1 else if tps < 100 then 10 else if tps < 500 then 20
                            else if tps < 1000 then 50 else 100
    ensures Periods(tps) * Period(tps) == 1000
  {
  }

  /** What is due at the i-th tick: the remainder of the division goes to the first tick of each second. */
  function Due(tps: nat, i: nat): nat {
    tps / Periods(tps) + if i % Periods(tps) == 0 then tps % Periods(tps) else 0
  }

  /** A negative target is as good as none. */
  function Target(tps: int): nat {
    if tps < 0 then 0 else tps
  }

  function Sum(s: seq<nat>): nat {
    if s == [] then 0 else Sum(s[..|s| - 1]) + s[|s| - 1]
  }

  /** What is due at the first m ticks. */
  function DueUpTo(tps: nat, m: nat): nat {
    if m == 0 then 0 else DueUpTo(tps, m - 1) + Due(tps, m - 1)
  }

  /** Injects until the stop signal, which comes after a number of ticks; sent lists what each tick has sent. */
  method InjectOLTP(tps: int, ticks: nat) returns (sent: seq<nat>)
    ensures |sent| == ticks && forall i :: 0 <= i < ticks ==> sent[i] == Due(Target(tps), i)
  {
    var nbPeriods := 1000 / Period(tps);
    var nbTrans := tps / nbPeriods;
    var nbTransFirst := tps - nbTrans * nbPeriods;
    Remainder(tps, nbPeriods);
    if nbTransFirst < 0 {
      nbTransFirst := 0;
    }
    var iPeriod := 0;
    sent := [];
    for t := 0 to ticks
      invariant |sent| == t && iPeriod == t % nbPeriods
      invariant forall i :: 0 <= i < t ==> sent[i] == Due(Target(tps), i)
    {
      var n := nbTrans;
      if iPeriod == 0 {
        n := n + nbTransFirst;
      }
      var count := Inject(n);
      assert count == Due(Target(tps), t);
      sent := sent + [count];
      iPeriod := iPeriod + 1;
      if iPeriod == nbPeriods {
        iPeriod := 0;
      }
      NextPhase(t, nbPeriods);
    }
  }

  /** The inner loop: n operations are sent, none if n is not positive. */
  method Inject(n: int) returns (count: nat)
    ensures count == if n < 0 then 0 else n
  {
    count := 0;
    while count < n
      invariant n >= 0 ==> count <= n
      invariant n < 0 ==> count == 0
    {
      count := count + 1;
    }
  }

  // ----- Division by the number of periods: a constant in each of the five cases -----

  lemma Remainder(x: int, p: nat)
    requires p in {1, 10, 20, 50, 100}
    ensures x - (x / p) * p == x % p
  {
    if p == 1 {} else if p == 10 {} else if p == 20 {} else if p == 50 {} else {}
  }

  lemma NoMultipleBetween(a: int, p: int)
    requires p >= 1 && -p < a * p && a * p < p
    ensures a == 0
  {
  }

  lemma NextPhase(t: nat, p: nat)
    requires p >= 1
    ensures (t + 1) % p == if t % p + 1 == p then 0 else t % p + 1
  {
    var q, r := t / p, t % p;
    var q', r' := (t + 1) / p, (t + 1) % p;
    assert t == q * p + r && t + 1 == q' * p + r';
    assert (q' - q) * p == r + 1 - r';
    if r + 1 == p {
      assert (q' - q - 1) * p == (q' - q) * p - p == -r';
      NoMultipleBetween(q' - q - 1, p);
    } else {
      NoMultipleBetween(q' - q, p);
    }
  }

  lemma SamePhase(t: nat, p: nat)
    requires p in {1, 10, 20, 50, 100}
    ensures (t + p) % p == t % p
    ensures t < p ==> t % p == t
  {
    if p == 1 {} else if p == 10 {} else if p == 20 {} else if p == 50 {} else {}
  }

  // ----- Conservation -----

  lemma {:induction false} SumOfDue(tps: nat, sent: seq<nat>)
    requires forall i :: 0 <= i < |sent| ==> sent[i] == Due(tps, i)
    ensures Sum(sent) == DueUpTo(tps, |sent|)
  {
    if sent != [] {
      SumOfDue(tps, sent[..|sent| - 1]);
    }
  }

  /** Within the first second. */
  lemma {:induction false} FirstSecond(tps: nat, r: nat)
    requires r <= Periods(tps)
    ensures DueUpTo(tps, r) == r * (tps / Periods(tps)) + if r > 0 then tps % Periods(tps) else 0
  {
    if r > 0 {
      FirstSecond(tps, r - 1);
      SamePhase(r - 1, Periods(tps));
      OneMore(r, tps / Periods(tps));
    }
  }

  lemma OneMore(r: nat, d: nat)
    requires r > 0
    ensures r * d == (r - 1) * d + d
  {
  }

  /** Any second, wherever it begins, gets exactly the target throughput. */
  lemma {:induction false} AnySecondIsExact(tps: nat, m: nat)
    ensures DueUpTo(tps, m + Periods(tps)) == DueUpTo(tps, m) + tps
    decreases m
  {
    var p := Periods(tps);
    if m == 0 {
      FirstSecond(tps, p);
      Remainder(tps, p);
      assert p * (tps / p) == (tps / p) * p;
    } else {
      AnySecondIsExact(tps, m - 1);
      SamePhase(m - 1, p);
      assert m + p - 1 == (m - 1) + p;
      assert DueUpTo(tps, m + p) == DueUpTo(tps, (m - 1) + p) + Due(tps, (m - 1) + p);
    }
  }

  /** So do a number of seconds. */
  lemma {:induction false} WholeSeconds(tps: nat, secs: nat)
    ensures DueUpTo(tps, secs * Periods(tps)) == secs * tps
  {
    if secs > 0 {
      WholeSeconds(tps, secs - 1);
      AnySecondIsExact(tps, (secs - 1) * Periods(tps));
      OneMore(secs, Periods(tps));
      OneMore(secs, tps);
    }
  }

  /** The injector is never behind its target, and ahead of it by no more than the remainder. */
  lemma {:induction false} NeverBehind(tps: nat, m: nat)
    ensures var p := Periods(tps);
            m * tps <= p * DueUpTo(tps, m) <= m * tps + p * (tps % p)
    decreases m
  {
    var p := Periods(tps);
    if m < p {
      var d, e := tps / p, tps % p;
      FirstSecond(tps, m);
      Remainder(tps, p);
      FirstSecondBounds(p, m, d, e);
      assert tps == d * p + e;
    } else {
      NeverBehind(tps, m - p);
      AnySecondIsExact(tps, m - p);
      LaterSecondBounds(p, m, tps, DueUpTo(tps, m - p));
    }
  }

  lemma FirstSecondBounds(p: nat, m: nat, d: nat, e: nat)
    requires m < p
    ensures m * (d * p + e) <= p * (m * d + if m > 0 then e else 0) <= m * (d * p + e) + p * e
  {
    assert m * (d * p + e) == p * (m * d) + m * e;
    if m > 0 {
      assert p * (m * d + e) == p * (m * d) + p * e;
      assert m * e <= p * e;
    }
  }

  lemma LaterSecondBounds(p: nat, m: nat, tps: nat, before: nat)
    requires m >= p
    ensures p * (before + tps) - m * tps == p * before - (m - p) * tps
  {
    assert p * (before + tps) == p * before + p * tps;
    assert m * tps == (m - p) * tps + p * tps;
  }
}
