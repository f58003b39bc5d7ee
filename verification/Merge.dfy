/** The destructive sweep-line merge of simulation.go, as a function of its two lists. */
module Merge {
  import opened Intervals

  type Gen = (Interval, Interval) -> Interval

  /** Where two outages cover the same seconds, gen keeps the bounds of its first argument and
      computes the load from the two loads only. */
  ghost predicate Generic(gen: Gen) {
    && (forall x: Interval, y: Interval :: gen(x, y).beg == x.beg && gen(x, y).end == x.end)
    && (forall x: Interval, y: Interval, x': Interval, y': Interval :: x.Load() == x'.Load() && y.Load() == y'.Load()
                               ==> gen(x, y).Load() == gen(x', y').Load())
  }

  predicate StartsApart(a: seq<Interval>, b: seq<Interval>) {
    a != [] && b != [] && a[0].beg != b[0].beg
  }

  /** A split is always followed by a step on equal starts, which consumes an interval. */
  function Measure(a: seq<Interval>, b: seq<Interval>): nat {
    2 * (|a| + |b|) + if StartsApart(a, b) then 1 else 0
  }

  /** One turn of the loop: the interval it appends and what is left of the two lists. */
  datatype Turn = Turn(out: Interval, a: seq<Interval>, b: seq<Interval>)

  function Next(a: seq<Interval>, b: seq<Interval>, gen: Gen): (n: Turn)
    requires a != [] && b != []
    ensures Measure(n.a, n.b) < Measure(a, b)
  {
    var x, y := a[0], b[0];
    if x.end <= y.beg then Turn(x, a[1..], b)
    else if y.end <= x.beg then Turn(y, a, b[1..])
    else if x.beg == y.beg then
      if x.end == y.end then Turn(gen(x, y), a[1..], b[1..])
      else if x.end < y.end then Turn(gen(x, y), a[1..], [y.(beg := x.end)] + b[1..])
      else Turn(gen(y, x), [x.(beg := y.end)] + a[1..], b[1..])
    else if x.beg < y.beg then Turn(x.(end := y.beg), [x.(beg := y.beg)] + a[1..], b)
    else Turn(y.(end := x.beg), a, [y.(beg := x.beg)] + b[1..])
  }

  /** The list that merging a and b appends to the output. */
  function Merged(a: seq<Interval>, b: seq<Interval>, gen: Gen): seq<Interval>
    decreases Measure(a, b)
  {
    if a == [] then b
    else if b == [] then a
    else
      var n := Next(a, b, gen);
      [n.out] + Merged(n.a, n.b, gen)
  }

  lemma AppendTurn(out: seq<Interval>, a: seq<Interval>, b: seq<Interval>, gen: Gen)
    requires a != [] && b != []
    ensures var n := Next(a, b, gen);
            out + Merged(a, b, gen) == out + [n.out] + Merged(n.a, n.b, gen)
  {
  }

  // ----- What the merged list says about each second -----

  /** The load the merge owes to second t, in terms of the original lists only. Where both are
      down, gen sees first the interval that ends first. */
  function LoadOfBoth(p: Option<Interval>, q: Option<Interval>, gen: Gen): Load {
    match (p, q)
    case (None, None) => Up
    case (Some(x), None) => x.Load()
    case (None, Some(y)) => y.Load()
    case (Some(x), Some(y)) => if x.end <= y.end then gen(x, y).Load() else gen(y, x).Load()
  }

  /** Cutting the beginning off the first interval changes nothing from the cut on. */
  lemma CutLoad(x: Interval, rest: seq<Interval>, cut: nat, t: nat)
    requires Disjoint([x] + rest) && x.beg <= cut < x.end && !(x.beg <= t < cut)
    ensures var p, q := PieceAt([x] + rest, t), PieceAt([x.(beg := cut)] + rest, t);
            if x.Covers(t) then p == Some(x) && q == Some(x.(beg := cut)) else p == q
  {
    assert ([x] + rest)[1..] == rest == ([x.(beg := cut)] + rest)[1..];
  }

  /** What a turn has to guarantee at second t. */
  ghost predicate TurnRight(a: seq<Interval>, b: seq<Interval>, gen: Gen, n: Turn, t: nat) {
    LoadOfBoth(PieceAt(a, t), PieceAt(b, t), gen) ==
    if n.out.Covers(t) then n.out.Load() else LoadOfBoth(PieceAt(n.a, t), PieceAt(n.b, t), gen)
  }

  lemma TurnApart(x: Interval, a: seq<Interval>, b: seq<Interval>, gen: Gen, t: nat)
    requires Disjoint([x] + a) && Disjoint(b) && b != [] && x.end <= b[0].beg
    ensures TurnRight([x] + a, b, gen, Turn(x, a, b), t)
    ensures TurnRight(b, [x] + a, gen, Turn(x, b, a), t)
  {
    assert ([x] + a)[1..] == a;
    if t < b[0].beg { NothingBeforeStart(b, t); }
  }

  lemma TurnTogether(x: Interval, a: seq<Interval>, y: Interval, b: seq<Interval>, gen: Gen, t: nat)
    requires Generic(gen) && Disjoint([x] + a) && Disjoint([y] + b)
    requires x.beg == y.beg && x.end == y.end
    ensures TurnRight([x] + a, [y] + b, gen, Turn(gen(x, y), a, b), t)
  {
    assert ([x] + a)[1..] == a && ([y] + b)[1..] == b;
  }

  lemma TurnFirstEnds(x: Interval, a: seq<Interval>, y: Interval, b: seq<Interval>, gen: Gen, t: nat)
    requires Generic(gen) && Disjoint([x] + a) && Disjoint([y] + b)
    requires x.beg == y.beg && x.end < y.end
    ensures TurnRight([x] + a, [y] + b, gen, Turn(gen(x, y), a, [y.(beg := x.end)] + b), t)
    ensures TurnRight([y] + b, [x] + a, gen, Turn(gen(x, y), [y.(beg := x.end)] + b, a), t)
  {
    assert ([x] + a)[0] == x && ([x] + a)[1..] == a;
    if !x.Covers(t) { CutLoad(y, b, x.end, t); }
  }

  lemma TurnSplit(x: Interval, a: seq<Interval>, b: seq<Interval>, gen: Gen, t: nat)
    requires Generic(gen) && Disjoint([x] + a) && Disjoint(b) && b != []
    requires x.beg < b[0].beg < x.end
    ensures TurnRight([x] + a, b, gen, Turn(x.(end := b[0].beg), [x.(beg := b[0].beg)] + a, b), t)
    ensures TurnRight(b, [x] + a, gen, Turn(x.(end := b[0].beg), b, [x.(beg := b[0].beg)] + a), t)
  {
    if t < b[0].beg { NothingBeforeStart(b, t); }
    if !(x.beg <= t < b[0].beg) { CutLoad(x, a, b[0].beg, t); }
  }

  /** The appended interval carries the load owed to its seconds; all other seconds are left to the rest. */
  lemma TurnLoad(a: seq<Interval>, b: seq<Interval>, gen: Gen, t: nat)
    requires Generic(gen) && Disjoint(a) && Disjoint(b) && a != [] && b != []
    ensures TurnRight(a, b, gen, Next(a, b, gen), t)
  {
    var x, y := a[0], b[0];
    assert a == [x] + a[1..] && b == [y] + b[1..];
    if x.end <= y.beg {
      TurnApart(x, a[1..], b, gen, t);
    } else if y.end <= x.beg {
      TurnApart(y, b[1..], a, gen, t);
    } else if x.beg < y.beg {
      TurnSplit(x, a[1..], b, gen, t);
    } else if y.beg < x.beg {
      TurnSplit(y, b[1..], a, gen, t);
    } else if x.end < y.end {
      TurnFirstEnds(x, a[1..], y, b[1..], gen, t);
    } else if y.end < x.end {
      TurnFirstEnds(y, b[1..], x, a[1..], gen, t);
    } else {
      TurnTogether(x, a[1..], y, b[1..], gen, t);
    }
  }

  /** What is left of the two lists is disjoint again. */
  lemma TurnDisjoint(a: seq<Interval>, b: seq<Interval>, gen: Gen)
    requires Disjoint(a) && Disjoint(b) && a != [] && b != []
    ensures Disjoint(Next(a, b, gen).a) && Disjoint(Next(a, b, gen).b)
  {
    TailsDisjoint(a);
    TailsDisjoint(b);
  }

  lemma TailsDisjoint(a: seq<Interval>)
    requires Disjoint(a) && a != []
    ensures Disjoint(a[1..])
    ensures forall cut :: a[0].beg <= cut < a[0].end ==> Disjoint([a[0].(beg := cut)] + a[1..])
  {
  }

  /** The appended interval starts where the first of the two lists starts, and nothing that is left
      starts before it ends. */
  lemma TurnOrdered(a: seq<Interval>, b: seq<Interval>, gen: Gen)
    requires Generic(gen) && Disjoint(a) && Disjoint(b) && a != [] && b != []
    ensures var n := Next(a, b, gen);
            && n.out.beg < n.out.end
            && n.out.beg == (if a[0].beg < b[0].beg then a[0].beg else b[0].beg)
            && (n.a != [] ==> n.out.end <= n.a[0].beg)
            && (n.b != [] ==> n.out.end <= n.b[0].beg)
  {
  }

  /** The merged list is sorted and disjoint, and starts no earlier than either input. */
  lemma {:induction false} MergedDisjoint(a: seq<Interval>, b: seq<Interval>, gen: Gen, lo: nat)
    requires Generic(gen) && Disjoint(a) && Disjoint(b)
    requires (a != [] ==> lo <= a[0].beg) && (b != [] ==> lo <= b[0].beg)
    ensures Disjoint(Merged(a, b, gen))
    ensures forall i :: 0 <= i < |Merged(a, b, gen)| ==> lo <= Merged(a, b, gen)[i].beg
    decreases Measure(a, b)
  {
    if a != [] && b != [] {
      var n := Next(a, b, gen);
      TurnDisjoint(a, b, gen);
      TurnOrdered(a, b, gen);
      MergedDisjoint(n.a, n.b, gen, n.out.end);
      ConsDisjoint(n.out, Merged(n.a, n.b, gen));
    }
  }

  lemma ConsDisjoint(x: Interval, s: seq<Interval>)
    requires x.beg < x.end && Disjoint(s) && forall i :: 0 <= i < |s| ==> x.end <= s[i].beg
    ensures Disjoint([x] + s)
    ensures forall i :: 0 <= i < |[x] + s| ==> x.beg <= ([x] + s)[i].beg
  {
  }

  /** At every second the merge gives a's load, b's load, or gen of both. */
  lemma {:induction false} MergedLoad(a: seq<Interval>, b: seq<Interval>, gen: Gen, t: nat)
    requires Generic(gen) && Disjoint(a) && Disjoint(b)
    ensures LoadAt(Merged(a, b, gen), t) == LoadOfBoth(PieceAt(a, t), PieceAt(b, t), gen)
    decreases Measure(a, b)
  {
    if a != [] && b != [] {
      var n := Next(a, b, gen);
      TurnLoad(a, b, gen, t);
      TurnDisjoint(a, b, gen);
      MergedLoad(n.a, n.b, gen, t);
      assert Merged(a, b, gen)[1..] == Merged(n.a, n.b, gen);
    }
  }

  /** At most one split for every interval consumed: the output has at most 2(n+m)-1 intervals,
      and one less when the two lists start together. */
  lemma {:induction false} MergedLength(a: seq<Interval>, b: seq<Interval>, gen: Gen)
    ensures |a| + |b| >= 1 ==> |Merged(a, b, gen)| <= 2 * (|a| + |b|) - 1
    ensures a != [] && b != [] && a[0].beg == b[0].beg ==> |Merged(a, b, gen)| <= 2 * (|a| + |b|) - 2
    decreases Measure(a, b)
  {
    if a != [] && b != [] {
      var n := Next(a, b, gen);
      MergedLength(n.a, n.b, gen);
    }
  }
}
