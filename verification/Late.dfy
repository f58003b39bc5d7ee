/** Failures that begin after the year: clamping their end leaves reversed intervals. They end up behind all
    other intervals, stay there through normalization and merges, and reach the counters. */
module Lateness {
  import opened CanonicalForm
  import opened Intervals
  import opened Merge

  // ----- A list falls into the intervals of the year and the late ones -----

  /** How many intervals there are before the first late one. */
  function CoreLength(s: seq<Interval>): (n: nat)
    ensures n <= |s|
  {
    if s == [] || s[0].beg >= MAXSECS then 0 else 1 + CoreLength(s[1..])
  }

  function Core(s: seq<Interval>): seq<Interval> {
    s[..CoreLength(s)]
  }

  function Tail(s: seq<Interval>): seq<Interval> {
    s[CoreLength(s)..]
  }

  lemma {:induction false} CoreAndTail(core: seq<Interval>, tail: seq<Interval>)
    requires AllWellFormed(core) && AllLate(tail)
    ensures Core(core + tail) == core && Tail(core + tail) == tail
  {
    if core == [] {
      assert core + tail == tail;
    } else {
      assert (core + tail)[0] == core[0] && (core + tail)[1..] == core[1..] + tail;
      CoreAndTail(core[1..], tail);
      assert CoreLength(core + tail) == |core|;
    }
  }

  /** The late ones of a list, wherever they are. */
  function Lates(s: seq<Interval>): seq<Interval> {
    if s == [] then []
    else if s[0].Late() then [s[0]] + Lates(s[1..])
    else Lates(s[1..])
  }

  lemma {:induction false} LatesConcat(a: seq<Interval>, b: seq<Interval>)
    ensures Lates(a + b) == Lates(a) + Lates(b)
  {
    if a == [] {
      assert a + b == b;
    } else {
      assert (a + b)[0] == a[0] && (a + b)[1..] == a[1..] + b;
      LatesConcat(a[1..], b);
      assert [a[0]] + (Lates(a[1..]) + Lates(b)) == [a[0]] + Lates(a[1..]) + Lates(b);
    }
  }

  lemma {:induction false} NoLates(s: seq<Interval>)
    requires AllWellFormed(s)
    ensures Lates(s) == []
  {
    if s != [] {
      NoLates(s[1..]);
    }
  }

  lemma {:induction false} OnlyLates(s: seq<Interval>)
    requires AllLate(s)
    ensures Lates(s) == s
  {
    if s != [] {
      OnlyLates(s[1..]);
      assert s == [s[0]] + s[1..];
    }
  }

  lemma {:induction false} LatesCount(s: seq<Interval>, x: Interval)
    ensures multiset(Lates(s))[x] == if x.Late() then multiset(s)[x] else 0
  {
    if s != [] {
      LatesCount(s[1..], x);
      assert s == [s[0]] + s[1..];
    }
  }

  lemma LatesPermuted(a: seq<Interval>, b: seq<Interval>)
    requires multiset(a) == multiset(b)
    ensures multiset(Lates(a)) == multiset(Lates(b)) && |Lates(a)| == |Lates(b)|
  {
    forall x ensures multiset(Lates(a))[x] == multiset(Lates(b))[x] {
      LatesCount(a, x);
      LatesCount(b, x);
    }
    assert |multiset(Lates(a))| == |Lates(a)| && |multiset(Lates(b))| == |Lates(b)|;
  }

  /** How many seconds the counters add for the late intervals of a list. */
  function Excess(s: seq<Interval>): nat {
    if s == [] then 0 else Excess(s[..|s| - 1]) + if s[|s| - 1].Late() then s[|s| - 1].Duration() else 0
  }

  lemma {:induction false} ExcessConcat(a: seq<Interval>, b: seq<Interval>)
    ensures Excess(a + b) == Excess(a) + Excess(b)
  {
    if b == [] {
      assert a + b == a;
    } else {
      var last := |b| - 1;
      assert (a + b)[..|a + b| - 1] == a + b[..last];
      ExcessConcat(a, b[..last]);
    }
  }

  // ----- Normalization -----

  /** A late interval meets its predecessor only at the end of the year, and then disappears in it. */
  lemma FuseOneLate(s: seq<Interval>, x: Interval)
    requires AllClamped(s) && x.Late()
    ensures if s != [] && x.Contiguous(s[|s| - 1]) then FuseOne(s, x) == s else FuseOne(s, x) == s + [x]
    ensures s != [] && x.Contiguous(s[|s| - 1]) && s[|s| - 1].WellFormed() ==> x.beg == MAXSECS
  {
    if s != [] {
      assert s == s[..|s| - 1] + [s[|s| - 1]];
    }
  }

  /** The late intervals that are left of rest, behind the list s. */
  function KeptLate(s: seq<Interval>, rest: seq<Interval>): (tail: seq<Interval>)
    requires AllLate(rest)
    ensures AllLate(tail) && |tail| <= |rest| && forall x :: x in tail ==> x in rest
    decreases |rest|
  {
    if rest == [] then []
    else if s != [] && rest[0].Contiguous(s[|s| - 1]) then KeptLate(s, rest[1..])
    else [rest[0]] + KeptLate(s + [rest[0]], rest[1..])
  }

  lemma {:induction false} FusedLate(s: seq<Interval>, rest: seq<Interval>)
    requires AllClamped(s) && AllLate(rest)
    ensures Fused(s, rest) == s + KeptLate(s, rest)
    decreases |rest|
  {
    if rest != [] {
      var x := rest[0];
      assert x.Late();
      FuseOneLate(s, x);
      if s != [] && x.Contiguous(s[|s| - 1]) {
        FusedLate(s, rest[1..]);
      } else {
        FusedLate(s + [x], rest[1..]);
        ConsBehind(s, x, KeptLate(s + [x], rest[1..]));
      }
    }
  }

  lemma ConsBehind(s: seq<Interval>, x: Interval, t: seq<Interval>)
    ensures s + [x] + t == s + ([x] + t)
  {
  }

  ghost predicate StartsIn(tail: seq<Interval>, lates: seq<Interval>) {
    forall x :: x in tail ==> StartOf(x, lates)
  }

  ghost predicate StartOf(x: Interval, lates: seq<Interval>) {
    exists y :: y in lates && y.beg == x.beg
  }

  /** What is known of the late intervals that stay of those of a node: they are not more and start where
      those start; a single one keeps the seconds it stands for; they disappear only if the node is down to the
      last second. */
  ghost predicate Kept(tail: seq<Interval>, lates: seq<Interval>, downAtEnd: bool) {
    && AllLate(tail) && |tail| <= |lates| && StartsIn(tail, lates)
    && (|lates| <= 1 ==> Excess(tail) == Excess(lates))
    && (tail == [] && lates != [] ==> downAtEnd)
  }

  lemma OneKept(s: seq<Interval>, lates: seq<Interval>)
    requires AllWellFormed(s) && AllLate(lates)
    ensures Kept(KeptLate(s, lates), lates, Covered(s, MAXSECS - 1))
  {
    if lates != [] && s != [] && lates[0].Contiguous(s[|s| - 1]) {
      assert lates[0].Late() && s[|s| - 1].WellFormed();
      assert s[|s| - 1].Covers(MAXSECS - 1);
    }
    if |lates| == 1 {
      var x := lates[0];
      assert lates == [x] && lates[1..] == [];
      assert KeptLate(s + [x], []) == [];
      if s != [] && x.Contiguous(s[|s| - 1]) {
        assert x.Late() && s[|s| - 1].WellFormed();
        assert Excess([x]) == x.Duration() + Excess([]) == 0 by { assert [x][..0] == []; }
      }
    }
  }

  /** Sorting puts the late intervals behind the others. */
  lemma {:induction false} SortedFallsApart(p: seq<Interval>)
    requires AllClamped(p) && SortedByBeg(p)
    ensures p == Core(p) + Tail(p) && AllWellFormed(Core(p)) && AllLate(Tail(p)) && Lates(p) == Tail(p)
  {
    if p != [] && p[0].beg < MAXSECS {
      SortedFallsApart(p[1..]);
      assert Core(p) == [p[0]] + Core(p[1..]) && Tail(p) == Tail(p[1..]);
    } else {
      assert AllLate(p);
      OnlyLates(p);
    }
  }

  lemma ClampedPermuted(raw: seq<Interval>, p: seq<Interval>)
    requires multiset(raw) == multiset(p) && AllClamped(raw)
    ensures AllClamped(p)
  {
    forall i | 0 <= i < |p| ensures p[i] in raw {
      assert p[i] in multiset(p);
    }
  }

  /** A late interval covers no second. */
  lemma LateCoversNothing(core: seq<Interval>, tail: seq<Interval>, t: nat)
    requires AllLate(tail)
    ensures Covered(core + tail, t) <==> Covered(core, t)
  {
    CoveredConcat(core, tail, t);
  }

  /** What Normalize makes of clamped intervals: a canonical list, and late intervals behind it. */
  lemma NormalizedLate(raw: seq<Interval>, s: seq<Interval>)
    requires Normalized(raw, s) && AllClamped(raw)
    ensures s == Core(s) + Tail(s) && AllWellFormed(Core(s)) && Canonical(Core(s))
    ensures SameCoverage(Core(s), raw) && Kept(Tail(s), Lates(raw), Covered(raw, MAXSECS - 1))
  {
    var p :| multiset(p) == multiset(raw) && SortedByBeg(p) && s == Fused([], p);
    ClampedPermuted(raw, p);
    SortedFallsApart(p);
    SortedLate(Core(p), Tail(p));
    LatesPermuted(raw, p);
    KeptPermuted(Tail(s), Lates(p), Lates(raw), Covered(p, MAXSECS - 1));
    PermutationCoverage(raw, p);
    SameCoverageTrans(Core(s), p, raw);
  }

  lemma KeptPermuted(tail: seq<Interval>, a: seq<Interval>, b: seq<Interval>, downAtEnd: bool)
    requires Kept(tail, a, downAtEnd) && multiset(a) == multiset(b) && |a| == |b|
    ensures Kept(tail, b, downAtEnd)
  {
    if |a| == 1 {
      assert a[0] in multiset(b);
      assert a == b;
    }
    forall x | x in tail ensures StartOf(x, b) {
      assert StartOf(x, a);
      var y :| y in a && y.beg == x.beg;
      assert y in multiset(b);
    }
  }

  lemma SortedLate(core: seq<Interval>, late: seq<Interval>)
    requires AllWellFormed(core) && AllLate(late) && SortedByBeg(core + late)
    ensures var s := Fused([], core + late);
            && s == Core(s) + Tail(s) && AllWellFormed(Core(s)) && Canonical(Core(s))
            && SameCoverage(Core(s), core + late) && Kept(Tail(s), late, Covered(core + late, MAXSECS - 1))
  {
    var c := Fused([], core);
    CoreFused(core, late);
    FusedConcat([], core, late);
    FusedLate(c, late);
    OneKept(c, late);
    CoreAndTail(c, KeptLate(c, late));
  }

  lemma CoreFused(core: seq<Interval>, late: seq<Interval>)
    requires AllWellFormed(core) && AllLate(late) && SortedByBeg(core + late)
    ensures var c := Fused([], core);
            AllWellFormed(c) && Canonical(c) && SameCoverage(c, core + late)
  {
    assert [] + core == core && forall i :: 0 <= i < |core| ==> core[i] == (core + late)[i];
    FusedCanonical([], core);
    forall t: nat ensures Covered(Fused([], core), t) <==> Covered(core + late, t) {
      LateCoversNothing(core, late, t);
    }
  }

  // ----- Merges -----

  /** Nothing of a merge of intervals of the year is late. */
  lemma {:induction false} MergedWellFormed(a: seq<Interval>, b: seq<Interval>, gen: Gen)
    requires Generic(gen) && AllWellFormed(a) && AllWellFormed(b)
    ensures AllWellFormed(Merged(a, b, gen))
    decreases Measure(a, b)
  {
    if a != [] && b != [] {
      TurnWellFormed(a, b, gen);
      var n := Next(a, b, gen);
      MergedWellFormed(n.a, n.b, gen);
    }
  }

  lemma TurnWellFormed(a: seq<Interval>, b: seq<Interval>, gen: Gen)
    requires Generic(gen) && AllWellFormed(a) && AllWellFormed(b) && a != [] && b != []
    ensures var n := Next(a, b, gen);
            n.out.WellFormed() && AllWellFormed(n.a) && AllWellFormed(n.b)
  {
  }

  /** A turn looks at the first two intervals only. */
  lemma TurnWithTails(a: seq<Interval>, la: seq<Interval>, b: seq<Interval>, lb: seq<Interval>, gen: Gen)
    requires a != [] && b != []
    ensures var n, m := Next(a, b, gen), Next(a + la, b + lb, gen);
            m.out == n.out && m.a == n.a + la && m.b == n.b + lb
  {
    var x, y := a[0], b[0];
    assert (a + la)[1..] == a[1..] + la && (b + lb)[1..] == b[1..] + lb;
    CutWithTail(x, y.end, a[1..], la);
    CutWithTail(x, y.beg, a[1..], la);
    CutWithTail(y, x.end, b[1..], lb);
    CutWithTail(y, x.beg, b[1..], lb);
  }

  lemma CutWithTail(x: Interval, cut: nat, s: seq<Interval>, tail: seq<Interval>)
    ensures [x.(beg := cut)] + (s + tail) == [x.(beg := cut)] + s + tail
  {
  }

  lemma ConsConcat(x: Interval, s: seq<Interval>, t: seq<Interval>)
    ensures [x] + (s + t) == [x] + s + t
  {
  }

  /** Late intervals do not take part in a merge: they are appended, those of a before those of b. */
  lemma {:induction false} MergedTails(a: seq<Interval>, la: seq<Interval>, b: seq<Interval>, lb: seq<Interval>, gen: Gen)
    requires Generic(gen) && AllWellFormed(a) && AllWellFormed(b) && AllLate(la) && AllLate(lb)
    ensures Merged(a + la, b + lb, gen) == Merged(a, b, gen) + (la + lb)
    decreases Measure(a, b)
  {
    if a == [] {
      LateBehind(la, b, lb, gen);
      LatesInRow(la, lb, gen);
      assert a + la == la;
    } else if b == [] {
      LateAfter(a, la, lb, gen);
      LatesInRow(la, lb, gen);
      assert b + lb == lb;
    } else {
      var n := Next(a, b, gen);
      TurnWithTails(a, la, b, lb, gen);
      TurnWellFormed(a, b, gen);
      MergedTails(n.a, la, n.b, lb, gen);
      ConsConcat(n.out, Merged(n.a, n.b, gen), la + lb);
    }
  }

  lemma TakesFirst(x: Interval, a: seq<Interval>, b: seq<Interval>, gen: Gen)
    requires b != [] && b[0].Late() && x.WellFormed()
    ensures Merged([x] + a, b, gen) == [x] + Merged(a, b, gen)
  {
    assert ([x] + a)[1..] == a;
  }

  lemma TakesSecond(a: seq<Interval>, y: Interval, b: seq<Interval>, gen: Gen)
    requires a != [] && a[0].Late() && y.WellFormed()
    ensures Merged(a, [y] + b, gen) == [y] + Merged(a, b, gen)
  {
    assert ([y] + b)[1..] == b;
  }

  lemma LateBehind(la: seq<Interval>, b: seq<Interval>, lb: seq<Interval>, gen: Gen)
    requires AllLate(la) && AllWellFormed(b)
    ensures Merged(la, b + lb, gen) == b + Merged(la, lb, gen)
  {
    if la != [] {
      assert la[0].Late();
      TakesAllOfSecond(la, b, lb, gen);
    }
  }

  lemma {:induction false} TakesAllOfSecond(a: seq<Interval>, b: seq<Interval>, rest: seq<Interval>, gen: Gen)
    requires a != [] && a[0].Late() && AllWellFormed(b)
    ensures Merged(a, b + rest, gen) == b + Merged(a, rest, gen)
    decreases |b|
  {
    if b == [] {
      assert b + rest == rest;
    } else {
      var y, b' := b[0], b[1..];
      assert b == [y] + b' && y.WellFormed();
      TakesAllOfSecond(a, b', rest, gen);
      TakesSecond(a, y, b' + rest, gen);
      ConsConcat(y, b', rest);
      ConsConcat(y, b', Merged(a, rest, gen));
    }
  }

  lemma LateAfter(a: seq<Interval>, la: seq<Interval>, lb: seq<Interval>, gen: Gen)
    requires AllWellFormed(a) && AllLate(lb)
    ensures Merged(a + la, lb, gen) == a + Merged(la, lb, gen)
  {
    if lb != [] {
      assert lb[0].Late();
      TakesAllOfFirst(a, la, lb, gen);
    }
  }

  lemma {:induction false} TakesAllOfFirst(a: seq<Interval>, rest: seq<Interval>, b: seq<Interval>, gen: Gen)
    requires b != [] && b[0].Late() && AllWellFormed(a)
    ensures Merged(a + rest, b, gen) == a + Merged(rest, b, gen)
    decreases |a|
  {
    if a == [] {
      assert a + rest == rest;
    } else {
      var x, a' := a[0], a[1..];
      assert a == [x] + a' && x.WellFormed();
      TakesAllOfFirst(a', rest, b, gen);
      TakesFirst(x, a' + rest, b, gen);
      ConsConcat(x, a', rest);
      ConsConcat(x, a', Merged(rest, b, gen));
    }
  }

  lemma {:induction false} LatesInRow(la: seq<Interval>, lb: seq<Interval>, gen: Gen)
    requires AllLate(la) && AllLate(lb)
    ensures Merged(la, lb, gen) == la + lb
    decreases |la|
  {
    if la == [] {
      assert la + lb == lb;
    } else if lb == [] {
      assert la + lb == la;
    } else {
      assert la[0].Late() && lb[0].Late();
      LatesInRow(la[1..], lb, gen);
      assert la + lb == [la[0]] + (la[1..] + lb);
    }
  }
}
