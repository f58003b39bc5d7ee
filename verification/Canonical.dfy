/** Canonical interval lists: what `Intervals.Normalize` has to reach, and why its result does
    not depend on the order of the input or on the sorting algorithm. */
module CanonicalForm {
  import opened Intervals

  ghost predicate SameCoverage(a: seq<Interval>, b: seq<Interval>) {
    forall t: nat :: Covered(a, t) <==> Covered(b, t)
  }

  lemma SameCoverageTrans(a: seq<Interval>, b: seq<Interval>, c: seq<Interval>)
    requires SameCoverage(a, b) && SameCoverage(b, c)
    ensures SameCoverage(a, c)
  {
  }

  predicate SameBounds(a: seq<Interval>, b: seq<Interval>) {
    |a| == |b| && forall i :: 0 <= i < |a| ==> a[i].beg == b[i].beg && a[i].end == b[i].end
  }

  predicate NonEmpty(s: seq<Interval>) {
    forall i :: 0 <= i < |s| ==> s[i].beg < s[i].end
  }

  lemma CoveredCons(x: Interval, s: seq<Interval>, t: nat)
    ensures Covered([x] + s, t) <==> x.Covers(t) || Covered(s, t)
  {
    if x.Covers(t) { assert ([x] + s)[0].Covers(t); }
    if Covered(s, t) {
      var i :| 0 <= i < |s| && s[i].Covers(t);
      assert ([x] + s)[i + 1].Covers(t);
    }
  }

  lemma CoveredConcat(a: seq<Interval>, b: seq<Interval>, t: nat)
    ensures Covered(a + b, t) <==> Covered(a, t) || Covered(b, t)
  {
    if Covered(a, t) {
      var i :| 0 <= i < |a| && a[i].Covers(t);
      assert (a + b)[i].Covers(t);
    }
    if Covered(b, t) {
      var i :| 0 <= i < |b| && b[i].Covers(t);
      assert (a + b)[|a| + i].Covers(t);
    }
  }

  /** Fusing two neighbours keeps the coverage when the result covers what the two covered. */
  lemma FuseCoverage(pre: seq<Interval>, x: Interval, y: Interval, z: Interval, post: seq<Interval>)
    requires forall t: nat :: z.Covers(t) <==> x.Covers(t) || y.Covers(t)
    ensures SameCoverage(pre + [x, y] + post, pre + [z] + post)
  {
    forall t: nat
      ensures Covered(pre + [x, y] + post, t) <==> Covered(pre + [z] + post, t)
    {
      CoveredConcat(pre + [x, y], post, t);
      CoveredConcat(pre + [z], post, t);
      CoveredConcat(pre, [x, y], t);
      CoveredConcat(pre, [z], t);
      assert [x, y] == [x] + [y];
      CoveredConcat([x], [y], t);
      assert [x][0] == x && [y][0] == y && [z][0] == z;
    }
  }

  /** A permutation covers the same seconds. */
  lemma PermutationCoverage(a: seq<Interval>, b: seq<Interval>)
    requires multiset(a) == multiset(b)
    ensures SameCoverage(a, b)
    ensures NonEmpty(a) ==> NonEmpty(b)
    ensures AllWellFormed(a) ==> AllWellFormed(b)
  {
    forall i | 0 <= i < |b| ensures b[i] in a {
      assert b[i] in multiset(b);
    }
    forall i | 0 <= i < |a| ensures a[i] in b {
      assert a[i] in multiset(a);
    }
  }

  /** The first second covered by a non-empty canonical list starts its first interval. */
  lemma FirstCovered(a: seq<Interval>, b: seq<Interval>)
    requires Canonical(a) && Canonical(b) && a != [] && b != [] && SameCoverage(a, b)
    ensures a[0].beg <= b[0].beg
  {
    assert b[0].Covers(b[0].beg);
    assert Covered(a, b[0].beg);
  }

  /** The first gap of a canonical list ends its first interval. */
  lemma FirstGap(a: seq<Interval>, b: seq<Interval>)
    requires Canonical(a) && Canonical(b) && a != [] && b != [] && SameCoverage(a, b)
    requires a[0].beg == b[0].beg
    ensures a[0].end >= b[0].end
  {
    if a[0].end < b[0].end {
      assert b[0].Covers(a[0].end);
      assert Covered(b, a[0].end);
    }
  }

  /** Canonical lists with the same coverage have the same bounds. */
  lemma {:induction false} CanonicalUnique(a: seq<Interval>, b: seq<Interval>)
    requires Canonical(a) && Canonical(b) && SameCoverage(a, b)
    ensures SameBounds(a, b)
  {
    if a == [] || b == [] {
      if a != [] { assert a[0].Covers(a[0].beg); assert Covered(a, a[0].beg); }
      if b != [] { assert b[0].Covers(b[0].beg); assert Covered(b, b[0].beg); }
    } else {
      FirstCovered(a, b);
      FirstCovered(b, a);
      FirstGap(a, b);
      FirstGap(b, a);
      forall t: nat
        ensures Covered(a[1..], t) <==> Covered(b[1..], t)
      {
        TailCoverage(a, t);
        TailCoverage(b, t);
      }
      CanonicalUnique(a[1..], b[1..]);
      assert forall i :: 0 < i < |a| ==> a[i] == a[1..][i - 1];
      assert forall i :: 0 < i < |b| ==> b[i] == b[1..][i - 1];
    }
  }

  lemma TailCoverage(a: seq<Interval>, t: nat)
    requires Canonical(a) && a != []
    ensures Covered(a[1..], t) <==> Covered(a, t) && !a[0].Covers(t)
  {
    assert a == [a[0]] + a[1..];
    CoveredCons(a[0], a[1..], t);
    if Covered(a[1..], t) {
      var i :| 0 <= i < |a[1..]| && a[1..][i].Covers(t);
      assert a[i + 1].Covers(t);
    }
  }

  // ----- Fusing neighbours -----

  /** One turn of the loop of Normalize: x meets the last of the intervals already dealt with. */
  function FuseOne(done: seq<Interval>, x: Interval): seq<Interval> {
    if done == [] then [x]
    else
      var last := |done| - 1;
      var w := done[last];
      if x.Overlap(w) then done[..last] + [if w.end < x.end then w.(end := x.end) else w]
      else if x.Contiguous(w) then done[..last] + [w.(end := x.end)]
      else done + [x]
  }

  function Fused(done: seq<Interval>, rest: seq<Interval>): seq<Interval>
    decreases |rest|
  {
    if rest == [] then done else Fused(FuseOne(done, rest[0]), rest[1..])
  }

  /** s is what Normalize makes of raw. */
  ghost predicate Normalized(raw: seq<Interval>, s: seq<Interval>) {
    exists p :: multiset(p) == multiset(raw) && SortedByBeg(p) && s == Fused([], p)
  }

  lemma {:induction false} FusedConcat(done: seq<Interval>, a: seq<Interval>, b: seq<Interval>)
    ensures Fused(done, a + b) == Fused(Fused(done, a), b)
    decreases |a|
  {
    if a == [] {
      assert a + b == b;
    } else {
      assert (a + b)[1..] == a[1..] + b;
      FusedConcat(FuseOne(done, a[0]), a[1..], b);
    }
  }

  /** What a turn keeps, of intervals that are not empty. */
  ghost predicate Fusing(done: seq<Interval>, rest: seq<Interval>) {
    NonEmpty(done + rest) && SortedByBeg(done + rest) && Canonical(done)
  }

  lemma FuseOneKeeps(done: seq<Interval>, x: Interval, rest: seq<Interval>)
    requires Fusing(done, [x] + rest)
    ensures Fusing(FuseOne(done, x), rest)
    ensures SameCoverage(FuseOne(done, x) + rest, done + ([x] + rest))
    ensures AllWellFormed(done) && x.WellFormed() ==> AllWellFormed(FuseOne(done, x))
  {
    var r := FuseOne(done, x);
    if done == [] {
      assert done + ([x] + rest) == [x] + rest;
      assert ([x] + rest)[0] == x;
    } else {
      var last := |done| - 1;
      var pre, w := done[..last], done[last];
      NeighboursInOrder(done, x, rest);
      if w.end < x.beg {
        AppendedCanonical(done, x);
        assert r + rest == done + ([x] + rest);
      } else {
        assert done == pre + [w] && r == pre + [r[last]];
        FuseTwo(pre, w, x, r[last], rest);
      }
    }
  }

  lemma NeighboursInOrder(done: seq<Interval>, x: Interval, rest: seq<Interval>)
    requires Fusing(done, [x] + rest) && done != []
    ensures done[|done| - 1].beg <= x.beg < x.end && done[|done| - 1].beg < done[|done| - 1].end
  {
    var all, last := done + ([x] + rest), |done| - 1;
    assert all[last] == done[last] && all[last + 1] == x;
  }

  lemma AppendedCanonical(done: seq<Interval>, x: Interval)
    requires Canonical(done) && done != [] && done[|done| - 1].end < x.beg < x.end
    ensures Canonical(done + [x])
  {
    var r := done + [x];
    forall i, j | 0 <= i < j < |r| ensures r[i].end < r[j].beg {
      if j == |done| && i < |done| - 1 { assert done[i].end < done[|done| - 1].beg; }
    }
  }

  lemma FuseTwo(pre: seq<Interval>, w: Interval, x: Interval, z: Interval, rest: seq<Interval>)
    requires Fusing(pre + [w], [x] + rest) && w.beg <= x.beg <= w.end && w.beg < w.end
    requires z.beg == w.beg && z.end == if w.end < x.end then x.end else w.end
    ensures Fusing(pre + [z], rest)
    ensures SameCoverage(pre + [z] + rest, pre + [w] + ([x] + rest))
  {
    FuseCoverage(pre, w, x, z, rest);
    ExtendedCanonical(pre, w, z);
    var before, after := pre + [w] + ([x] + rest), pre + [z] + rest;
    assert before == pre + [w, x] + rest;
    assert forall i :: 0 <= i < |after| ==> after[i].beg == before[if i <= |pre| then i else i + 1].beg;
    assert forall i :: 0 <= i < |after| && i != |pre| ==> after[i] == before[if i < |pre| then i else i + 1];
  }

  /** Extending the last interval of a canonical list keeps it canonical. */
  lemma ExtendedCanonical(pre: seq<Interval>, x: Interval, z: Interval)
    requires Canonical(pre + [x]) && z.beg == x.beg && z.beg < z.end
    ensures Canonical(pre + [z])
  {
    assert forall i :: 0 <= i < |pre| ==> (pre + [z])[i] == (pre + [x])[i];
    assert (pre + [x])[|pre|] == x;
  }

  /** Non-empty intervals become canonical, and cover the same seconds. */
  lemma {:induction false} FusedCanonical(done: seq<Interval>, rest: seq<Interval>)
    requires Fusing(done, rest)
    ensures Canonical(Fused(done, rest)) && SameCoverage(Fused(done, rest), done + rest)
    ensures AllWellFormed(done) && AllWellFormed(rest) ==> AllWellFormed(Fused(done, rest))
    ensures |Fused(done, rest)| <= |done| + |rest|
    decreases |rest|
  {
    if rest == [] {
      assert done + rest == done;
    } else {
      var r := FuseOne(done, rest[0]);
      assert rest == [rest[0]] + rest[1..];
      FuseOneKeeps(done, rest[0], rest[1..]);
      FusedCanonical(r, rest[1..]);
      SameCoverageTrans(Fused(done, rest), r + rest[1..], done + rest);
    }
  }

  /** What Normalize makes of non-empty intervals, in any order. */
  lemma NormalizedCanonical(raw: seq<Interval>, s: seq<Interval>)
    requires Normalized(raw, s) && NonEmpty(raw)
    ensures Canonical(s) && SameCoverage(s, raw)
    ensures AllWellFormed(raw) ==> AllWellFormed(s)
    ensures |s| <= |raw|
  {
    var p :| multiset(p) == multiset(raw) && SortedByBeg(p) && s == Fused([], p);
    SortedCanonical(raw, p);
  }

  lemma SortedCanonical(raw: seq<Interval>, p: seq<Interval>)
    requires multiset(p) == multiset(raw) && SortedByBeg(p) && NonEmpty(raw)
    ensures Canonical(Fused([], p)) && SameCoverage(Fused([], p), raw)
    ensures AllWellFormed(raw) ==> AllWellFormed(Fused([], p))
    ensures |Fused([], p)| <= |raw|
  {
    PermutationCoverage(raw, p);
    assert [] + p == p;
    FusedCanonical([], p);
    SameCoverageTrans(Fused([], p), p, raw);
    assert |multiset(p)| == |p| && |multiset(raw)| == |raw|;
  }

  /** A sorted list stays sorted when x goes after every interval that does not start later. */
  function Inserted(s: seq<Interval>, x: Interval): seq<Interval> {
    if s == [] || x.beg < s[0].beg then [x] + s else [s[0]] + Inserted(s[1..], x)
  }

  lemma {:induction false} InsertedSorted(s: seq<Interval>, x: Interval)
    requires SortedByBeg(s)
    ensures SortedByBeg(Inserted(s, x)) && multiset(Inserted(s, x)) == multiset(s) + multiset{x}
    ensures Inserted(s, x) != [] && (Inserted(s, x)[0] == x || (s != [] && Inserted(s, x)[0] == s[0]))
  {
    if s == [] || x.beg < s[0].beg {
      assert multiset([x] + s) == multiset{x} + multiset(s);
    } else {
      InsertedSorted(s[1..], x);
      assert s == [s[0]] + s[1..];
      HeadStays(s[0], s[1..], x, Inserted(s[1..], x));
    }
  }

  lemma HeadStays(h: Interval, t: seq<Interval>, x: Interval, r: seq<Interval>)
    requires SortedByBeg([h] + t) && h.beg <= x.beg && SortedByBeg(r) && r != []
    requires multiset(r) == multiset(t) + multiset{x} && (r[0] == x || (t != [] && r[0] == t[0]))
    ensures SortedByBeg([h] + r) && multiset([h] + r) == multiset([h] + t) + multiset{x}
  {
    if t != [] { assert ([h] + t)[0] == h && ([h] + t)[1] == t[0]; }
    forall k | 0 <= k < |r| ensures h.beg <= r[k].beg {
      assert k > 0 ==> r[0].beg <= r[k].beg;
    }
    assert forall i :: 0 < i < |[h] + r| ==> ([h] + r)[i] == r[i - 1];
  }
}
