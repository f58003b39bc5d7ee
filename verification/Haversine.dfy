/** The travelling salesman benchmark of haversine.go: Heap's algorithm on the intermediate cities,
    with a callback that keeps the shortest journey. */
module Haversine {
  import opened Permutations
  import opened Sequences

  type Distance = (int, int) -> real

  function Length(dist: Distance, tour: seq<int>): real {
    if |tour| <= 1 then 0.0
    else Length(dist, tour[..|tour| - 1]) + dist(tour[|tour| - 2], tour[|tour| - 1])
  }

  lemma LengthOfOne(dist: Distance, x: int)
    ensures Length(dist, [x]) == 0.0
  {
  }

  lemma LengthOfTwo(dist: Distance, x: int, y: int)
    ensures Length(dist, [x, y]) == dist(x, y)
  {
    assert [x, y][..1] == [x];
    LengthOfOne(dist, x);
  }

  /** The lengths of two journeys add up where one goes on from the end of the other. */
  lemma {:induction false} LengthConcat(dist: Distance, p: seq<int>, x: int, q: seq<int>)
    ensures Length(dist, p + [x] + q) == Length(dist, p + [x]) + Length(dist, [x] + q)
    decreases |q|
  {
    if q == [] {
      assert p + [x] + q == p + [x] && [x] + q == [x];
      LengthOfOne(dist, x);
    } else {
      var last := |q| - 1;
      var all, end := p + [x] + q, [x] + q;
      assert all[..|all| - 1] == p + [x] + q[..last] && end[..|end| - 1] == [x] + q[..last];
      LengthConcat(dist, p, x, q[..last]);
      assert all[|all| - 2] == end[|end| - 2] && all[|all| - 1] == end[|end| - 1];
    }
  }

  /** The length is any quantity that grows by the distance of each leg. */
  lemma {:induction false} LengthIsSum(dist: Distance, tour: seq<int>, n: nat, f: nat -> real)
    requires 1 <= n <= |tour| && f(0) == 0.0
    requires forall i: nat :: i + 1 < n ==> f(i + 1) == f(i) + dist(tour[i], tour[i + 1])
    ensures Length(dist, tour[..n]) == f(n - 1)
  {
    if n > 1 {
      LengthIsSum(dist, tour, n - 1, f);
      assert tour[..n][..n - 1] == tour[..n - 1];
    } else {
      assert tour[..1] == [tour[0]];
    }
  }

  function Identity(n: nat): (s: seq<int>)
    ensures |s| == n
  {
    seq(n, i => i)
  }

  function Zeros(n: nat): (s: seq<int>)
    ensures |s| == n
  {
    seq(n, i => 0)
  }

  /** A journey through all n cities from the first to the last. */
  ghost predicate Tour(n: nat, p: seq<int>) {
    |p| == n >= 2 && p[0] == 0 && p[n - 1] == n - 1 && multiset(p) == multiset(Identity(n))
  }

  lemma {:induction false} IdentityCounts(n: nat, c: int)
    ensures multiset(Identity(n))[c] == if 0 <= c < n then 1 else 0
  {
    if n == 0 {
      assert Identity(0) == [];
    } else {
      IdentityCounts(n - 1, c);
      assert Identity(n) == Identity(n - 1) + [n - 1];
    }
  }

  /** A journey visits every city exactly once, and nothing else. */
  lemma TourVisitsEachOnce(n: nat, p: seq<int>)
    ensures Tour(n, p) <==>
            && |p| == n >= 2 && p[0] == 0 && p[n - 1] == n - 1
            && forall c :: multiset(p)[c] == if 0 <= c < n then 1 else 0
  {
    forall c ensures multiset(Identity(n))[c] == if 0 <= c < n then 1 else 0 {
      IdentityCounts(n, c);
    }
  }

  /** Journeys with the same beginning. */
  ghost function Prepend(pre: seq<int>, out: seq<seq<int>>): (r: seq<seq<int>>)
    ensures |r| == |out|
  {
    seq(|out|, i requires 0 <= i < |out| => pre + out[i])
  }

  /** What the callback remembers. */
  datatype Best = Best(best: real, journey: seq<int>)

  function Better(dist: Distance, b: Best, tour: seq<int>): Best {
    if Length(dist, tour) < b.best then Best(Length(dist, tour), tour) else b
  }

  function Keep(dist: Distance, b: Best, tours: seq<seq<int>>): Best {
    if tours == [] then b
    else Better(dist, Keep(dist, b, tours[..|tours| - 1]), tours[|tours| - 1])
  }

  /** The i-th journey is the remembered one, and those before it are longer. */
  ghost predicate FirstAt(dist: Distance, tours: seq<seq<int>>, b: Best, i: nat) {
    i < |tours| && tours[i] == b.journey && forall j :: 0 <= j < i ==> b.best < Length(dist, tours[j])
  }

  ghost predicate NoneShorter(dist: Distance, tours: seq<seq<int>>, l: real) {
    forall j :: 0 <= j < |tours| ==> l <= Length(dist, tours[j])
  }

  /** The callback ends up with the first of the shortest journeys, if any is shorter than the initial value. */
  ghost predicate FirstShortest(dist: Distance, tours: seq<seq<int>>, init: Best, b: Best) {
    && NoneShorter(dist, tours, b.best)
    && if b.best == init.best then b == init
       else b.best < init.best && b.best == Length(dist, b.journey) && exists i: nat :: FirstAt(dist, tours, b, i)
  }

  lemma ShorterIsFirst(dist: Distance, s: seq<seq<int>>, l: real, tour: seq<int>)
    requires NoneShorter(dist, s, l) && Length(dist, tour) < l
    ensures FirstAt(dist, s + [tour], Best(Length(dist, tour), tour), |s|)
    ensures NoneShorter(dist, s + [tour], Length(dist, tour))
  {
  }

  lemma NotShorterKeeps(dist: Distance, s: seq<seq<int>>, b: Best, tour: seq<int>)
    requires NoneShorter(dist, s, b.best) && b.best <= Length(dist, tour)
    ensures NoneShorter(dist, s + [tour], b.best)
    ensures forall i: nat :: FirstAt(dist, s, b, i) ==> FirstAt(dist, s + [tour], b, i)
  {
  }

  lemma {:induction false} KeepIsFirstShortest(dist: Distance, init: Best, tours: seq<seq<int>>)
    ensures FirstShortest(dist, tours, init, Keep(dist, init, tours))
  {
    if tours != [] {
      var n := |tours| - 1;
      var s, b := tours[..n], Keep(dist, init, tours[..n]);
      KeepIsFirstShortest(dist, init, s);
      assert tours == s + [tours[n]];
      if Length(dist, tours[n]) < b.best {
        ShorterIsFirst(dist, s, b.best, tours[n]);
      } else {
        NotShorterKeeps(dist, s, b, tours[n]);
      }
    }
  }

  /** One inner call after the others: what has been shown. */
  lemma RoundAdds(before: seq<seq<int>>, pre: seq<int>, k: nat, n: nat, a: seq<int>)
    requires 2 <= k <= |a| && n < k
    ensures before + Prepend(pre, Rounds(k, n, a)) + Prepend(pre, Trace(k - 1, RoundStart(k, n, a)))
            == before + Prepend(pre, Rounds(k, n + 1, a))
  {
    var s, t := Rounds(k, n, a), Trace(k - 1, RoundStart(k, n, a));
    assert Prepend(pre, s + t) == Prepend(pre, s) + Prepend(pre, t);
  }

  lemma FirstRoundAdds(pre: seq<int>, k: nat, a: seq<int>)
    requires 2 <= k <= |a|
    ensures Prepend(pre, Trace(k - 1, a)) == Prepend(pre, Rounds(k, 1, a))
  {
    assert Rounds(k, 0, a) == [];
    assert Rounds(k, 1, a) == [] + Trace(k - 1, a) == Trace(k - 1, a);
  }

  lemma IdentityDistinct(n: nat)
    requires n >= 3
    ensures Distinct(n - 2, Identity(n)[1..])
  {
    var s := Identity(n)[1..][..n - 2];
    assert NoRepeat(s);
    forall x ensures AtMostOnce(multiset(s), x) {
      NoRepeatAtMostOnce(s, x);
    }
  }

  /** With the same ends, two journeys visit the same cities if their middles do. */
  lemma MiddleMultiset(first: int, m: seq<int>, m': seq<int>, last: int)
    ensures multiset([first] + m + [last]) == multiset([first] + m' + [last]) <==> multiset(m) == multiset(m')
  {
    var ends := multiset{first, last};
    assert multiset([first] + m + [last]) == multiset(m) + ends;
    assert multiset([first] + m' + [last]) == multiset(m') + ends;
    assert multiset(m) == multiset(m) + ends - ends && multiset(m') == multiset(m') + ends - ends;
  }

  /** Rearranging the cities between the first and the last gives exactly the journeys. */
  lemma TourIsArrangement(n: nat, q: seq<int>)
    requires n >= 3
    ensures Tour(n, [0] + q) <==> Arrangement(n - 2, Identity(n)[1..], q)
  {
    var id := Identity(n);
    var a := id[1..];
    assert id == [0] + a[..n - 2] + [n - 1];
    assert a[n - 2..] == [n - 1];
    if |q| == n - 1 {
      assert q[n - 2..] == [q[n - 2]];
      assert ([0] + q)[n - 1] == q[n - 2];
      if q[n - 2] == n - 1 {
        assert [0] + q == [0] + q[..n - 2] + [n - 1];
        MiddleMultiset(0, q[..n - 2], a[..n - 2], n - 1);
      }
    }
  }

  lemma InPrepend(out: seq<seq<int>>, p: seq<int>)
    ensures p in Prepend([0], out) <==> p != [] && p[0] == 0 && p[1..] in out
  {
    var s := Prepend([0], out);
    if p in s {
      var i :| 0 <= i < |s| && s[i] == p;
      assert p[1..] == out[i];
    }
    if p != [] && p[0] == 0 && p[1..] in out {
      var i :| 0 <= i < |out| && out[i] == p[1..];
      assert s[i] == p;
    }
  }

  /** Heap's algorithm on the cities between the first and the last shows exactly the journeys. */
  lemma ToursShown(n: nat, shown: seq<seq<int>>)
    requires n >= 3
    requires shown == Prepend([0], Trace(n - 2, Identity(n)[1..]))
    ensures forall p :: p in shown <==> Tour(n, p)
    ensures |shown| == Factorial(n - 2) && NoRepeat(shown)
  {
    var out := Trace(n - 2, Identity(n)[1..]);
    IdentityDistinct(n);
    TraceShows(n - 2, Identity(n)[1..]);
    forall p ensures p in shown <==> Tour(n, p) {
      InPrepend(out, p);
      if p != [] && p[0] == 0 {
        assert p == [0] + p[1..];
        TourIsArrangement(n, p[1..]);
      }
    }
    forall i, j | 0 <= i < j < |shown| ensures shown[i] != shown[j] {
      assert shown[i][1..] == out[i] && shown[j][1..] == out[j];
    }
  }

  class BenchHaversine {
    const dist: Distance
    /** The initial value of best, the largest number there is. */
    const max: real
    const idx: array<int>
    const journey: array<int>
    var best: real
    /** The journeys the callback has seen. */
    ghost var shown: seq<seq<int>>

    constructor (dist: Distance, max: real, n: nat)
      ensures this.dist == dist && this.max == max && Valid()
      ensures idx.Length == n && fresh(idx) && fresh(journey)
    {
      this.dist := dist;
      this.max := max;
      idx := new int[n];
      journey := new int[n];
      best := max;
      shown := [];
    }

    ghost predicate Valid() {
      idx.Length == journey.Length && idx != journey
    }

    function Kept(): Best
      reads this, journey
    {
      Best(best, journey[..])
    }

    /** The callback has dealt with all the journeys shown since the beginning of Run. */
    ghost predicate Tracking()
      reads this, journey
    {
      Kept() == Keep(dist, Best(max, Zeros(journey.Length)), shown)
    }

    /** Finds the shortest journey; with fewer than three cities the source never ends or panics. */
    method Run()
      requires Valid() && idx.Length >= 3
      modifies this, idx, journey
      ensures forall p :: p in shown <==> Tour(idx.Length, p)
      ensures |shown| == Factorial(idx.Length - 2) && NoRepeat(shown)
      ensures FirstShortest(dist, shown, Best(max, Zeros(journey.Length)), Kept())
    {
      best := max;
      shown := [];
      for i := 0 to idx.Length
        invariant best == max && shown == []
        invariant forall k :: 0 <= k < i ==> idx[k] == k && journey[k] == 0
      {
        idx[i] := i;
        journey[i] := 0;
      }
      ghost var middle := Identity(idx.Length)[1..];
      assert idx[..] == [0] + middle;
      assert journey[..] == Zeros(journey.Length);
      Heap(idx.Length - 2, 1, [0], middle);
      ToursShown(idx.Length, shown);
      KeepIsFirstShortest(dist, Best(max, Zeros(journey.Length)), shown);
    }

    /** Heap's algorithm on the first k elements of the slice a of idx, which follows pre. */
    method Heap(k: nat, lo: nat, ghost pre: seq<int>, ghost a: seq<int>)
      requires Valid() && Tracking() && idx[..] == pre + a && lo == |pre| && 1 <= k <= |a|
      modifies idx, journey, this`best, this`shown
      ensures idx[..] == pre + After(k, a)
      ensures shown == old(shown) + Prepend(pre, Trace(k, a))
      ensures Tracking()
      decreases k, 1
    {
      if k == 1 {
        Yield();
        assert Prepend(pre, [a]) == [pre + a];
        return;
      }
      HeapRounds(k, lo, pre, a);
    }

    /** The calls of Heap beyond the base case: with the k-th element unaltered, then swapped with others. */
    method HeapRounds(k: nat, lo: nat, ghost pre: seq<int>, ghost a: seq<int>)
      requires Valid() && Tracking() && idx[..] == pre + a && lo == |pre| && 2 <= k <= |a|
      modifies idx, journey, this`best, this`shown
      ensures idx[..] == pre + After(k, a)
      ensures shown == old(shown) + Prepend(pre, Rounds(k, k, a))
      ensures Tracking()
      decreases k, 0, 2
    {
      FirstRoundAdds(pre, k, a);
      Heap(k - 1, lo, pre, a);
      LaterRounds(k, lo, pre, a, old(shown));
    }

    /** The loop of Heap, after the first inner call. */
    method LaterRounds(k: nat, lo: nat, ghost pre: seq<int>, ghost a: seq<int>, ghost before: seq<seq<int>>)
      requires Valid() && Tracking() && lo == |pre| && 2 <= k <= |a|
      requires idx[..] == pre + AfterRound(k, 0, a) && shown == before + Prepend(pre, Rounds(k, 1, a))
      modifies idx, journey, this`best, this`shown
      ensures idx[..] == pre + After(k, a)
      ensures shown == before + Prepend(pre, Rounds(k, k, a))
      ensures Tracking()
      decreases k, 0, 1
    {
      for i := 0 to k - 1
        invariant idx[..] == pre + AfterRound(k, i, a)
        invariant shown == before + Prepend(pre, Rounds(k, i + 1, a))
        invariant Tracking()
      {
        RoundAdds(before, pre, k, i + 1, a);
        Round(k, i, lo, pre, AfterRound(k, i, a));
      }
    }

    /** One round of the loop of Heap: a swap and an inner call. */
    method Round(k: nat, i: nat, lo: nat, ghost pre: seq<int>, ghost a: seq<int>)
      requires Valid() && Tracking() && idx[..] == pre + a && lo == |pre| && 2 <= k <= |a| && i < k - 1
      modifies idx, journey, this`best, this`shown
      ensures idx[..] == pre + After(k - 1, Swap(a, SwapPosition(k, i), k - 1))
      ensures shown == old(shown) + Prepend(pre, Trace(k - 1, Swap(a, SwapPosition(k, i), k - 1)))
      ensures Tracking()
      decreases k, 0, 0
    {
      if k % 2 == 0 {
        Exchange(lo, i, k - 1, pre, a);
      } else {
        Exchange(lo, 0, k - 1, pre, a);
      }
      Heap(k - 1, lo, pre, Swap(a, SwapPosition(k, i), k - 1));
    }

    /** Exchanges two elements of the slice a of idx, which follows pre. */
    method Exchange(lo: nat, i: nat, j: nat, ghost pre: seq<int>, ghost a: seq<int>)
      requires idx[..] == pre + a && lo == |pre| && i < |a| && j < |a|
      modifies idx
      ensures idx[..] == pre + Swap(a, i, j)
    {
      idx[lo + i], idx[lo + j] := idx[lo + j], idx[lo + i];
    }

    /** Sums up the distances between consecutive cities. */
    method JourneyLength() returns (sum: real)
      requires idx.Length >= 1
      ensures sum == Length(dist, idx[..])
    {
      sum := 0.0;
      for i := 0 to idx.Length - 1
        invariant sum == Length(dist, idx[..i + 1])
      {
        sum := sum + dist(idx[i], idx[i + 1]);
        assert idx[..i + 2][..i + 1] == idx[..i + 1];
      }
      assert idx[..] == idx[..idx.Length];
    }

    /** Called for each permutation: keeps the best journey. */
    method Yield()
      requires Valid() && Tracking() && idx.Length >= 1
      modifies journey, this`best, this`shown
      ensures shown == old(shown) + [idx[..]]
      ensures Tracking()
    {
      ghost var tour := idx[..];
      var sum := JourneyLength();
      shown := shown + [tour];
      assert shown[..|shown| - 1] == old(shown);
      if sum < best {
        best := sum;
        forall i | 0 <= i < idx.Length {
          journey[i] := idx[i];
        }
        assert journey[..] == idx[..] == tour;
      }
    }
  }

  /** When some journey is shorter than the initial value of best, the kept journey is one, and no
      journey is shorter; otherwise none is kept. */
  lemma KeptIsOptimal(dist: Distance, n: nat, shown: seq<seq<int>>, max: real, b: Best)
    requires forall p :: p in shown <==> Tour(n, p)
    requires FirstShortest(dist, shown, Best(max, Zeros(n)), b)
    ensures if exists p :: Tour(n, p) && Length(dist, p) < max then
              && Tour(n, b.journey) && b.best == Length(dist, b.journey)
              && forall p :: Tour(n, p) ==> b.best <= Length(dist, p)
            else
              b == Best(max, Zeros(n))
  {
    forall p | Tour(n, p) ensures b.best <= Length(dist, p) {
      assert p in shown;
    }
    if b.best != max {
      var i: nat :| FirstAt(dist, shown, b, i);
      assert b.journey in shown;
    }
  }
}
