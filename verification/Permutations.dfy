/** Heap's algorithm on sequences: where each element ends up, and which arrangements are shown. */
module Permutations {
  import opened Sequences

  function Swap(a: seq<int>, i: nat, j: nat): (r: seq<int>)
    requires i < |a| && j < |a|
  {
    a[i := a[j]][j := a[i]]
  }

  // ----- Heap's algorithm -----

  /** The swap before the inner call of round r > 0: its first position depends on the parity of k. */
  function SwapPosition(k: nat, r: nat): nat {
    if k % 2 == 0 then r else 0
  }

  /** What heap(k) leaves of a. */
  function After(k: nat, a: seq<int>): (s: seq<int>)
    requires 1 <= k <= |a|
    ensures |s| == |a|
    decreases k, k + 1
  {
    if k == 1 then a else AfterRound(k, k - 1, a)
  }

  /** What is there after the inner call of round r. */
  function AfterRound(k: nat, r: nat, a: seq<int>): (s: seq<int>)
    requires 2 <= k <= |a| && r < k
    ensures |s| == |a|
    decreases k, r, 1
  {
    After(k - 1, RoundStart(k, r, a))
  }

  /** What the inner call of round r finds: in round 0 the elements as they are, later a swap first. */
  function RoundStart(k: nat, r: nat, a: seq<int>): (s: seq<int>)
    requires 2 <= k <= |a| && r < k
    ensures |s| == |a|
    decreases k, r, 0
  {
    if r == 0 then a else Swap(AfterRound(k, r - 1, a), SwapPosition(k, r - 1), k - 1)
  }

  // ----- The net effect of a call, in closed form -----

  /** Where the element at position x comes from after heap(k): for odd k and k = 2 the first and the
      k-th element change places; for even k >= 4 the new order is k-3, k-2, 1, ..., k-4, k-1, 0. */
  function NetSource(k: nat, x: nat): (y: nat)
    requires 1 <= k && x < k
    ensures y < k
  {
    if k % 2 == 1 || k == 2 then
      if x == 0 then k - 1 else if x == k - 1 then 0 else x
    else if x == 0 then k - 3
    else if x == 1 then k - 2
    else if x == k - 2 then k - 1
    else if x == k - 1 then 0
    else x - 1
  }

  function Net(k: nat, a: seq<int>): (r: seq<int>)
    requires 1 <= k <= |a|
    ensures |r| == |a|
  {
    seq(|a|, x requires 0 <= x < |a| => if x < k then a[NetSource(k, x)] else a[x])
  }

  // ----- The state between the inner calls, in closed form -----

  /** For odd k, a swap of the ends followed by an inner call rotates the positions along this cycle. */
  function Cycle(k: nat, j: nat): (x: nat)
    requires k % 2 == 1 && k >= 3 && j < k
    ensures x < k
  {
    if j == 0 then k - 1
    else if j == 1 then 0
    else if j == k - 1 then k - 2
    else if j == k - 2 then k - 3
    else k - 2 - j
  }

  function CycleIndex(k: nat, x: nat): (j: nat)
    requires k % 2 == 1 && k >= 3 && x < k
    ensures j < k && Cycle(k, j) == x
  {
    if x == k - 1 then 0
    else if x == 0 then 1
    else if x == k - 2 then k - 1
    else if x == k - 3 then k - 2
    else k - 2 - x
  }

  function EndsSwapped(k: nat, x: nat): (y: nat)
    requires k >= 2 && x < k
    ensures y < k
  {
    if x == 0 then k - 1 else if x == k - 1 then 0 else x
  }

  /** For odd k: where position x gets its element from, after r rounds of the loop. */
  function OddSource(k: nat, r: nat, x: nat): (y: nat)
    requires k % 2 == 1 && k >= 3 && r < k && x < k
    ensures y < k
  {
    var j := CycleIndex(k, x) + r + 1;
    EndsSwapped(k, Cycle(k, if j < k then j else j - k))
  }

  /** For even k: where position x gets its element from, after r rounds of the loop. */
  function EvenSource(k: nat, r: nat, x: nat): (y: nat)
    requires k % 2 == 0 && k >= 2 && r < k && x < k
    ensures y < k
  {
    if r == k - 1 then NetSource(k, x)
    else if x == k - 1 then if r == 0 then k - 1 else if r == 1 then k - 2 else r - 1
    else if r == 0 then if x == 0 then k - 2 else if x == k - 2 then 0 else x
    else if x == 0 then if r % 2 == 1 then 0 else k - 1
    else if x == k - 2 then if r % 2 == 1 then k - 1 else 0
    else if x >= r then x
    else if x == 1 then k - 2
    else x - 1
  }

  function LoopSource(k: nat, r: nat, x: nat): (y: nat)
    requires 2 <= k && r < k && x < k
    ensures y < k
  {
    if k % 2 == 0 then EvenSource(k, r, x) else OddSource(k, r, x)
  }

  /** The first k elements after r rounds of the loop of heap(k), that is after r + 1 inner calls. */
  function LoopState(k: nat, r: nat, a: seq<int>): (s: seq<int>)
    requires 2 <= k <= |a| && r < k
    ensures |s| == |a|
  {
    seq(|a|, x requires 0 <= x < |a| => if x < k then a[LoopSource(k, r, x)] else a[x])
  }

  lemma LoopStarts(k: nat, a: seq<int>)
    requires 2 <= k <= |a|
    ensures LoopState(k, 0, a) == Net(k - 1, a)
  {
  }

  lemma LoopEnds(k: nat, a: seq<int>)
    requires 2 <= k <= |a|
    ensures LoopState(k, k - 1, a) == Net(k, a)
  {
  }

  function Transposed(i: nat, j: nat, x: nat): nat {
    if x == i then j else if x == j then i else x
  }

  function InnerSource(k: nat, x: nat): (y: nat)
    requires 2 <= k && x < k
    ensures y < k
  {
    if x < k - 1 then NetSource(k - 1, x) else x
  }

  lemma EvenTurns(k: nat, r: nat, x: nat)
    requires k % 2 == 0 && 2 <= k && r < k - 1 && x < k
    ensures EvenSource(k, r + 1, x) == EvenSource(k, r, Transposed(r, k - 1, InnerSource(k, x)))
  {
  }

  lemma OddTurns(k: nat, r: nat, x: nat)
    requires k % 2 == 1 && 3 <= k && r < k - 1 && x < k
    ensures OddSource(k, r + 1, x) == OddSource(k, r, Transposed(0, k - 1, InnerSource(k, x)))
  {
    var y := Transposed(0, k - 1, InnerSource(k, x));
    var j := CycleIndex(k, x);
    assert y == Cycle(k, if j == k - 1 then 0 else j + 1);
  }

  lemma LoopTurns(k: nat, r: nat, a: seq<int>)
    requires 2 <= k <= |a| && r < k - 1
    ensures LoopState(k, r + 1, a) == Net(k - 1, Swap(LoopState(k, r, a), SwapPosition(k, r), k - 1))
  {
    var s := LoopState(k, r, a);
    var t := Net(k - 1, Swap(s, SwapPosition(k, r), k - 1));
    forall x | 0 <= x < |a|
      ensures LoopState(k, r + 1, a)[x] == t[x]
    {
      if x < k {
        assert t[x] == s[Transposed(SwapPosition(k, r), k - 1, InnerSource(k, x))];
        if k % 2 == 0 { EvenTurns(k, r, x); } else { OddTurns(k, r, x); }
      }
    }
  }

  /** The net effect of heap(k). */
  lemma {:induction false} NetClosedForm(k: nat, a: seq<int>)
    requires 1 <= k <= |a|
    ensures After(k, a) == Net(k, a)
    decreases k, k + 1
  {
    if k == 1 {
      assert Net(1, a) == a;
    } else {
      RoundClosedForm(k, k - 1, a);
      LoopEnds(k, a);
    }
  }

  lemma {:induction false} RoundClosedForm(k: nat, r: nat, a: seq<int>)
    requires 2 <= k <= |a| && r < k
    ensures AfterRound(k, r, a) == LoopState(k, r, a)
    decreases k, r
  {
    NetClosedForm(k - 1, RoundStart(k, r, a));
    if r == 0 {
      LoopStarts(k, a);
    } else {
      RoundClosedForm(k, r - 1, a);
      LoopTurns(k, r - 1, a);
    }
  }

  // ----- Every element is last in exactly one round -----

  /** The element (by its original position) that is in place k-1 during the inner call of round r. */
  function LastSource(k: nat, r: nat): (y: nat)
    requires 2 <= k && r < k
    ensures y < k
  {
    LoopSource(k, r, k - 1)
  }

  function LastRound(k: nat, y: nat): (r: nat)
    requires 2 <= k && y < k
    ensures r < k
  {
    if y == k - 1 then 0
    else if y == 0 then k - 1
    else if k % 2 == 0 then if y == k - 2 then 1 else y + 1
    else if y == k - 2 then k - 2
    else if y == k - 3 then k - 3
    else k - 3 - y
  }

  lemma LastIsOnce(k: nat)
    requires 2 <= k
    ensures forall y: nat :: y < k ==> LastSource(k, LastRound(k, y)) == y
    ensures forall r: nat :: r < k ==> LastRound(k, LastSource(k, r)) == r
  {
  }

  // ----- Showing every arrangement exactly once -----

  function Factorial(n: nat): (f: nat)
    ensures f >= 1
  {
    if n == 0 then 1 else n * Factorial(n - 1)
  }

  /** p rearranges the first k elements of a and leaves the others alone. */
  ghost predicate Arrangement(k: nat, a: seq<int>, p: seq<int>)
    requires k <= |a|
  {
    |p| == |a| && p[k..] == a[k..] && multiset(p[..k]) == multiset(a[..k])
  }

  ghost predicate Distinct(k: nat, a: seq<int>)
    requires k <= |a|
  {
    forall x :: AtMostOnce(multiset(a[..k]), x)
  }

  predicate AtMostOnce(m: multiset<int>, x: int) {
    m[x] <= 1
  }

  /** out lists every arrangement of the first k elements of a, each exactly once. */
  ghost predicate Shows(k: nat, a: seq<int>, out: seq<seq<int>>)
    requires k <= |a|
  {
    && |out| == Factorial(k) && NoRepeat(out)
    && forall p :: p in out <==> Arrangement(k, a, p)
  }

  /** p has, in place k-1, the element that is last in one of the first n rounds. */
  ghost predicate LastAmong(k: nat, a: seq<int>, n: nat, p: seq<int>)
    requires 2 <= k <= |a| && n <= k && |p| == |a|
  {
    exists r: nat :: r < n && p[k - 1] == a[LastSource(k, r)]
  }

  /** The same for the arrangements shown in the first n rounds. */
  ghost predicate ShowsFirst(k: nat, a: seq<int>, n: nat, out: seq<seq<int>>)
    requires 2 <= k <= |a| && n <= k
  {
    && |out| == n * Factorial(k - 1) && NoRepeat(out)
    && forall p :: p in out <==> Arrangement(k, a, p) && LastAmong(k, a, n, p)
  }

  lemma SuffixSplit(k: nat, s: seq<int>, p: seq<int>)
    requires 1 <= k <= |s| == |p|
    ensures p[k - 1..] == s[k - 1..] <==> p[k - 1] == s[k - 1] && p[k..] == s[k..]
  {
    assert p[k - 1..] == [p[k - 1]] + p[k..] && s[k - 1..] == [s[k - 1]] + s[k..];
    assert p[k..] == p[k - 1..][1..] && s[k..] == s[k - 1..][1..];
  }

  lemma PrefixSplit(k: nat, s: seq<int>, p: seq<int>)
    requires 1 <= k <= |s| == |p| && p[k - 1] == s[k - 1]
    ensures multiset(p[..k]) == multiset(s[..k]) <==> multiset(p[..k - 1]) == multiset(s[..k - 1])
  {
    var last := multiset{p[k - 1]};
    assert p[..k] == p[..k - 1] + [p[k - 1]] && s[..k] == s[..k - 1] + [s[k - 1]];
    assert multiset(p[..k - 1]) == multiset(p[..k]) - last && multiset(s[..k - 1]) == multiset(s[..k]) - last;
  }

  lemma ArrangementSplit(k: nat, s: seq<int>, p: seq<int>)
    requires 1 <= k <= |s|
    ensures Arrangement(k - 1, s, p) <==> Arrangement(k, s, p) && p[k - 1] == s[k - 1]
  {
    if |p| == |s| {
      SuffixSplit(k, s, p);
      if p[k - 1] == s[k - 1] {
        PrefixSplit(k, s, p);
      }
    }
  }

  lemma ArrangementTrans(k: nat, a: seq<int>, s: seq<int>, p: seq<int>)
    requires k <= |a| && Arrangement(k, a, s)
    ensures Arrangement(k, s, p) <==> Arrangement(k, a, p)
  {
  }

  lemma DistinctPositions(k: nat, a: seq<int>, i: nat, j: nat)
    requires k <= |a| && Distinct(k, a) && i < j < k
    ensures a[i] != a[j]
  {
    assert a[..k] == a[..i] + [a[i]] + a[i + 1..j] + [a[j]] + a[j + 1..k];
    assert AtMostOnce(multiset(a[..k]), a[i]);
  }

  lemma DistinctInner(k: nat, a: seq<int>, s: seq<int>)
    requires 1 <= k <= |a| && Distinct(k, a) && Arrangement(k, a, s)
    ensures Distinct(k - 1, s)
  {
    assert s[..k] == s[..k - 1] + [s[k - 1]];
    var m := multiset(s[..k - 1]);
    forall x ensures AtMostOnce(m, x) {
      assert AtMostOnce(multiset(a[..k]), x);
    }
  }

  /** A round shows the arrangements that have its own element last, and no other. */
  lemma RoundShows(k: nat, a: seq<int>, n: nat, out: seq<seq<int>>, s: seq<int>, more: seq<seq<int>>)
    requires 2 <= k <= |a| && n < k && Distinct(k, a) && ShowsFirst(k, a, n, out)
    requires Arrangement(k, a, s) && s[k - 1] == a[LastSource(k, n)] && Shows(k - 1, s, more)
    ensures ShowsFirst(k, a, n + 1, out + more)
  {
    assert n * Factorial(k - 1) + Factorial(k - 1) == (n + 1) * Factorial(k - 1);
    forall p
      ensures p in more <==> Arrangement(k, a, p) && p[k - 1] == a[LastSource(k, n)]
    {
      ArrangementSplit(k, s, p);
      ArrangementTrans(k, a, s, p);
    }
    forall p | p in out
      ensures p !in more
    {
      var r: nat :| r < n && p[k - 1] == a[LastSource(k, r)];
      LastIsOnce(k);
      var y, z := LastSource(k, r), LastSource(k, n);
      assert y != z;
      DistinctPositions(k, a, if y < z then y else z, if y < z then z else y);
    }
    NoRepeatConcat(out, more);
    forall p
      ensures p in out + more <==> Arrangement(k, a, p) && LastAmong(k, a, n + 1, p)
    {
    }
  }

  /** After k rounds every element has been last, so every arrangement has been shown. */
  lemma AllRoundsShow(k: nat, a: seq<int>, out: seq<seq<int>>)
    requires 2 <= k <= |a| && ShowsFirst(k, a, k, out)
    ensures Shows(k, a, out)
  {
    forall p | Arrangement(k, a, p)
      ensures LastAmong(k, a, k, p)
    {
      assert p[k - 1] in p[..k];
      assert p[k - 1] in multiset(p[..k]);
      assert p[k - 1] in a[..k];
      var y: nat :| y < k && a[..k][y] == p[k - 1];
      LastIsOnce(k);
      assert LastSource(k, LastRound(k, y)) == y;
    }
  }

  lemma SingleShows(a: seq<int>)
    requires |a| >= 1
    ensures Shows(1, a, [a])
  {
    forall p ensures p in [a] <==> Arrangement(1, a, p) {
      if Arrangement(1, a, p) {
        assert p[..1] == [p[0]] && a[..1] == [a[0]];
        assert multiset(p[..1]) == multiset{p[0]} && multiset(a[..1]) == multiset{a[0]};
        assert p[0] in multiset{a[0]};
        assert p == p[..1] + p[1..] == a[..1] + a[1..] == a;
        assert p == [a][0];
      }
    }
  }

  // ----- The states between inner calls are arrangements -----

  lemma SwapArranges(k: nat, a: seq<int>, i: nat, j: nat)
    requires k <= |a| && i < k && j < k
    ensures Arrangement(k, a, Swap(a, i, j))
  {
    var s := Swap(a, i, j);
    assert s[..k] == a[..k][i := a[j]][j := a[i]];
    assert a[..k][i] == a[i] && a[..k][j] == a[j];
  }

  /** A call rearranges its elements. */
  lemma {:induction false} AfterArranges(k: nat, a: seq<int>)
    requires 1 <= k <= |a|
    ensures Arrangement(k, a, After(k, a))
    decreases k, k + 1
  {
    if k > 1 {
      AfterRoundArranges(k, k - 1, a);
    }
  }

  lemma {:induction false} AfterRoundArranges(k: nat, r: nat, a: seq<int>)
    requires 2 <= k <= |a| && r < k
    ensures Arrangement(k, a, AfterRound(k, r, a))
    decreases k, r, 1
  {
    var s := RoundStart(k, r, a);
    RoundStartArranges(k, r, a);
    AfterArranges(k - 1, s);
    ArrangementSplit(k, s, After(k - 1, s));
    ArrangementTrans(k, a, s, After(k - 1, s));
  }

  lemma {:induction false} RoundStartArranges(k: nat, r: nat, a: seq<int>)
    requires 2 <= k <= |a| && r < k
    ensures Arrangement(k, a, RoundStart(k, r, a))
    decreases k, r, 0
  {
    if r > 0 {
      var before := AfterRound(k, r - 1, a);
      AfterRoundArranges(k, r - 1, a);
      SwapArranges(k, before, SwapPosition(k, r - 1), k - 1);
      ArrangementTrans(k, a, before, RoundStart(k, r, a));
    }
  }

  lemma {:induction false} NoRepeatAtMostOnce(s: seq<int>, x: int)
    requires NoRepeat(s)
    ensures AtMostOnce(multiset(s), x)
  {
    if s != [] {
      NoRepeatAtMostOnce(s[1..], x);
      assert s == [s[0]] + s[1..];
      if x == s[0] { assert x !in s[1..]; }
    }
  }

  // ----- The whole trace of a call -----

  /** What heap(k) shows, in order. */
  function Trace(k: nat, a: seq<int>): seq<seq<int>>
    requires 1 <= k <= |a|
    decreases k, k + 1
  {
    if k == 1 then [a] else Rounds(k, k, a)
  }

  /** What its first n inner calls show. */
  function Rounds(k: nat, n: nat, a: seq<int>): seq<seq<int>>
    requires 2 <= k <= |a| && n <= k
    decreases k, n
  {
    if n == 0 then [] else Rounds(k, n - 1, a) + Trace(k - 1, RoundStart(k, n - 1, a))
  }

  /** The element in place k-1 during round r. */
  lemma RoundLast(k: nat, r: nat, a: seq<int>)
    requires 2 <= k <= |a| && r < k
    ensures RoundStart(k, r, a)[k - 1] == a[LastSource(k, r)]
  {
    var s := RoundStart(k, r, a);
    RoundClosedForm(k, r, a);
    NetClosedForm(k - 1, s);
    assert Net(k - 1, s)[k - 1] == s[k - 1];
  }

  /** heap(k) shows every arrangement of its k distinct elements exactly once. */
  lemma {:induction false} TraceShows(k: nat, a: seq<int>)
    requires 1 <= k <= |a| && Distinct(k, a)
    ensures Shows(k, a, Trace(k, a))
    decreases k, k + 1
  {
    if k == 1 {
      SingleShows(a);
    } else {
      RoundsShow(k, k, a);
      AllRoundsShow(k, a, Rounds(k, k, a));
    }
  }

  lemma {:induction false} RoundsShow(k: nat, n: nat, a: seq<int>)
    requires 2 <= k <= |a| && n <= k && Distinct(k, a)
    ensures ShowsFirst(k, a, n, Rounds(k, n, a))
    decreases k, n
  {
    if n > 0 {
      var s := RoundStart(k, n - 1, a);
      RoundTrace(k, n - 1, a);
      RoundsShow(k, n - 1, a);
      RoundShows(k, a, n - 1, Rounds(k, n - 1, a), s, Trace(k - 1, s));
    }
  }

  /** What the inner call of round r starts from, and that it shows all arrangements of that. */
  lemma {:induction false} RoundTrace(k: nat, r: nat, a: seq<int>)
    requires 2 <= k <= |a| && r < k && Distinct(k, a)
    ensures Arrangement(k, a, RoundStart(k, r, a)) && RoundStart(k, r, a)[k - 1] == a[LastSource(k, r)]
    ensures Shows(k - 1, RoundStart(k, r, a), Trace(k - 1, RoundStart(k, r, a)))
    decreases k, 0
  {
    RoundStartArranges(k, r, a);
    RoundLast(k, r, a);
    DistinctInner(k, a, RoundStart(k, r, a));
    TraceShows(k - 1, RoundStart(k, r, a));
  }
}
