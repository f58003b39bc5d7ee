/** The slice type `Intervals` of simulation.go. A Go slice with its own backing storage is an
    object here, so that the in-place updates of `merge` and `Normalize` are visible. */
module IntervalLists {
  import opened CanonicalForm
  import opened Intervals
  import opened Merge

  /** The interval that AddFailure builds: uint32 addition wraps, and the end is clamped to the year. */
  function Failure(t: nat, mttr: nat): Interval {
    var end := (t + mttr) % UINT32;
    Interval(t, if end > MAXSECS then MAXSECS else end, 0, 0.0)
  }

  /** A failure that lasts and whose end does not wrap around is well formed if it starts within the year,
      and late if it starts after. */
  lemma FailureClamped(t: nat, mttr: nat)
    requires t < UINT32 && 0 < mttr && t + mttr < UINT32
    ensures if t < MAXSECS then Failure(t, mttr).WellFormed() else Failure(t, mttr).Late()
  {
  }

  /** Only the end is clamped: the interval is well formed exactly if the failure starts within the
      year, lasts, and its end does not wrap around. */
  lemma FailureWellFormed(t: nat, mttr: nat)
    requires t < UINT32 && mttr < UINT32
    ensures Failure(t, mttr).WellFormed() <==> t < MAXSECS && 0 < mttr && t + mttr < UINT32
  {
    if t + mttr >= UINT32 {
      assert (t + mttr) % UINT32 == t + mttr - UINT32;
    }
  }

  /** It covers the seconds that it lasts, as far as they are in the year. */
  lemma FailureCovers(t: nat, mttr: nat, s: nat)
    requires t < UINT32 && mttr < UINT32 && t + mttr < UINT32
    ensures Failure(t, mttr).Covers(s) <==> t <= s < t + mttr && s < MAXSECS
  {
  }

  /** Two non-empty intervals overlap exactly if they have a second in common. */
  lemma OverlapIsCommon(x: Interval, y: Interval)
    requires x.beg < x.end && y.beg < y.end
    ensures x.Overlap(y) <==> exists t: nat :: x.Covers(t) && y.Covers(t)
  {
    if x.Overlap(y) {
      var t := if x.beg < y.beg then y.beg else x.beg;
      assert x.Covers(t) && y.Covers(t);
    }
  }

  class IntervalList {
    var s: seq<Interval>

    constructor ()
      ensures s == []
    {
      s := [];
    }

    method Reset()
      modifies this
      ensures s == []
    {
      s := [];
    }

    /** Adds a failure unless it is asked to check for collisions and finds one. */
    method AddFailure(t: nat, mttr: nat, check: bool) returns (added: bool)
      requires t < UINT32 && mttr < UINT32
      modifies this
      ensures added <==> !(check && exists i :: 0 <= i < |old(s)| && old(s)[i].Overlap(Failure(t, mttr)))
      ensures s == if added then old(s) + [Failure(t, mttr)] else old(s)
    {
      var x := Failure(t, mttr);
      if check {
        var collides := CheckCollision(x);
        if collides {
          return false;
        }
      }
      s := s + [x];
      return true;
    }

    method CheckCollision(x: Interval) returns (collides: bool)
      ensures collides <==> exists i :: 0 <= i < |s| && s[i].Overlap(x)
    {
      for i := 0 to |s|
        invariant forall k :: 0 <= k < i ==> !s[k].Overlap(x)
      {
        if s[i].Overlap(x) {
          return true;
        }
      }
      return false;
    }

    method CheckCollisionTime(t: nat) returns (collides: bool)
      ensures collides <==> Included(s, t)
    {
      for i := 0 to |s|
        invariant forall k :: 0 <= k < i ==> !s[k].Include(t)
      {
        if s[i].Include(t) {
          return true;
        }
      }
      return false;
    }

    /** Stands for sort.Sort: callers only know that the list becomes a sorted permutation. */
    method SortByBeg()
      modifies this
      ensures SortedByBeg(s) && multiset(s) == multiset(old(s))
    {
      var todo := s;
      s := [];
      while todo != []
        invariant SortedByBeg(s)
        invariant multiset(s) + multiset(todo) == multiset(old(s))
        decreases |todo|
      {
        assert todo == [todo[0]] + todo[1..];
        InsertedSorted(s, todo[0]);
        s := Inserted(s, todo[0]);
        todo := todo[1..];
      }
    }

    /** Sorts the list, unless it is known to be sorted, and fuses neighbours. */
    method Normalize(sorted: bool)
      requires sorted ==> SortedByBeg(s)
      modifies this
      ensures Normalized(old(s), s)
      ensures NonEmpty(old(s)) ==> Canonical(s) && SameCoverage(s, old(s))
    {
      if |s| > 0 {
        if !sorted {
          SortByBeg();
        }
        ghost var p := s;
        FuseNeighbours();
        assert s == Fused([], p);
      } else {
        assert s == Fused([], old(s));
      }
      if NonEmpty(old(s)) {
        NormalizedCanonical(old(s), s);
      }
    }

    /** Merges contiguous or overlapping neighbours. */
    method FuseNeighbours()
      requires |s| > 0
      modifies this
      ensures s == Fused([], old(s))
    {
      var i := 1;
      assert s[..1] == FuseOne([], s[0]);
      while i < |s|
        invariant 1 <= i <= |s|
        invariant Fused(s[..i], s[i..]) == Fused([], old(s))
        decreases |s| - i
      {
        ghost var done, x, rest := s[..i], s[i], s[i..];
        assert rest[0] == x && rest[1..] == s[i + 1..] && done[|done| - 1] == s[i - 1];
        if s[i].Overlap(s[i - 1]) {
          if s[i - 1].end < s[i].end {
            s := s[i - 1 := s[i - 1].(end := s[i].end)];
          }
          s := s[..i] + s[i + 1..];
        } else if s[i].Contiguous(s[i - 1]) {
          s := s[i - 1 := s[i - 1].(end := s[i].end)];
          s := s[..i] + s[i + 1..];
        } else {
          i := i + 1;
        }
        assert s[..i] == FuseOne(done, x) && s[i..] == rest[1..];
      }
      assert s[..i] == s;
    }

    method MergeNodes(a: IntervalList, b: IntervalList)
      requires this != a && this != b && a != b
      modifies this, a, b
      ensures s == Merged(old(a.s), old(b.s), NodeGen)
    {
      MergeLists(a, b, NodeGen);
    }

    method MergeZones(a: IntervalList, b: IntervalList)
      requires this != a && this != b && a != b
      modifies this, a, b
      ensures s == Merged(old(a.s), old(b.s), ZoneGen)
    {
      MergeLists(a, b, ZoneGen);
    }

    /** The generic merge: it overwrites the beginning of intervals of a and b as it splits them. */
    method MergeLists(a: IntervalList, b: IntervalList, gen: Gen)
      requires this != a && this != b && a != b
      modifies this, a, b
      ensures s == Merged(old(a.s), old(b.s), gen)
    {
      Reset();
      var i, j := 0, 0;
      while i < |a.s| && j < |b.s|
        invariant 0 <= i <= |a.s| && 0 <= j <= |b.s|
        invariant s + Merged(a.s[i..], b.s[j..], gen) == Merged(old(a.s), old(b.s), gen)
        decreases Measure(a.s[i..], b.s[j..])
      {
        AppendTurn(s, a.s[i..], b.s[j..], gen);
        i, j := MergeTurn(a, i, b, j, gen);
      }
      if i < |a.s| {
        s := s + a.s[i..];
      } else if j < |b.s| {
        s := s + b.s[j..];
      }
    }

    /** One turn of the loop. */
    method MergeTurn(a: IntervalList, i0: nat, b: IntervalList, j0: nat, gen: Gen) returns (i: nat, j: nat)
      requires this != a && this != b && a != b && i0 < |a.s| && j0 < |b.s|
      modifies this, a, b
      ensures i <= |a.s| && j <= |b.s|
      ensures var n := Next(old(a.s)[i0..], old(b.s)[j0..], gen);
              s == old(s) + [n.out] && a.s[i..] == n.a && b.s[j..] == n.b
    {
      i, j := i0, j0;
      var x, y := a.s[i], b.s[j];
      if x.end <= y.beg {
        s := s + [x];
        i := i + 1;
      } else if y.end <= x.beg {
        s := s + [y];
        j := j + 1;
      } else if x.beg == y.beg {
        i, j := MergeTogether(a, i, b, j, gen);
      } else if x.beg < y.beg {
        a.s := a.s[i := x.(beg := y.beg)];
        s := s + [x.(end := y.beg)];
      } else {
        b.s := b.s[j := y.(beg := x.beg)];
        s := s + [y.(end := x.beg)];
      }
    }

    /** The turn for two intervals that start together and overlap. */
    method MergeTogether(a: IntervalList, i0: nat, b: IntervalList, j0: nat, gen: Gen) returns (i: nat, j: nat)
      requires this != a && this != b && a != b && i0 < |a.s| && j0 < |b.s|
      requires a.s[i0].beg == b.s[j0].beg && a.s[i0].end > b.s[j0].beg && b.s[j0].end > a.s[i0].beg
      modifies this, a, b
      ensures i <= |a.s| && j <= |b.s|
      ensures var n := Next(old(a.s)[i0..], old(b.s)[j0..], gen);
              s == old(s) + [n.out] && a.s[i..] == n.a && b.s[j..] == n.b
    {
      i, j := i0, j0;
      var x, y := a.s[i], b.s[j];
      if x.end == y.end {
        s := s + [gen(x, y)];
        i := i + 1;
        j := j + 1;
      } else if x.end < y.end {
        s := s + [gen(x, y)];
        b.s := b.s[j := y.(beg := x.end)];
        i := i + 1;
      } else {
        s := s + [gen(y, x)];
        a.s := a.s[i := x.(beg := y.end)];
        j := j + 1;
      }
    }
  }

  function Contents(lists: seq<IntervalList>): (r: seq<seq<Interval>>)
    reads lists
    ensures |r| == |lists| && forall i :: 0 <= i < |r| ==> r[i] == lists[i].s
  {
    if lists == [] then [] else [lists[0].s] + Contents(lists[1..])
  }

  /** Two nodes of a zone: one affected zone, and the shares add up. */
  function NodeGen(x: Interval, y: Interval): Interval {
    Interval(x.beg, x.end, x.cnt, x.ratio + y.ratio)
  }

  /** Two zones of the cluster: the counts add up, and the shares are multiplied. */
  function ZoneGen(x: Interval, y: Interval): Interval {
    Interval(x.beg, x.end, x.cnt + y.cnt, x.ratio * y.ratio)
  }
}
