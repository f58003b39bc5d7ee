/** Where the lists of simulation.go are cut into intervals: exactly where some node goes down or comes back. */
module Cuts {
  import opened CanonicalForm
  import opened Intervals
  import opened Merge
  import opened Outages

  predicate EndsAt(x: Interval, t: nat) {
    x.beg == t || x.end == t
  }

  /** An interval begins or ends at t. */
  ghost predicate Cut(s: seq<Interval>, t: nat) {
    exists i :: 0 <= i < |s| && EndsAt(s[i], t)
  }

  lemma CutConcat(a: seq<Interval>, b: seq<Interval>, t: nat)
    ensures Cut(a + b, t) <==> Cut(a, t) || Cut(b, t)
  {
    if i :| 0 <= i < |a| && EndsAt(a[i], t) {
      assert EndsAt((a + b)[i], t);
    }
    if i :| 0 <= i < |b| && EndsAt(b[i], t) {
      assert EndsAt((a + b)[|a| + i], t);
    }
  }

  lemma CutCons(x: Interval, s: seq<Interval>, t: nat)
    ensures Cut([x] + s, t) <==> EndsAt(x, t) || Cut(s, t)
  {
    CutConcat([x], s, t);
    assert [x][0] == x;
  }

  lemma CutHead(s: seq<Interval>, t: nat)
    requires s != []
    ensures Cut(s, t) <==> EndsAt(s[0], t) || Cut(s[1..], t)
  {
    assert s == [s[0]] + s[1..];
    CutCons(s[0], s[1..], t);
  }

  /** A turn of the merge cuts only where one of the lists is cut, and forgets no cut. */
  lemma TurnCut(a: seq<Interval>, b: seq<Interval>, gen: Gen, t: nat)
    requires Generic(gen) && a != [] && b != []
    ensures var n := Next(a, b, gen);
            Cut(a, t) || Cut(b, t) <==> EndsAt(n.out, t) || Cut(n.a, t) || Cut(n.b, t)
  {
    var x, y := a[0], b[0];
    CutHead(a, t);
    CutHead(b, t);
    CutCons(x.(beg := y.beg), a[1..], t);
    CutCons(x.(beg := y.end), a[1..], t);
    CutCons(y.(beg := x.beg), b[1..], t);
    CutCons(y.(beg := x.end), b[1..], t);
  }

  /** The merged list is cut exactly where one of the two lists is. */
  lemma {:induction false} MergedCut(a: seq<Interval>, b: seq<Interval>, gen: Gen, t: nat)
    requires Generic(gen)
    ensures Cut(Merged(a, b, gen), t) <==> Cut(a, t) || Cut(b, t)
    decreases Measure(a, b)
  {
    if a != [] && b != [] {
      var n := Next(a, b, gen);
      TurnCut(a, b, gen, t);
      MergedCut(n.a, n.b, gen, t);
      CutCons(n.out, Merged(n.a, n.b, gen), t);
    }
  }

  // ----- In terms of the node outages -----

  /** The node goes down, or comes back. */
  ghost predicate Flips(raw: Outages, t: nat) {
    Covered(raw, t) != (t > 0 && Covered(raw, t - 1))
  }

  ghost predicate Changes(nodes: seq<Outages>, t: nat) {
    exists n :: 0 <= n < |nodes| && Flips(nodes[n], t)
  }

  lemma ChangesConcat(a: seq<Outages>, b: seq<Outages>, t: nat)
    ensures Changes(a + b, t) <==> Changes(a, t) || Changes(b, t)
  {
    if n :| 0 <= n < |a| && Flips(a[n], t) {
      assert Flips((a + b)[n], t);
    }
    if n :| 0 <= n < |b| && Flips(b[n], t) {
      assert Flips((a + b)[|a| + n], t);
    }
  }

  lemma CutIsFlip(s: seq<Interval>, t: nat)
    requires Canonical(s) && Cut(s, t)
    ensures Flips(s, t)
  {
    var i :| 0 <= i < |s| && EndsAt(s[i], t);
    if s[i].beg == t {
      assert s[i].Covers(t);
    } else {
      assert s[i].Covers(t - 1);
    }
  }

  lemma FlipIsCut(s: seq<Interval>, t: nat)
    requires Flips(s, t)
    ensures Cut(s, t)
  {
    if i :| 0 <= i < |s| && s[i].Covers(t) {
      assert t > 0 ==> !s[i].Covers(t - 1);
      assert EndsAt(s[i], t);
    } else {
      var i :| 0 <= i < |s| && s[i].Covers(t - 1);
      assert !s[i].Covers(t);
      assert EndsAt(s[i], t);
    }
  }

  /** A canonical list is cut exactly where its node goes down or comes back. */
  lemma CanonicalCut(s: seq<Interval>, t: nat)
    requires Canonical(s)
    ensures Cut(s, t) <==> Flips(s, t)
  {
    if Cut(s, t) {
      CutIsFlip(s, t);
    }
    if Flips(s, t) {
      FlipIsCut(s, t);
    }
  }

  /** The list is cut exactly where one of the nodes goes down or comes back. */
  ghost predicate CutsRight(s: seq<Interval>, nodes: seq<Outages>) {
    forall t: nat :: Cut(s, t) <==> Changes(nodes, t)
  }

  lemma NodeCuts(s: seq<Interval>, raw: Outages)
    requires NodeReady(s, raw)
    ensures CutsRight(s, [raw])
  {
    forall t: nat ensures Cut(s, t) <==> Changes([raw], t) {
      CanonicalCut(s, t);
      assert [raw][0] == raw;
      assert (Covered(s, t) <==> Covered(raw, t)) && (t > 0 ==> (Covered(s, t - 1) <==> Covered(raw, t - 1)));
      assert Flips(s, t) <==> Flips(raw, t);
    }
  }

  /** Merging keeps this. */
  lemma MergedCuts(a: seq<Interval>, left: seq<Outages>, b: seq<Interval>, right: seq<Outages>, gen: Gen)
    requires Generic(gen) && CutsRight(a, left) && CutsRight(b, right)
    ensures CutsRight(Merged(a, b, gen), left + right)
  {
    forall t: nat ensures Cut(Merged(a, b, gen), t) <==> Changes(left + right, t) {
      MergedCut(a, b, gen, t);
      ChangesConcat(left, right, t);
    }
  }

  // ----- Where intervals begin -----

  ghost predicate BeginsAt(s: seq<Interval>, t: nat) {
    exists i :: 0 <= i < |s| && s[i].beg == t
  }

  /** An interval of a disjoint list begins at every cut that the list covers, and nowhere else. */
  lemma BeginIsCut(s: seq<Interval>, t: nat)
    requires Disjoint(s)
    ensures BeginsAt(s, t) <==> Covered(s, t) && Cut(s, t)
  {
    if i :| 0 <= i < |s| && s[i].beg == t {
      assert s[i].Covers(t) && EndsAt(s[i], t);
    }
    if Covered(s, t) && Cut(s, t) {
      var i :| 0 <= i < |s| && s[i].Covers(t);
      var j :| 0 <= j < |s| && EndsAt(s[j], t);
      assert j < i ==> s[j].end <= s[i].beg;
      assert s[i].beg == t;
    }
  }
}
