/** Outage intervals of simulation.go: half-open ranges of seconds carrying a load
    (how many zones are affected, and which share of the keys). */
module Intervals {

  /** Seconds in a year, and the number of values of a uint32. */
  const MAXSECS: nat := 365 * 24 * 3600
  const UINT32: nat := 0x1_0000_0000

  const N_NODES: nat := 12
  const N_ZONES: nat := 3
  /** N_NODES / N_ZONES, written out. */
  const ZONE_SIZE: nat := 4

  /** The share of the keys of a zone that a number of its nodes hold. */
  function Share(nodes: nat): real {
    nodes as real / ZONE_SIZE as real
  }

  datatype Interval = Interval(beg: nat, end: nat, cnt: nat, ratio: real)
  {
    predicate Overlap(o: Interval) {
      end > o.beg && beg < o.end
    }

    predicate Contiguous(o: Interval) {
      end == o.beg || beg == o.end
    }

    predicate Covers(t: nat) {
      beg <= t < end
    }

    /** Unlike Covers, this takes the end for a part of the interval. */
    predicate Include(t: nat) {
      beg <= t <= end
    }

    predicate WellFormed() {
      beg < end <= MAXSECS
    }

    /** What a clamped end leaves of a failure that begins after the year: reversed, or empty. */
    predicate Late() {
      end == MAXSECS <= beg < UINT32
    }

    /** The difference of two uint32. */
    function Duration(): (d: nat)
      ensures beg <= end < UINT32 ==> d == end - beg
      ensures Late() ==> d == if beg == MAXSECS then 0 else UINT32 - (beg - MAXSECS)
    {
      (end - beg) % UINT32
    }

    function Load(): Load {
      Down(cnt, ratio)
    }
  }

  /** The state at one second: nothing down, or an outage with its count and its share of the keys. */
  datatype Load = Up | Down(cnt: nat, ratio: real)

  predicate AllWellFormed(s: seq<Interval>) {
    forall i :: 0 <= i < |s| ==> s[i].WellFormed()
  }

  predicate AllLate(s: seq<Interval>) {
    forall i :: 0 <= i < |s| ==> s[i].Late()
  }

  /** All that AddFailure makes of a failure that lasts and does not wrap around. */
  predicate AllClamped(s: seq<Interval>) {
    forall i :: 0 <= i < |s| ==> s[i].WellFormed() || s[i].Late()
  }

  /** Non-empty intervals in increasing order, none overlapping the next. */
  predicate Disjoint(s: seq<Interval>) {
    && (forall i :: 0 <= i < |s| ==> s[i].beg < s[i].end)
    && (forall i, j :: 0 <= i < j < |s| ==> s[i].end <= s[j].beg)
  }

  /** Disjoint, with a gap between consecutive intervals. */
  predicate Canonical(s: seq<Interval>) {
    Disjoint(s) && forall i, j :: 0 <= i < j < |s| ==> s[i].end < s[j].beg
  }

  predicate SortedByBeg(s: seq<Interval>) {
    forall i, j :: 0 <= i < j < |s| ==> s[i].beg <= s[j].beg
  }

  predicate Covered(s: seq<Interval>, t: nat) {
    exists i :: 0 <= i < |s| && s[i].Covers(t)
  }

  /** An interval includes second t, the ends counted. */
  predicate Included(s: seq<Interval>, t: nat) {
    exists i :: 0 <= i < |s| && s[i].Include(t)
  }

  datatype Option<T> = None | Some(value: T)

  /** The first interval of s that covers second t. */
  function PieceAt(s: seq<Interval>, t: nat): (p: Option<Interval>)
    ensures p.Some? ==> p.value in s && p.value.Covers(t)
    ensures p.None? <==> !Covered(s, t)
  {
    if s == [] then None
    else if s[0].Covers(t) then Some(s[0])
    else
      assert forall i :: 0 <= i < |s[1..]| ==> s[1..][i] == s[i + 1];
      assert forall i :: 0 < i < |s| ==> s[i] == s[1..][i - 1];
      PieceAt(s[1..], t)
  }

  function LoadAt(s: seq<Interval>, t: nat): Load {
    var p := PieceAt(s, t);
    if p.None? then Up else p.value.Load()
  }

  lemma NothingBeforeStart(s: seq<Interval>, t: nat)
    requires Disjoint(s) && (s == [] || t < s[0].beg)
    ensures PieceAt(s, t) == None
  {
  }

  /** In a disjoint list an interval is the piece at each second it covers. */
  lemma {:induction false} PieceOfMember(s: seq<Interval>, i: nat, t: nat)
    requires Disjoint(s) && i < |s| && s[i].Covers(t)
    ensures PieceAt(s, t) == Some(s[i])
  {
    if i > 0 {
      PieceOfMember(s[1..], i - 1, t);
    }
  }
}
