/** Drawing random times in simulation.go until they are accepted. The draws are a finite input that may run
    out, where the source goes on drawing. */
module Draws {
  import opened IntervalLists
  import opened Intervals

  /** Some interval overlaps x. */
  predicate Collides(s: seq<Interval>, x: Interval) {
    exists i :: 0 <= i < |s| && s[i].Overlap(x)
  }

  /** The time t is accepted for a failure: nothing to be avoided includes it, and the failure meets no other. */
  predicate Accepted(s: seq<Interval>, avoid: seq<Interval>, t: nat, mttr: nat) {
    !Included(avoid, t) && !Collides(s, Failure(t, mttr))
  }

  /** The failures so far, how many are still to be found, and the draws that have not been used. */
  datatype Drawing = Drawing(list: seq<Interval>, left: nat, rest: seq<nat>)

  /** Every draw is either rejected, or becomes the next of n failures. */
  function Drawn(s: seq<Interval>, avoid: seq<Interval>, n: nat, draws: seq<nat>, mttr: nat): Drawing
    decreases |draws|
  {
    if n == 0 || draws == [] then Drawing(s, n, draws)
    else if Accepted(s, avoid, draws[0], mttr) then Drawn(s + [Failure(draws[0], mttr)], avoid, n - 1, draws[1..], mttr)
    else Drawn(s, avoid, n, draws[1..], mttr)
  }

  /** n more failures are drawn one after the other. */
  lemma {:induction false} DrawnOneMore(s: seq<Interval>, avoid: seq<Interval>, n: nat, draws: seq<nat>, mttr: nat)
    ensures var d := Drawn(s, avoid, 1, draws, mttr);
            Drawn(s, avoid, n + 1, draws, mttr) ==
            if d.left == 0 then Drawn(d.list, avoid, n, d.rest, mttr) else Drawing(d.list, n + 1, d.rest)
    decreases |draws|
  {
    if draws != [] && !Accepted(s, avoid, draws[0], mttr) {
      DrawnOneMore(s, avoid, n, draws[1..], mttr);
    }
  }

  ghost predicate Apart(s: seq<Interval>) {
    forall i, j :: 0 <= i < j < |s| ==> !s[i].Overlap(s[j])
  }

  predicate InYear(draws: seq<nat>) {
    forall i :: 0 <= i < |draws| ==> draws[i] < MAXSECS
  }

  /** A failure of the given duration that starts within the year and at no second to be avoided. */
  predicate Fits(x: Interval, avoid: seq<Interval>, mttr: nat) {
    x == Failure(x.beg, mttr) && x.beg < MAXSECS && !Included(avoid, x.beg)
  }

  /** What has been drawn: as many failures as were found, none meeting another. If some are missing, the
      draws have run out. */
  lemma {:induction false} DrawnApart(s: seq<Interval>, avoid: seq<Interval>, n: nat, draws: seq<nat>, mttr: nat)
    requires InYear(draws) && Apart(s)
    ensures var d := Drawn(s, avoid, n, draws, mttr);
            && |d.list| + d.left == |s| + n && s <= d.list && Apart(d.list) && InYear(d.rest)
            && (forall i :: |s| <= i < |d.list| ==> Fits(d.list[i], avoid, mttr))
            && (d.left > 0 ==> d.rest == [])
    decreases |draws|
  {
    if n > 0 && draws != [] {
      if Accepted(s, avoid, draws[0], mttr) {
        var t := s + [Failure(draws[0], mttr)];
        DrawnApart(t, avoid, n - 1, draws[1..], mttr);
        assert t <= Drawn(s, avoid, n, draws, mttr).list;
        assert Fits(t[|s|], avoid, mttr);
      } else {
        DrawnApart(s, avoid, n, draws[1..], mttr);
      }
    }
  }

  function StartsOf(s: seq<Interval>): (r: seq<nat>)
    ensures |r| == |s|
  {
    seq(|s|, i requires 0 <= i < |s| => s[i].beg)
  }

  lemma StartsSnoc(s: seq<Interval>, x: Interval)
    ensures StartsOf(s + [x]) == StartsOf(s) + [x.beg]
  {
  }

  /** Every failure has a draw of its own: those found and the draws left are among those there were. */
  lemma {:induction false} DrawsConserved(s: seq<Interval>, avoid: seq<Interval>, n: nat, draws: seq<nat>, mttr: nat)
    ensures var d := Drawn(s, avoid, n, draws, mttr);
            multiset(StartsOf(d.list)) + multiset(d.rest) <= multiset(StartsOf(s)) + multiset(draws)
    decreases |draws|
  {
    if n > 0 && draws != [] {
      assert draws == [draws[0]] + draws[1..];
      if Accepted(s, avoid, draws[0], mttr) {
        var x := Failure(draws[0], mttr);
        StartsSnoc(s, x);
        DrawsConserved(s + [x], avoid, n - 1, draws[1..], mttr);
      } else {
        DrawsConserved(s, avoid, n, draws[1..], mttr);
      }
    }
  }

  /** No draw is rejected without a reason: one that is used up is included, or meets a failure of the list. */
  lemma {:induction false} NoneRejectedInVain(s: seq<Interval>, avoid: seq<Interval>, n: nat, draws: seq<nat>, mttr: nat)
    requires InYear(draws) && 0 < mttr && MAXSECS + mttr < UINT32
    ensures var d := Drawn(s, avoid, n, draws, mttr);
            && s <= d.list && |d.rest| <= |draws| && draws[|draws| - |d.rest|..] == d.rest
            && forall i :: 0 <= i < |draws| - |d.rest| ==> !Accepted(d.list, avoid, draws[i], mttr)
    decreases |draws|
  {
    if n > 0 && draws != [] {
      var d, x := Drawn(s, avoid, n, draws, mttr), Failure(draws[0], mttr);
      if Accepted(s, avoid, draws[0], mttr) {
        NoneRejectedInVain(s + [x], avoid, n - 1, draws[1..], mttr);
        FailureClamped(draws[0], mttr);
        assert d.list[|s|] == (s + [x])[|s|] == x && x.Overlap(x);
      } else {
        NoneRejectedInVain(s, avoid, n, draws[1..], mttr);
        if i :| 0 <= i < |s| && s[i].Overlap(x) { assert d.list[i].Overlap(x); }
      }
      forall i | 0 <= i < |draws| - |d.rest| ensures !Accepted(d.list, avoid, draws[i], mttr) {
        if i > 0 { assert draws[i] == draws[1..][i - 1]; }
      }
    }
  }

  /** Draws are skipped until one is found that is not included. */
  function Skip(avoid: seq<Interval>, draws: seq<nat>): (rest: seq<nat>)
    ensures |rest| <= |draws|
  {
    if draws == [] || !Included(avoid, draws[0]) then draws else Skip(avoid, draws[1..])
  }

  lemma {:induction false} SkipDraws(s: seq<Interval>, avoid: seq<Interval>, n: nat, draws: seq<nat>, mttr: nat)
    requires n > 0
    ensures Drawn(s, avoid, n, draws, mttr) == Drawn(s, avoid, n, Skip(avoid, draws), mttr)
    decreases |draws|
  {
    if draws != [] && Included(avoid, draws[0]) {
      SkipDraws(s, avoid, n, draws[1..], mttr);
    }
  }

  lemma {:induction false} SkipInYear(avoid: seq<Interval>, draws: seq<nat>)
    requires InYear(draws)
    ensures InYear(Skip(avoid, draws))
    ensures Skip(avoid, draws) != [] ==> !Included(avoid, Skip(avoid, draws)[0])
  {
    if draws != [] && Included(avoid, draws[0]) {
      SkipInYear(avoid, draws[1..]);
    }
  }

  /** Adds n failures that meet no other one. */
  method AddFailures(list: IntervalList, n: nat, draws: seq<nat>, mttr: nat) returns (left: nat, rest: seq<nat>)
    requires InYear(draws) && mttr < UINT32
    modifies list
    ensures Drawing(list.s, left, rest) == Drawn(old(list.s), [], n, draws, mttr)
  {
    left, rest := n, draws;
    while left > 0 && rest != []
      invariant InYear(rest)
      invariant Drawn(list.s, [], left, rest, mttr) == Drawn(old(list.s), [], n, draws, mttr)
      decreases |rest|
    {
      var t := rest[0];
      ghost var before := list.s;
      var added := list.AddFailure(t, mttr, true);
      assert added <==> Accepted(before, [], t, mttr);
      rest := rest[1..];
      if added {
        left := left - 1;
      }
    }
  }

  /** A second that no interval includes. */
  method FindNonFailureTime(list: IntervalList, draws: seq<nat>) returns (found: bool, t: nat, rest: seq<nat>)
    ensures var after := Skip(list.s, draws);
            if found then after != [] && t == after[0] && rest == after[1..] else after == [] && rest == []
  {
    rest := draws;
    while rest != []
      invariant Skip(list.s, rest) == Skip(list.s, draws)
      decreases |rest|
    {
      t := rest[0];
      var collides := list.CheckCollisionTime(t);
      if !collides {
        return true, t, rest[1..];
      }
      rest := rest[1..];
    }
    return false, 0, [];
  }

  /** Schedules one event: at a second that no interval of outages includes, and meeting no other event. */
  method ScheduleEvent(outages: IntervalList, events: IntervalList, dur: nat, draws: seq<nat>)
    returns (ok: bool, rest: seq<nat>)
    requires outages != events && InYear(draws) && dur < UINT32
    modifies events
    ensures Drawing(events.s, if ok then 0 else 1, rest) == Drawn(old(events.s), outages.s, 1, draws, dur)
  {
    rest := draws;
    while true
      invariant InYear(rest) && events.s == old(events.s)
      invariant Drawn(events.s, outages.s, 1, rest, dur) == Drawn(old(events.s), outages.s, 1, draws, dur)
      decreases |rest|
    {
      SkipDraws(events.s, outages.s, 1, rest, dur);
      SkipInYear(outages.s, rest);
      var found, t, after := FindNonFailureTime(outages, rest);
      if !found {
        return false, [];
      }
      ghost var before := events.s;
      var added := events.AddFailure(t, dur, true);
      assert added <==> Accepted(before, outages.s, t, dur);
      rest := after;
      if added {
        return true, rest;
      }
    }
  }

  /** Schedules n events of the same duration. */
  method ScheduleEvents(outages: IntervalList, events: IntervalList, n: nat, dur: nat, draws: seq<nat>)
    returns (ok: bool, rest: seq<nat>)
    requires outages != events && InYear(draws) && dur < UINT32 && Apart(events.s)
    modifies events
    ensures var d := Drawn(old(events.s), outages.s, n, draws, dur);
            events.s == d.list && rest == d.rest && (ok <==> d.left == 0)
  {
    ok, rest := true, draws;
    for i := 0 to n
      invariant ok && InYear(rest) && Apart(events.s)
      invariant Drawn(events.s, outages.s, n - i, rest, dur) == Drawn(old(events.s), outages.s, n, draws, dur)
    {
      DrawnOneMore(events.s, outages.s, n - i - 1, rest, dur);
      DrawnApart(events.s, outages.s, 1, rest, dur);
      ok, rest := ScheduleEvent(outages, events, dur, rest);
      if !ok {
        return;
      }
    }
  }
}
