/** Sums over the workers and over the channels of the driver protocol. */
module Counting {
  import opened Protocol

  function Total(ws: seq<Worker>, f: Worker -> nat): nat {
    if ws == [] then 0 else Total(ws[..|ws| - 1], f) + f(ws[|ws| - 1])
  }

  lemma {:induction false} TotalUpdate(ws: seq<Worker>, f: Worker -> nat, i: nat, w: Worker)
    requires i < |ws|
    ensures Total(ws[i := w], f) + f(ws[i]) == Total(ws, f) + f(w)
  {
    var last := |ws| - 1;
    if i == last {
      assert ws[i := w][..last] == ws[..last];
    } else {
      assert ws[i := w][..last] == ws[..last][i := w];
      TotalUpdate(ws[..last], f, i, w);
    }
  }

  lemma {:induction false} TotalZero(ws: seq<Worker>, f: Worker -> nat)
    requires forall i :: 0 <= i < |ws| ==> f(ws[i]) == 0
    ensures Total(ws, f) == 0
  {
    if ws != [] {
      TotalZero(ws[..|ws| - 1], f);
    }
  }

  lemma {:induction false} TotalOnes(ws: seq<Worker>, f: Worker -> nat)
    requires forall i :: 0 <= i < |ws| ==> f(ws[i]) == 1
    ensures Total(ws, f) == |ws|
  {
    if ws != [] {
      TotalOnes(ws[..|ws| - 1], f);
    }
  }

  function At(pc: Pc): Worker -> nat {
    (w: Worker) => if w.pc == pc then 1 else 0
  }

  function Count(ws: seq<Worker>, pc: Pc): nat {
    Total(ws, At(pc))
  }

  /** What a worker has counted and not yet reported. */
  function Unreported(): Worker -> nat {
    (w: Worker) => if w.pc == Done then 0 else w.nb
  }

  lemma CountUpdate(ws: seq<Worker>, pc: Pc, i: nat, w: Worker)
    requires i < |ws|
    ensures Count(ws[i := w], pc) == Count(ws, pc) - (if ws[i].pc == pc then 1 else 0) + (if w.pc == pc then 1 else 0)
  {
    TotalUpdate(ws, At(pc), i, w);
  }

  /** Every worker is somewhere. */
  lemma {:induction false} CountAll(ws: seq<Worker>)
    ensures Count(ws, NotStarted) + Count(ws, AwaitInit) + Count(ws, SendZero)
            + Count(ws, Loop) + Count(ws, SendCount) + Count(ws, Done) == |ws|
  {
    if ws != [] {
      CountAll(ws[..|ws| - 1]);
    }
  }

  lemma {:induction false} CountPositive(ws: seq<Worker>, pc: Pc) returns (i: nat)
    requires Count(ws, pc) > 0
    ensures i < |ws| && ws[i].pc == pc
  {
    var last := |ws| - 1;
    if ws[last].pc == pc {
      i := last;
    } else {
      i := CountPositive(ws[..last], pc);
    }
  }

  lemma {:induction false} CountWitness(ws: seq<Worker>, pc: Pc, i: nat)
    requires i < |ws| && ws[i].pc == pc
    ensures Count(ws, pc) > 0
  {
    if i < |ws| - 1 {
      CountWitness(ws[..|ws| - 1], pc, i);
    }
  }

  function Sum(s: seq<nat>): nat {
    if s == [] then 0 else s[0] + Sum(s[1..])
  }

  lemma {:induction false} SumSnoc(s: seq<nat>, x: nat)
    ensures Sum(s + [x]) == Sum(s) + x
  {
    if s != [] {
      SumSnoc(s[1..], x);
      assert (s + [x])[1..] == s[1..] + [x];
    }
  }

  function Ops(s: seq<Op>, op: Op): nat {
    if s == [] then 0 else (if s[0] == op then 1 else 0) + Ops(s[1..], op)
  }

  lemma {:induction false} OpsSnoc(s: seq<Op>, op: Op, x: Op)
    ensures Ops(s + [x], op) == Ops(s, op) + if x == op then 1 else 0
  {
    if s != [] {
      OpsSnoc(s[1..], op, x);
      assert (s + [x])[1..] == s[1..] + [x];
    }
  }

  lemma {:induction false} OpsAll(s: seq<Op>)
    ensures Ops(s, OpStep) + Ops(s, OpExit) == |s|
  {
    if s != [] {
      OpsAll(s[1..]);
    }
  }
}
