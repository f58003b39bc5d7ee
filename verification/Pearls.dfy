/** Dijkstra's pearls: the backtracking search of pearls.go walks through the square-free
    words over three colours in lexicographic order, skipping none. */
module Pearls {
  import ThueMorse
  import opened Words

  /** v is the immediate successor of w among the valid words. */
  ghost predicate IsNext(w: string, v: string) {
    Valid(v) && Less(w, v) && forall u :: Valid(u) && Less(w, u) ==> !Less(u, v)
  }

  /** v is n successor steps after w. */
  ghost predicate Steps(w: string, n: nat, v: string)
    decreases n
  {
    if n == 0 then v == w
    else exists u :: Steps(w, n - 1, u) && IsNext(u, v)
  }

  lemma {:induction false} StepsCons(w: string, u: string, n: nat, v: string)
    requires IsNext(w, u) && Steps(u, n, v)
    ensures Steps(w, n + 1, v)
    decreases n
  {
    if n == 0 {
      assert Steps(w, 0, w);
    } else {
      var x :| Steps(u, n - 1, x) && IsNext(x, v);
      StepsCons(w, u, n - 1, x);
    }
  }

  /** Some valid word of length at least n is w or comes after w. */
  ghost predicate HasLater(w: string, n: nat) {
    exists z :: |z| >= n && Valid(z) && (w == z || Less(w, z))
  }

  /** The search can go on forever from w. */
  ghost predicate Live(w: string) {
    forall n: nat :: HasLater(w, n)
  }

  lemma EmptyIsLive()
    ensures Live("") && Valid("")
  {
    forall n: nat ensures HasLater("", n) {
      ThueMorse.ThueWordValid(n);
      var z := ThueMorse.ThueWord(n);
      assert "" == z || "" < z;
    }
  }

  lemma {:induction false} NextIsLive(w: string, v: string)
    requires Live(w) && IsNext(w, v)
    ensures Live(v)
  {
    forall n: nat ensures HasLater(v, n) {
      assert HasLater(w, n + |w| + 1);
      var z :| |z| >= n + |w| + 1 && Valid(z) && (w == z || Less(w, z));
      assert !Less(z, v);
      LessTotal(v, z);
    }
  }

  /** While the search looks for the word after w, every valid word after w lies beyond the buffer. */
  ghost predicate OnlyBeyond(w: string, u: string) {
    forall v :: Valid(v) && Less(w, v) ==> Beyond(u, v)
  }

  /** The first letter by which v extends w could have been appended to w. */
  lemma {:induction false} NextLetter(w: string, v: string)
    requires Valid(v) && w < v
    ensures IsColor(v[|w|]) && Valid(w + [v[|w|]])
  {
    PrefixValid(v, |w| + 1);
    assert v[..|w| + 1] == w + [v[|w|]];
  }

  /** No colour can be appended: whatever follows w lies beyond w. */
  lemma {:induction false} DeadEnd(w: string)
    requires forall c :: IsColor(c) ==> !Valid(w + [c])
    ensures OnlyBeyond(w, w)
  {
    forall v | Valid(v) && Less(w, v)
      ensures Beyond(w, v)
    {
      if w < v {
        NextLetter(w, v);
      }
    }
  }

  /** What `backtrack` does to the buffer: drop the trailing '2's and advance the pearl before them. */
  predicate Advanced(u: string, u': string) {
    && 1 <= |u'| <= |u|
    && u'[..|u'| - 1] == u[..|u'| - 1]
    && u[|u'| - 1] < '2' && u'[|u'| - 1] as int == u[|u'| - 1] as int + 1
    && forall k :: |u'| <= k < |u| ==> u[k] == '2'
  }

  /** A word beyond u is beyond the advanced buffer or starts with it. */
  lemma {:induction false} AdvanceSkipsNothing(u: string, u': string, v: string)
    requires Advanced(u, u') && Ternary(v) && Beyond(u, v)
    ensures u' <= v || Beyond(u', v)
  {
    var k: nat :| k < |u| && BeyondAt(u, v, k);
    var m := |u'| - 1;
    if k < m {
      assert u'[..k] == u'[..m][..k] == u[..m][..k];
      assert u'[k] == u'[..m][k] == u[..m][k];
      assert BeyondAt(u', v, k);
    } else if k == m {
      assert u' == u[..m] + [u'[m]];
      if u'[m] < v[m] {
        assert BeyondAt(u', v, m);
      }
    }
  }

  /** Stepping past u, the buffer stays after the word the search started from. */
  lemma {:induction false} AdvanceIsLater(w: string, u: string, u': string)
    requires Advanced(u, u') && (u == w || Less(w, u))
    ensures Less(w, u')
  {
    var m := |u'| - 1;
    assert BeyondAt(u, u', m);
    if u != w {
      LessTransitive(w, u, u');
    }
  }

  /** The buffer is on its way from w to the next valid word. */
  ghost predicate Searching(w: string, u: string) {
    && u != "" && Ternary(u) && |u| <= |w|
    && SquareFree(u[..|u| - 1])
    && (u == w || Less(w, u))
    && OnlyBeyond(w, u)
  }

  /** Advancing the buffer either finds the next valid word, or keeps the search going. */
  lemma {:induction false} AdvanceKeepsSearching(w: string, u: string, u': string)
    requires Searching(w, u) && Advanced(u, u')
    ensures Ternary(u') && SquareFree(u'[..|u'| - 1])
    ensures SquareFree(u') ==> IsNext(w, u')
    ensures !SquareFree(u') ==> Searching(w, u')
  {
    AdvanceIsLater(w, u, u');
    AdvanceStaysTernary(u, u');
    forall v | Valid(v) && Less(w, v)
      ensures !Less(v, u')
      ensures !SquareFree(u') ==> Beyond(u', v)
    {
      AdvanceSkipsNothing(u, u', v);
      if u' <= v {
        PrefixValid(v, |u'|);
        assert v[..|u'|] == u';
        if Less(v, u') { LessTransitive(v, u', v); LessIrreflexive(v); }
      } else {
        LessAsymmetric(u', v);
      }
    }
  }

  lemma {:induction false} AdvanceStaysTernary(u: string, u': string)
    requires Advanced(u, u') && Ternary(u) && SquareFree(u[..|u| - 1])
    ensures Ternary(u') && SquareFree(u'[..|u'| - 1])
  {
    var m := |u'| - 1;
    forall k | 0 <= k < m ensures u'[k] == u[k] {
      assert u'[..m][k] == u[..m][k];
    }
    assert u[..|u| - 1][..m] == u[..m];
    assert Valid(u[..|u| - 1]);
    PrefixValid(u[..|u| - 1], m);
  }

  /** A live word never lets the buffer run out of pearls that can be advanced. */
  lemma {:induction false} SomethingToAdvance(w: string, u: string)
    requires Live(w) && OnlyBeyond(w, u) && Ternary(u)
    ensures exists k :: 0 <= k < |u| && u[k] != '2'
  {
    assert HasLater(w, |w| + 1);
    var z :| |z| >= |w| + 1 && Valid(z) && (w == z || Less(w, z));
    assert Beyond(u, z);
    var k: nat :| k < |u| && BeyondAt(u, z, k);
    assert u[k] < z[k] && IsColor(z[k]);
  }

  function Pow3(n: nat): (p: nat)
    ensures p >= 1
  {
    if n == 0 then 1 else 3 * Pow3(n - 1)
  }

  function Digit(c: char): nat
    requires IsColor(c)
  {
    c as int - '0' as int
  }

  /** How many words of length n are still ahead of u padded with '0's: the variant of the search. */
  function Room(u: string, n: nat): nat
    requires Ternary(u)
    decreases n
  {
    if n == 0 then 0
    else if u == "" then 2 * Pow3(n - 1) + Room("", n - 1)
    else (2 - Digit(u[0])) * Pow3(n - 1) + Room(u[1..], n - 1)
  }

  lemma {:induction false} RoomOfEmpty(n: nat)
    ensures Room("", n) == Pow3(n) - 1
  {
    if n > 0 {
      RoomOfEmpty(n - 1);
    }
  }

  lemma {:induction false} AdvanceShrinksRoom(u: string, u': string, n: nat)
    requires Ternary(u) && Ternary(u') && Advanced(u, u') && |u| <= n
    ensures Room(u', n) < Room(u, n)
    decreases n
  {
    if |u'| == 1 {
      assert u'[1..] == "";
      RoomOfEmpty(n - 1);
      var d := 2 - Digit(u[0]);
      assert (d - 1) * Pow3(n - 1) + Pow3(n - 1) == d * Pow3(n - 1);
    } else {
      var m := |u'| - 1;
      assert u'[0] == u'[..m][0] == u[..m][0] == u[0];
      assert u'[1..][..m - 1] == u'[..m][1..] == u[..m][1..] == u[1..][..m - 1];
      AdvanceShrinksRoom(u[1..], u'[1..], n - 1);
    }
  }

  class BenchPearls {
    var buf: string
    var iter: int

    constructor (budget: nat)
      ensures buf == "" && iter == budget
    {
      buf := "";
      iter := budget;
    }

    /** The search from the empty necklace: budget + 1 pearls are placed or moved. */
    method Run(budget: nat)
      modifies this
      ensures Steps("", budget + 1, buf) && iter == -2
    {
      buf := "";
      iter := budget;
      EmptyIsLive();
      AddPearls();
    }

    /** One call moves to the next valid word and goes on until the budget is used up. */
    method AddPearls()
      requires Valid(buf) && Live(buf)
      modifies this
      ensures Valid(buf) && Live(buf)
      ensures Steps(old(buf), if old(iter) < 0 then 0 else old(iter) + 1, buf)
      ensures iter == if old(iter) < 0 then old(iter) - 1 else -2
      decreases if iter < 0 then 0 else iter + 1
    {
      var stop := iter < 0;
      iter := iter - 1;
      if stop {
        return;
      }
      ghost var w := buf;
      var color := '0';
      while color <= '2'
        invariant '0' <= color <= '3'
        invariant buf == w && iter == old(iter) - 1
        invariant forall c :: '0' <= c < color ==> !Valid(w + [c])
        decreases '3' as int - color as int
      {
        TryColor(w, color);
        buf := buf + [color];
        var ok := Check();
        if ok {
          ghost var v := buf;
          AddPearls();
          StepsCons(w, v, old(iter), buf);
          return;
        }
        buf := buf[..|buf| - 1];
        color := (color as int + 1) as char;
      }
      StartSearching(w);
      BacktrackToNext(w);
      ghost var v := buf;
      AddPearls();
      StepsCons(w, v, old(iter), buf);
    }

    /** Backtracks until the check succeeds. */
    method BacktrackToNext(ghost w: string)
      requires Live(w) && Searching(w, buf)
      modifies `buf
      ensures IsNext(w, buf) && Valid(buf) && Live(buf)
    {
      var found := false;
      while !found
        invariant if found then IsNext(w, buf) && Valid(buf) && Live(buf) else Searching(w, buf)
        decreases !found, if found then 0 else Room(buf, |w|)
      {
        ghost var u := buf;
        SomethingToAdvance(w, u);
        Backtrack();
        SearchRound(w, u, buf);
        found := Check();
      }
    }

    /** Looks only at the sequences that end with the last pearl. */
    method Check() returns (ok: bool)
      ensures ok <==> NoSquareSuffix(buf)
    {
      var max := |buf|;
      if max <= 1 {
        return true;
      }
      var i := 2;
      while i <= max
        invariant 2 <= i <= max + 2 && i % 2 == 0
        invariant forall n: nat :: 1 <= n < i / 2 ==> !SquareAt(buf, max - 2 * n, n)
      {
        var different := CheckSub(max - i, max - i / 2);
        if !different {
          assert SquareAt(buf, max - 2 * (i / 2), i / 2);
          return false;
        }
        i := i + 2;
      }
      return true;
    }

    /** Compares the two sequences that end and start at the pivot. */
    method CheckSub(start: nat, pivot: nat) returns (different: bool)
      requires start < pivot && 2 * pivot - start == |buf|
      ensures different <==> !SquareAt(buf, start, pivot - start)
    {
      var i := 0;
      while i < pivot - start
        invariant 0 <= i <= pivot - start
        invariant forall k :: start <= k < start + i ==> buf[k] == buf[k + (pivot - start)]
      {
        if buf[start + i] != buf[pivot + i] {
          return true;
        }
        i := i + 1;
      }
      return false;
    }

    /** Rewinds to the last pearl that can be advanced. The source indexes the last pearl
        without testing for an empty necklace: some pearl must differ from '2'. */
    method Backtrack()
      requires Ternary(buf) && exists k :: 0 <= k < |buf| && buf[k] != '2'
      modifies `buf
      ensures Advanced(old(buf), buf)
      decreases |buf|
    {
      var max := |buf| - 1;
      if buf[max] != '2' {
        buf := buf[max := (buf[max] as int + 1) as char];
      } else {
        buf := buf[..max];
        ghost var shorter := buf;
        Backtrack();
        assert old(buf)[..|buf| - 1] == shorter[..|buf| - 1];
      }
    }
  }

  /** Appending the smallest colour that leaves the word valid gives its immediate successor. */
  lemma {:induction false} Placed(w: string, color: char)
    requires Valid(w) && IsColor(color) && SquareFree(w + [color])
    requires forall c :: '0' <= c < color ==> !Valid(w + [c])
    ensures IsNext(w, w + [color])
  {
    var v := w + [color];
    assert v[..|w|] == w;
    assert w < v;
    forall u | Valid(u) && Less(w, u)
      ensures !Less(u, v)
    {
      if w < u {
        NextLetter(w, u);
        assert v <= u || BeyondAt(v, u, |w|);
      } else {
        var k: nat :| k < |w| && BeyondAt(w, u, k);
        assert BeyondAt(v, u, k) by { assert v[..k] == w[..k]; }
      }
      LessIrreflexive(v);
      if u != v { LessAsymmetric(v, u); }
    }
  }

  /** One round of the loop over the colours. */
  lemma TryColor(w: string, color: char)
    requires Valid(w) && Live(w) && IsColor(color)
    requires forall c :: '0' <= c < color ==> !Valid(w + [c])
    ensures NoSquareSuffix(w + [color]) ==>
              IsNext(w, w + [color]) && Valid(w + [color]) && Live(w + [color])
    ensures !NoSquareSuffix(w + [color]) ==> !Valid(w + [color])
  {
    var v := w + [color];
    assert v[..|v| - 1] == w;
    SuffixCheckSuffices(v);
    if NoSquareSuffix(v) {
      Placed(w, color);
      NextIsLive(w, v);
    }
  }

  /** The search starts when no colour fits. */
  lemma StartSearching(w: string)
    requires Valid(w) && Live(w)
    requires forall c :: '0' <= c < '3' ==> !Valid(w + [c])
    ensures Searching(w, w)
  {
    DeadEnd(w);
    SomethingToAdvance(w, w);
    PrefixValid(w, |w| - 1);
  }

  /** One round of the search: the check decides whether the next valid word has been found. */
  lemma SearchRound(w: string, u: string, u': string)
    requires Live(w) && Searching(w, u) && Advanced(u, u')
    ensures NoSquareSuffix(u') ==> IsNext(w, u') && Valid(u') && Live(u')
    ensures !NoSquareSuffix(u') ==> Searching(w, u') && Room(u', |w|) < Room(u, |w|)
  {
    AdvanceKeepsSearching(w, u, u');
    AdvanceShrinksRoom(u, u', |w|);
    SuffixCheckSuffices(u');
    if NoSquareSuffix(u') {
      NextIsLive(w, u');
    }
  }

  // ----- What a whole run says about the words it has seen -----

  /** After n steps from the empty necklace exactly the n smallest valid words lie behind. */
  lemma {:induction false} StepsRank(n: nat, w: string) returns (seen: set<string>)
    requires Steps("", n, w)
    ensures Valid(w)
    ensures |seen| == n && forall v :: v in seen <==> Valid(v) && Less(v, w)
    decreases n
  {
    if n == 0 {
      seen := {};
      EmptyIsLive();
    } else {
      var u :| Steps("", n - 1, u) && IsNext(u, w);
      var before := StepsRank(n - 1, u);
      seen := before + {u};
      LessIrreflexive(u);
      forall v
        ensures v in seen <==> Valid(v) && Less(v, w)
      {
        if v in before {
          LessTransitive(v, u, w);
        } else if v != u && Valid(v) && Less(v, w) {
          LessTotal(v, u);
        }
      }
    }
  }

  /** Every valid word smaller than the one reached was itself reached on the way. */
  lemma {:induction false} SmallerWasVisited(n: nat, w: string, v: string) returns (m: nat)
    requires Steps("", n, w) && Valid(v) && Less(v, w)
    ensures m < n && Steps("", m, v)
    decreases n
  {
    if n == 0 {
      assert false;
    } else {
      var u :| Steps("", n - 1, u) && IsNext(u, w);
      if v == u {
        m := n - 1;
      } else {
        LessTotal(v, u);
        m := SmallerWasVisited(n - 1, u, v);
      }
    }
  }

  /** The first word of its length that the search reaches is the least valid word of that length. */
  lemma {:induction false} FirstOfItsLengthIsLeast(n: nat, w: string, v: string)
    requires Steps("", n, w)
    requires forall m: nat, u :: m < n && Steps("", m, u) ==> |u| != |w|
    requires Valid(v) && |v| == |w|
    ensures v == w || Less(w, v)
  {
    LessTotal(v, w);
    if Less(v, w) {
      var m := SmallerWasVisited(n, w, v);
    }
  }

  /** The necklace is never longer than the number of iterations. */
  lemma {:induction false} LengthWithinBudget(n: nat, w: string)
    requires Steps("", n, w)
    ensures |w| <= n
    decreases n
  {
    if n > 0 {
      var u :| Steps("", n - 1, u) && IsNext(u, w);
      LengthWithinBudget(n - 1, u);
      if |w| > |u| + 1 {
        ShorterInBetween(u, w);
      }
    }
  }

  // ----- When the necklace is shorter than the number of iterations -----

  lemma NextUnique(u: string, v: string, w: string)
    requires IsNext(u, v) && IsNext(u, w)
    ensures v == w
  {
    LessTotal(v, w);
  }

  /** The word w is reached after n steps, and the search goes on from it. */
  ghost predicate Reached(n: nat, w: string) {
    Steps("", n, w) && Valid(w) && Live(w)
  }

  /** The smallest colour that leaves no square at the end gives the next word. */
  lemma Appended(n: nat, w: string, color: char)
    requires Reached(n, w) && IsColor(color) && NoSquareSuffix(w + [color])
    requires forall c :: '0' <= c < color ==> !NoSquareSuffix(w + [c])
    ensures Reached(n + 1, w + [color])
  {
    forall c | '0' <= c < color ensures !Valid(w + [c]) {
      SuffixCheckSuffices(w + [c]);
    }
    TryColor(w, color);
  }

  lemma AppendedSecond(n: nat, w: string)
    requires Reached(n, w) && !NoSquareSuffix(w + ['0']) && NoSquareSuffix(w + ['1'])
    ensures Reached(n + 1, w + ['1'])
  {
    Appended(n, w, '1');
  }

  lemma AppendedThird(n: nat, w: string)
    requires Reached(n, w)
    requires !NoSquareSuffix(w + ['0']) && !NoSquareSuffix(w + ['1']) && NoSquareSuffix(w + ['2'])
    ensures Reached(n + 1, w + ['2'])
  {
    Appended(n, w, '2');
  }

  lemma EndsInPair(w: string, c: char)
    requires w != "" && w[|w| - 1] == c
    ensures !NoSquareSuffix(w + [c])
  {
    var v := w + [c];
    assert SquareAt(v, |v| - 2 * 1, 1);
  }

  lemma EndsInSquare(w: string, c: char, n: nat)
    requires 1 <= n && 2 * n <= |w| + 1 && SquareAt(w + [c], |w| + 1 - 2 * n, n)
    ensures !NoSquareSuffix(w + [c])
  {
  }

  /** A word of up to seven pearls ends in no square if, for every length, two pearls at that distance differ. */
  lemma EndsInNoSquare(w: string, j: nat, k: nat)
    requires 1 <= |w| <= 7
    requires |w| >= 2 ==> w[|w| - 2] != w[|w| - 1]
    requires |w| >= 4 ==> |w| - 4 <= j < |w| - 2 && w[j] != w[j + 2]
    requires |w| >= 6 ==> |w| - 6 <= k < |w| - 3 && w[k] != w[k + 3]
    ensures NoSquareSuffix(w)
  {
    forall n: nat | 1 <= n && 2 * n <= |w| ensures !SquareAt(w, |w| - 2 * n, n) {
      if n == 1 {
        assert w[|w| - 2] != w[|w| - 2 + n];
      } else if n == 2 {
        assert w[j] != w[j + n];
      } else {
        assert w[k] != w[k + n];
      }
    }
  }

  lemma FirstTwo()
    ensures Reached(2, "01")
  {
    EmptyIsLive();
    assert Steps("", 0, "");
    EndsInNoSquare("0", 0, 0);
    assert "" + ['0'] == "0" && "0" + ['1'] == "01";
    Appended(0, "", '0');
    EndsInPair("0", '0');
    EndsInNoSquare("01", 0, 0);
    AppendedSecond(1, "0");
  }

  lemma FirstThree()
    ensures Reached(3, "010")
  {
    FirstTwo();
    assert "01" + ['0'] == "010";
    EndsInNoSquare("010", 0, 0);
    Appended(2, "01", '0');
  }

  lemma FirstFour()
    ensures Reached(4, "0102")
  {
    FirstThree();
    var w := "010";
    assert w + ['2'] == "0102";
    EndsInPair(w, '0');
    EndsInSquare(w, '1', 2);
    EndsInNoSquare("0102", 1, 0);
    AppendedThird(3, w);
  }

  lemma FirstFive()
    ensures Reached(5, "01020")
  {
    FirstFour();
    assert "0102" + ['0'] == "01020";
    EndsInNoSquare("01020", 1, 0);
    Appended(4, "0102", '0');
  }

  lemma FirstSix()
    ensures Reached(6, "010201")
  {
    FirstFive();
    assert "01020" + ['1'] == "010201";
    EndsInPair("01020", '0');
    EndsInNoSquare("010201", 3, 2);
    AppendedSecond(5, "01020");
  }

  lemma FirstSeven()
    ensures Reached(7, "0102010")
  {
    FirstSix();
    assert "010201" + ['0'] == "0102010";
    EndsInNoSquare("0102010", 3, 3);
    Appended(6, "010201", '0');
  }

  /** No colour can be appended to the seventh word. */
  lemma FirstDeadEnd(c: char)
    requires '0' <= c < '3'
    ensures !Valid("0102010" + [c])
  {
    var w := "0102010";
    if c == '0' {
      EndsInPair(w, '0');
    } else if c == '1' {
      EndsInSquare(w, '1', 2);
    } else {
      EndsInSquare(w, '2', 4);
    }
    SuffixCheckSuffices(w + [c]);
  }

  lemma SearchStep(w: string, u: string, u': string)
    requires Live(w) && Searching(w, u) && Advanced(u, u')
    ensures NoSquareSuffix(u') ==> IsNext(w, u')
    ensures !NoSquareSuffix(u') ==> Searching(w, u')
  {
    SearchRound(w, u, u');
  }

  lemma FirstBacktracking()
    requires Valid("0102010") && Live("0102010")
    ensures IsNext("0102010", "0102012")
  {
    var w := "0102010";
    forall c | '0' <= c < '3' ensures !Valid(w + [c]) {
      FirstDeadEnd(c);
    }
    StartSearching(w);
    assert "010201" + ['1'] == "0102011";
    EndsInPair("010201", '1');
    SearchStep(w, w, "0102011");
    EndsInNoSquare("0102012", 4, 2);
    SearchStep(w, "0102011", "0102012");
  }

  /** The first eight calls place seven pearls: the eighth has to backtrack. */
  lemma FirstEight()
    ensures Steps("", 8, "0102012")
  {
    FirstSeven();
    FirstBacktracking();
  }

  lemma StepBefore(m: nat, w: string) returns (u: string)
    requires Steps("", m + 1, w)
    ensures Steps("", m, u) && IsNext(u, w)
  {
    u :| Steps("", m, u) && IsNext(u, w);
  }

  /** After a number of steps there is one word. */
  lemma {:induction false} SameStepSameWord(n: nat, v: string, w: string)
    requires Steps("", n, v) && Steps("", n, w)
    ensures v == w
    decreases n
  {
    if n > 0 {
      var m := n - 1;
      var u := StepBefore(m, v);
      var x := StepBefore(m, w);
      SameStepSameWord(m, u, x);
      NextUnique(u, v, w);
    }
  }

  lemma {:induction false} LongRunsAreShorter(n: nat, w: string)
    requires n >= 8 && Steps("", n, w)
    ensures |w| < n
    decreases n
  {
    if n == 8 {
      FirstEight();
      SameStepSameWord(8, "0102012", w);
    } else {
      var u := StepBefore(n - 1, w);
      LongRunsAreShorter(n - 1, u);
      if |w| > |u| + 1 {
        ShorterInBetween(u, w);
      }
    }
  }

  /** A run of n steps that has placed n pearls has placed one with each step. */
  lemma {:induction false} OnePearlAStep(n: nat, w: string, m: nat) returns (v: string)
    requires Steps("", n, w) && |w| == n && m <= n
    ensures Steps("", m, v) && |v| == m
    decreases n
  {
    if m == n {
      v := w;
    } else {
      var u := StepBefore(n - 1, w);
      LengthWithinBudget(n - 1, u);
      if |w| > |u| + 1 {
        ShorterInBetween(u, w);
      }
      v := OnePearlAStep(n - 1, u, m);
    }
  }

  /** The necklace is shorter than the number of steps exactly from eight steps on. */
  lemma ShorterFromEightOn(n: nat, w: string)
    requires Steps("", n, w)
    ensures |w| < n <==> n >= 8
  {
    if n >= 8 {
      LongRunsAreShorter(n, w);
    } else {
      FirstSeven();
      var v := OnePearlAStep(7, "0102010", n);
      SameStepSameWord(n, v, w);
    }
  }

  lemma {:induction false} ShorterInBetween(u: string, w: string)
    requires Valid(w) && Less(u, w) && |w| > |u| + 1
    ensures exists p :: Valid(p) && Less(u, p) && Less(p, w)
  {
    var p := w[..|u| + 1];
    PrefixValid(w, |u| + 1);
    assert p < w;
    if u < w {
      assert p[..|u|] == w[..|u|];
    } else {
      var k: nat :| k < |u| && BeyondAt(u, w, k);
      assert BeyondAt(u, p, k) by { assert p[..k] == w[..k]; }
    }
  }

  // ----- The search reaches every length -----

  /** The last position of u that can be advanced. */
  lemma {:induction false} Advance(u: string) returns (u': string)
    requires Ternary(u) && exists k :: 0 <= k < |u| && u[k] != '2'
    ensures Advanced(u, u')
    decreases |u|
  {
    var m := |u| - 1;
    if u[m] != '2' {
      u' := u[m := (u[m] as int + 1) as char];
    } else {
      u' := Advance(u[..m]);
      assert u[..|u'| - 1] == u[..m][..|u'| - 1];
    }
  }

  lemma {:induction false} SearchSucceeds(w: string, u: string) returns (v: string)
    requires Live(w) && Searching(w, u)
    ensures IsNext(w, v) && Live(v)
    decreases Room(u, |w|)
  {
    SomethingToAdvance(w, u);
    v := Advance(u);
    SearchRound(w, u, v);
    if !NoSquareSuffix(v) {
      v := SearchSucceeds(w, v);
    }
  }

  /** A live word has an immediate successor among the valid words. */
  lemma NextExists(w: string) returns (v: string)
    requires Valid(w) && Live(w)
    ensures IsNext(w, v) && Live(v)
  {
    if c :| IsColor(c) && Valid(w + [c]) && forall b :: '0' <= b < c ==> !Valid(w + [b]) {
      v := w + [c];
      Placed(w, c);
      NextIsLive(w, v);
    } else {
      if Valid(w + ['0']) { assert false; }
      if Valid(w + ['1']) { assert false; }
      if Valid(w + ['2']) { assert false; }
      StartSearching(w);
      v := SearchSucceeds(w, w);
    }
  }

  /** Within a bounded length the walk moves towards the word of '2's. */
  lemma {:induction false} LaterHasLessRoom(w: string, v: string, n: nat)
    requires Ternary(w) && Ternary(v) && Less(w, v) && |w| <= n && |v| <= n
    ensures Room(v, n) <= Room(w, n)
    ensures Room(v, n) == Room(w, n) ==> |v| > |w|
    decreases n
  {
    if w == "" {
      RoomAtMost(v, n);
      RoomOfEmpty(n);
    } else if w[0] == v[0] {
      if w < v {
        assert w[1..] == v[1..][..|w| - 1];
      } else {
        var k: nat :| k < |w| && BeyondAt(w, v, k);
        assert w[1..][..k - 1] == w[..k][1..] == v[..k][1..] == v[1..][..k - 1];
        assert BeyondAt(w[1..], v[1..], k - 1);
      }
      LaterHasLessRoom(w[1..], v[1..], n - 1);
    } else {
      FirstLetterGrows(w, v);
      RoomAtMost(v[1..], n - 1);
      var d := 2 - Digit(w[0]);
      var e := 2 - Digit(v[0]);
      assert e * Pow3(n - 1) + Pow3(n - 1) == (e + 1) * Pow3(n - 1) <= d * Pow3(n - 1);
    }
  }

  lemma FirstLetterGrows(w: string, v: string)
    requires Less(w, v) && w != "" && w[0] != v[0]
    ensures w[0] < v[0]
  {
    if !(w < v) {
      var k: nat :| k < |w| && BeyondAt(w, v, k);
      SamePrefix(w, v, k);
    }
  }

  lemma {:induction false} RoomAtMost(v: string, n: nat)
    requires Ternary(v)
    ensures Room(v, n) <= Pow3(n) - 1
    decreases n
  {
    if v == "" {
      RoomOfEmpty(n);
    } else if n > 0 {
      RoomAtMost(v[1..], n - 1);
    }
  }

  /** The search reaches every length, and the first necklace of that length it reaches is the
      lexicographically least one that exists. */
  lemma EveryLengthIsReached(len: nat) returns (n: nat, w: string)
    ensures Steps("", n, w) && |w| == len
    ensures forall v :: Valid(v) && |v| == len ==> v == w || Less(w, v)
  {
    n, w := 0, "";
    EmptyIsLive();
    while |w| < len
      invariant Steps("", n, w) && Valid(w) && Live(w) && |w| <= len
      invariant forall v :: Valid(v) && |v| == len ==> v == w || Less(w, v)
      decreases Room(w, len), len - |w|
    {
      var u := NextExists(w);
      if |u| > |w| + 1 {
        ShorterInBetween(w, u);
      }
      LaterHasLessRoom(w, u, len);
      forall v | Valid(v) && |v| == len
        ensures v == u || Less(u, v)
      {
        LessTotal(v, u);
      }
      n, w := n + 1, u;
    }
  }
}
