/** Thue's theorem: there are square-free words over three letters of every length.

    The backtracking of pearls.go relies on it silently: `backtrack` indexes the last pearl
    without testing for an empty necklace. */
module ThueMorse {
  import opened Words

  /** The Thue-Morse sequence: parity of the number of ones in the binary form of n. */
  function T(n: nat): (b: nat)
    ensures b <= 1
  {
    if n == 0 then 0
    else if n % 2 == 0 then T(n / 2)
    else 1 - T(n / 2)
  }

  /** An overlap: a block of length p repeated, and its first letter once more. */
  ghost predicate Overlap(i: nat, p: nat) {
    p >= 1 && forall k: nat :: i <= k <= i + p ==> Repeats(k, p)
  }

  predicate Repeats(k: nat, p: nat) {
    T(k) == T(k + p)
  }

  lemma AlignedPairDiffers(j: nat)
    requires j % 2 == 0
    ensures T(j) != T(j + 1)
  {
    assert (j + 1) / 2 == j / 2;
  }

  /** With an odd period one of two aligned pairs differs, so the word has to alternate. */
  lemma OddOverlapAlternates(i: nat, p: nat, k: nat)
    requires p % 2 == 1 && Overlap(i, p) && i <= k < i + p
    ensures T(k) != T(k + 1)
  {
    assert Repeats(k, p) && Repeats(k + 1, p);
    if k % 2 == 0 {
      AlignedPairDiffers(k);
    } else {
      AlignedPairDiffers(k + p);
    }
  }

  /** Alternating over an odd period ends on the other letter. */
  lemma {:induction false} NoOddOverlap(i: nat, p: nat)
    requires p % 2 == 1
    ensures !Overlap(i, p)
  {
    if Overlap(i, p) {
      assert Repeats(i, p);
      var k: nat := 0;
      while k < p
        invariant k <= p
        invariant T(i + k) == if k % 2 == 0 then T(i) else 1 - T(i)
      {
        OddOverlapAlternates(i, p, i + k);
        k := k + 1;
      }
    }
  }

  /** With an even period, every second letter is an overlap of half the size. */
  lemma {:induction false} EvenOverlapHalves(i: nat, p: nat)
    requires p % 2 == 0 && Overlap(i, p)
    ensures Overlap(i / 2, p / 2)
  {
    forall m: nat | i / 2 <= m <= i / 2 + p / 2
      ensures Repeats(m, p / 2)
    {
      var k := 2 * m + i % 2;
      assert Repeats(k, p);
      Halve(k);
      Halve(k + p);
    }
  }

  lemma Halve(n: nat)
    ensures T(n) == if n % 2 == 0 then T(n / 2) else 1 - T(n / 2)
  {
  }

  lemma {:induction false} OverlapFree(i: nat, p: nat)
    ensures !Overlap(i, p)
    decreases p
  {
    if Overlap(i, p) {
      if p % 2 == 1 {
        NoOddOverlap(i, p);
      } else {
        EvenOverlapHalves(i, p);
        OverlapFree(i / 2, p / 2);
      }
    }
  }

  /** The first differences of the Thue-Morse sequence, coded as colours. */
  function Letter(n: nat): (c: char)
    ensures IsColor(c)
  {
    if T(n + 1) < T(n) then '0' else if T(n + 1) == T(n) then '1' else '2'
  }

  /** Equal blocks of differences move the sequence by equal amounts. */
  lemma {:induction false} Telescope(i: nat, p: nat, end: nat)
    requires i <= end
    requires forall k: nat :: i <= k < end ==> Letter(k) == Letter(k + p)
    ensures T(end) - T(i) == T(end + p) - T(i + p)
    decreases end
  {
    if i < end {
      Telescope(i, p, end - 1);
      assert Letter(end - 1) == Letter(end - 1 + p);
    }
  }

  function ThueWord(n: nat): (w: string)
    ensures |w| == n
  {
    seq(n, i requires 0 <= i => Letter(i))
  }

  /** Thue: a square of differences would be an overlap of the Thue-Morse sequence. */
  lemma {:induction false} ThueWordValid(len: nat)
    ensures Valid(ThueWord(len))
  {
    var w := ThueWord(len);
    forall i: nat, n: nat
      ensures !SquareAt(w, i, n)
    {
      if SquareAt(w, i, n) {
        forall k: nat | i <= k < i + n ensures Letter(k) == Letter(k + n) {
          assert w[k] == w[k + n];
        }
        Telescope(i, n, i + n);
        forall k: nat | i <= k <= i + n ensures Repeats(k, n) {
          Telescope(i, n, k);
        }
        assert Overlap(i, n);
        OverlapFree(i, n);
      }
    }
  }
}
