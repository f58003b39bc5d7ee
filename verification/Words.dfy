/** Words over the three pearl colours, squares, and the lexicographic order in which
    the backtracking search of pearls.go visits them. */
module Words {

  /** A colour is one of the bytes '0', '1', '2'. */
  predicate IsColor(c: char) {
    '0' <= c <= '2'
  }

  predicate Ternary(w: string) {
    forall k :: 0 <= k < |w| ==> IsColor(w[k])
  }

  /** Two adjacent equal blocks of length n, the first one starting at i. */
  predicate SquareAt(w: string, i: nat, n: nat) {
    n >= 1 && i + 2 * n <= |w| && forall k :: i <= k < i + n ==> w[k] == w[k + n]
  }

  ghost predicate SquareFree(w: string) {
    forall i: nat, n: nat :: !SquareAt(w, i, n)
  }

  /** What one call of `check` looks at: squares that end at the last pearl. */
  ghost predicate NoSquareSuffix(w: string) {
    forall n: nat | 1 <= n && 2 * n <= |w| :: !SquareAt(w, |w| - 2 * n, n)
  }

  /** A valid necklace: three colours, no two adjacent identical sequences. */
  ghost predicate Valid(w: string) {
    Ternary(w) && SquareFree(w)
  }

  /** Only the suffixes need checking once the word without its last pearl is known to be square free. */
  lemma {:induction false} SuffixCheckSuffices(w: string)
    requires |w| >= 1
    ensures SquareFree(w) <==> SquareFree(w[..|w| - 1]) && NoSquareSuffix(w)
  {
    var p := w[..|w| - 1];
    forall i: nat, n: nat | SquareAt(p, i, n)
      ensures SquareAt(w, i, n)
    {
      forall k | i <= k < i + n ensures w[k] == w[k + n] {
        assert p[k] == p[k + n];
      }
    }
    forall i: nat, n: nat | SquareAt(w, i, n)
      ensures SquareAt(p, i, n) || (i == |w| - 2 * n && SquareAt(w, |w| - 2 * n, n))
    {
      if i + 2 * n <= |p| {
        forall k | i <= k < i + n ensures p[k] == p[k + n] {
          assert w[k] == w[k + n];
        }
      }
    }
  }

  lemma {:induction false} PrefixValid(w: string, n: nat)
    requires Valid(w) && n <= |w|
    ensures Valid(w[..n])
  {
    forall i: nat, m: nat | SquareAt(w[..n], i, m)
      ensures SquareAt(w, i, m)
    {
      forall k | i <= k < i + m ensures w[k] == w[k + m] {
        assert w[..n][k] == w[..n][k + m];
      }
    }
  }

  /** v differs from u at some position inside both, and is larger there: v comes after u
      and after every extension of u. */
  predicate BeyondAt(u: string, v: string, k: nat) {
    k < |u| && k < |v| && u[..k] == v[..k] && u[k] < v[k]
  }

  predicate Beyond(u: string, v: string) {
    exists k: nat | k < |u| :: BeyondAt(u, v, k)
  }

  lemma SamePrefix(u: string, v: string, k: nat)
    requires k <= |u| && k <= |v| && u[..k] == v[..k]
    ensures forall j :: 0 <= j < k ==> u[j] == v[j]
  {
    forall j | 0 <= j < k ensures u[j] == v[j] {
      assert u[..k][j] == v[..k][j];
    }
  }

  /** Strict lexicographic order, a proper prefix being smaller. */
  predicate Less(u: string, v: string) {
    u < v || Beyond(u, v)
  }

  lemma LessIrreflexive(u: string)
    ensures !Less(u, u)
  {
  }

  /** The order is total; the witness is the first position where the words differ. */
  lemma {:induction false} LessTotal(u: string, v: string)
    ensures u == v || Less(u, v) || Less(v, u)
  {
    var k := CommonPrefix(u, v);
    if k == |u| {
      assert u == v[..k];
    } else if k == |v| {
      assert v == u[..k];
    } else if u[k] < v[k] {
      assert BeyondAt(u, v, k);
    } else {
      assert BeyondAt(v, u, k);
    }
  }

  lemma {:induction false} LessTransitive(u: string, v: string, w: string)
    requires Less(u, v) && Less(v, w)
    ensures Less(u, w)
  {
    if u < v {
      if v < w {
        assert u == w[..|u|];
      } else {
        var k: nat :| k < |v| && BeyondAt(v, w, k);
        if k < |u| {
          assert u[..k] == v[..k];
          assert BeyondAt(u, w, k);
        } else {
          assert u == v[..k][..|u|] == w[..k][..|u|];
        }
      }
    } else {
      var j: nat :| j < |u| && BeyondAt(u, v, j);
      if v < w {
        assert w[..j] == v[..j];
        assert BeyondAt(u, w, j);
      } else {
        var k: nat :| k < |v| && BeyondAt(v, w, k);
        var m := if j < k then j else k;
        assert u[..m] == u[..j][..m] == v[..j][..m] == v[..m] == v[..k][..m] == w[..k][..m] == w[..m];
        assert v[..k][..m] == w[..k][..m];
        if j < k { assert v[..k][j] == w[..k][j]; }
        if k < j { assert u[..j][k] == v[..j][k]; }
        assert BeyondAt(u, w, m);
      }
    }
  }

  function CommonPrefix(u: string, v: string): (k: nat)
    ensures k <= |u| && k <= |v| && u[..k] == v[..k]
    ensures k < |u| && k < |v| ==> u[k] != v[k]
  {
    if u == [] || v == [] || u[0] != v[0] then 0
    else
      var k := CommonPrefix(u[1..], v[1..]);
      assert u[..k + 1] == [u[0]] + u[1..][..k] && v[..k + 1] == [v[0]] + v[1..][..k];
      k + 1
  }

  lemma {:induction false} LessAsymmetric(u: string, v: string)
    requires Less(u, v)
    ensures !Less(v, u)
  {
    if Less(v, u) {
      LessTransitive(u, v, u);
      LessIrreflexive(u);
    }
  }
}
