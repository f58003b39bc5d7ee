/** Sequences without repetitions. */
module Sequences {

  ghost predicate NoRepeat<T>(s: seq<T>) {
    forall i, j :: 0 <= i < j < |s| ==> s[i] != s[j]
  }

  lemma NoRepeatConcat<T>(s: seq<T>, t: seq<T>)
    requires NoRepeat(s) && NoRepeat(t) && forall x :: x in s ==> x !in t
    ensures NoRepeat(s + t)
  {
    forall i, j | 0 <= i < j < |s + t| ensures (s + t)[i] != (s + t)[j] {
      if i < |s| <= j {
        assert s[i] in s && t[j - |s|] in t;
      }
    }
  }
}
