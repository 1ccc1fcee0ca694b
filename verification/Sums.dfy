/** Sums over the goroutines of a protocol state. */
module Sums {

  function Sum<T>(s: seq<T>, w: T -> nat): nat {
    if s == [] then 0 else Sum(s[..|s| - 1], w) + w(s[|s| - 1])
  }

  lemma {:induction false} SumUpdate<T>(s: seq<T>, i: nat, x: T, w: T -> nat)
    requires i < |s|
    ensures Sum(s[i := x], w) + w(s[i]) == Sum(s, w) + w(x)
  {
    var n := |s| - 1;
    if i < n {
      SumUpdate(s[..n], i, x, w);
      assert s[i := x][..n] == s[..n][i := x];
    } else {
      assert s[i := x][..n] == s[..n];
    }
  }

  lemma SumAppend<T>(s: seq<T>, x: T, w: T -> nat)
    ensures Sum(s + [x], w) == Sum(s, w) + w(x)
  {
    assert (s + [x])[..|s|] == s;
  }

  lemma {:induction false} SumAtLeast<T>(s: seq<T>, i: nat, w: T -> nat)
    requires i < |s|
    ensures Sum(s, w) >= w(s[i])
  {
    if i < |s| - 1 {
      SumAtLeast(s[..|s| - 1], i, w);
    }
  }

  lemma {:induction false} SumZero<T>(s: seq<T>, w: T -> nat)
    requires forall i | 0 <= i < |s| :: w(s[i]) == 0
    ensures Sum(s, w) == 0
  {
    if s != [] {
      SumZero(s[..|s| - 1], w);
    }
  }

  /** The positions of those of s that have p. */
  function Where<T>(s: seq<T>, p: T -> bool): set<nat> {
    set i: nat | 0 <= i < |s| && p(s[i])
  }

  /** Adding one for each that has p counts them. */
  lemma {:induction false} SumCounts<T>(s: seq<T>, w: T -> nat, p: T -> bool)
    requires forall i | 0 <= i < |s| :: w(s[i]) == if p(s[i]) then 1 else 0
    ensures Sum(s, w) == |Where(s, p)|
  {
    if s != [] {
      var n := |s| - 1;
      SumCounts(s[..n], w, p);
      assert Where(s, p) == Where(s[..n], p) + (if p(s[n]) then {n} else {});
    }
  }
}
