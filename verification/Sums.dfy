/** Sums of counts: one entry changed, one removed, two sequences added. */
module Sums {
  function Sum(s: seq<nat>): nat {
    if s == [] then 0 else Sum(s[..|s| - 1]) + s[|s| - 1]
  }

  lemma {:induction false} SumUpdate(s: seq<nat>, i: nat, v: nat)
    requires i < |s|
    ensures Sum(s[i := v]) == Sum(s) - s[i] + v
    decreases |s|
  {
    var n := |s| - 1;
    if i < n {
      SumUpdate(s[..n], i, v);
      assert s[i := v][..n] == s[..n][i := v];
    } else {
      assert s[i := v][..n] == s[..n];
    }
  }

  lemma {:induction false} SumRemove(s: seq<nat>, i: nat)
    requires i < |s|
    ensures Sum(s[..i] + s[i + 1..]) == Sum(s) - s[i]
    decreases |s|
  {
    var n := |s| - 1;
    var t := s[..i] + s[i + 1..];
    if i < n {
      SumRemove(s[..n], i);
      assert t[..n - 1] == s[..n][..i] + s[..n][i + 1..] && t[n - 1] == s[n];
    } else {
      assert t == s[..n];
    }
  }

  lemma {:induction false} SumAdd(a: seq<nat>, b: seq<nat>, s: seq<nat>)
    requires |a| == |b| == |s| && forall i | 0 <= i < |s| :: s[i] == a[i] + b[i]
    ensures Sum(s) == Sum(a) + Sum(b)
  {
    if s != [] {
      var n := |s| - 1;
      assert s[n] == a[n] + b[n];
      SumAdd(a[..n], b[..n], s[..n]);
    }
  }

  lemma {:induction false} SumOfZeros(s: seq<nat>)
    requires forall i | 0 <= i < |s| :: s[i] == 0
    ensures Sum(s) == 0
  {
    if s != [] {
      SumOfZeros(s[..|s| - 1]);
    }
  }
}
