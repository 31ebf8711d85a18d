/** Sums over sequences of naturals. */
module Sums {

  function Sum(s: seq<nat>): nat {
    if s == [] then 0 else Sum(s[..|s| - 1]) + s[|s| - 1]
  }

  lemma {:induction false} SumUpdate(s: seq<nat>, i: nat, x: nat)
    requires i < |s|
    ensures Sum(s[i := x]) == Sum(s) - s[i] + x
  {
    var t := s[i := x];
    if i == |s| - 1 {
      assert t[..|s| - 1] == s[..|s| - 1];
    } else {
      SumUpdate(s[..|s| - 1], i, x);
      assert t[..|s| - 1] == s[..|s| - 1][i := x];
    }
  }

  /** Two sequences that differ by `d` at one place. */
  lemma SumBump(s: seq<nat>, t: seq<nat>, i: nat, d: nat)
    requires i < |s| == |t|
    requires forall j :: 0 <= j < |s| ==> t[j] == s[j] + if j == i then d else 0
    ensures Sum(t) == Sum(s) + d
  {
    assert t == s[i := s[i] + d];
    SumUpdate(s, i, s[i] + d);
  }

  lemma {:induction false} SumZero(s: seq<nat>)
    requires forall i :: 0 <= i < |s| ==> s[i] == 0
    ensures Sum(s) == 0
  {
    if s != [] {
      SumZero(s[..|s| - 1]);
    }
  }
}
