/** Adding up a measure over a sequence. */
module Sums {

  function Sum<T>(s: seq<T>, f: T -> nat): nat {
    if s == [] then 0 else f(s[0]) + Sum(s[1..], f)
  }

  lemma {:induction false} SumUpdate<T>(s: seq<T>, i: nat, v: T, f: T -> nat)
    requires i < |s|
    ensures Sum(s[i := v], f) == Sum(s, f) - f(s[i]) + f(v)
  {
    if i == 0 {
      assert s[i := v][1..] == s[1..];
    } else {
      assert s[i := v][1..] == s[1..][i - 1 := v];
      SumUpdate(s[1..], i - 1, v, f);
    }
  }

  lemma {:induction false} SumSame<T>(s: seq<T>, t: seq<T>, f: T -> nat)
    requires |s| == |t| && forall i :: 0 <= i < |s| ==> f(s[i]) == f(t[i])
    ensures Sum(s, f) == Sum(t, f)
  {
    SumGrows(s, t, f, 0);
    SumGrows(t, s, f, 0);
  }

  /** No term grows by more than d. */
  lemma {:induction false} SumGrows<T>(s: seq<T>, t: seq<T>, f: T -> nat, d: nat)
    requires |s| == |t| && forall i :: 0 <= i < |s| ==> f(t[i]) <= f(s[i]) + d
    ensures Sum(t, f) <= Sum(s, f) + d * |s|
  {
    if s != [] {
      assert forall i :: 0 <= i < |s[1..]| ==> s[1..][i] == s[i + 1] && t[1..][i] == t[i + 1];
      SumGrows(s[1..], t[1..], f, d);
      assert d * |s| == d * |s[1..]| + d;
    }
  }

  lemma {:induction false} SumAll<T>(s: seq<T>, f: T -> nat, k: nat)
    requires forall i :: 0 <= i < |s| ==> f(s[i]) == k
    ensures Sum(s, f) == k * |s|
  {
    if s != [] {
      SumAll(s[1..], f, k);
      assert k * |s| == k * (|s| - 1) + k;
    }
  }

  lemma {:induction false} SumAtLeast<T>(s: seq<T>, i: nat, f: T -> nat)
    requires i < |s|
    ensures f(s[i]) <= Sum(s, f)
  {
    if i > 0 {
      SumAtLeast(s[1..], i - 1, f);
    }
  }

  /** Some element adds to a positive sum. */
  lemma {:induction false} SumFrom<T>(s: seq<T>, f: T -> nat) returns (i: nat)
    requires Sum(s, f) > 0
    ensures i < |s| && f(s[i]) > 0
  {
    if f(s[0]) > 0 {
      i := 0;
    } else {
      var j := SumFrom(s[1..], f);
      i := j + 1;
    }
  }
}
