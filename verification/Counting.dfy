/** Counting the true entries of a sequence. */
module Counting {
  function CountTrue(s: seq<bool>): nat
  {
    if |s| == 0 then 0 else CountTrue(s[..|s| - 1]) + (if s[|s| - 1] then 1 else 0)
  }

  lemma {:induction false} CountTrueBound(s: seq<bool>)
    ensures CountTrue(s) <= |s|
    ensures CountTrue(s) == |s| <==> forall i :: 0 <= i < |s| ==> s[i]
  {
    if |s| > 0 {
      var t := s[..|s| - 1];
      CountTrueBound(t);
      assert forall i :: 0 <= i < |t| ==> t[i] == s[i];
    }
  }

  lemma {:induction false} CountTrueUpdate(s: seq<bool>, i: nat)
    requires i < |s| && !s[i]
    ensures CountTrue(s[i := true]) == CountTrue(s) + 1
  {
    var n := |s| - 1;
    if i == n {
      assert s[i := true][..n] == s[..n];
    } else {
      assert s[i := true][..n] == s[..n][i := true];
      CountTrueUpdate(s[..n], i);
    }
  }

  lemma {:induction false} CountTrueNone(s: seq<bool>)
    requires forall i :: 0 <= i < |s| ==> !s[i]
    ensures CountTrue(s) == 0
  {
    if |s| > 0 {
      CountTrueNone(s[..|s| - 1]);
    }
  }

  lemma {:induction false} CountTrueSum(a: seq<bool>, b: seq<bool>)
    ensures CountTrue(a + b) == CountTrue(a) + CountTrue(b)
  {
    if |b| == 0 {
      assert a + b == a;
    } else {
      var n := |b| - 1;
      assert (a + b)[..|a| + n] == a + b[..n];
      CountTrueSum(a, b[..n]);
    }
  }

  lemma {:induction false} CountTrueClear(s: seq<bool>, i: nat)
    requires i < |s| && s[i]
    ensures CountTrue(s[i := false]) + 1 == CountTrue(s)
  {
    CountTrueUpdate(s[i := false], i);
    assert s[i := false][i := true] == s;
  }
}
