/** Counts and sums over fixed-size tables, and first free slots. */
module Counting {
  function Count(s: seq<bool>): (n: nat)
    ensures n <= |s|
  {
    if s == [] then 0 else Count(s[..|s| - 1]) + if s[|s| - 1] then 1 else 0
  }

  function Sum(s: seq<nat>): nat {
    if s == [] then 0 else Sum(s[..|s| - 1]) + s[|s| - 1]
  }

  lemma {:induction false} CountUpdate(s: seq<bool>, i: nat, b: bool)
    requires i < |s|
    ensures Count(s[i := b]) + (if s[i] then 1 else 0) == Count(s) + if b then 1 else 0
  {
    var n := |s| - 1;
    if i == n {
      assert s[i := b][..n] == s[..n];
    } else {
      CountUpdate(s[..n], i, b);
      assert s[i := b][..n] == s[..n][i := b];
    }
  }

  lemma {:induction false} SumUpdate(s: seq<nat>, i: nat, x: nat)
    requires i < |s|
    ensures Sum(s[i := x]) + s[i] == Sum(s) + x
  {
    var n := |s| - 1;
    if i == n {
      assert s[i := x][..n] == s[..n];
    } else {
      SumUpdate(s[..n], i, x);
      assert s[i := x][..n] == s[..n][i := x];
    }
  }

  // The first false at or after i, or |s|.
  function FirstFalse(s: seq<bool>, i: nat): (r: nat)
    requires i <= |s|
    ensures i <= r <= |s|
    ensures forall j :: i <= j < r ==> s[j]
    ensures r < |s| ==> !s[r]
    decreases |s| - i
  {
    if i == |s| || !s[i] then i else FirstFalse(s, i + 1)
  }

  lemma {:induction false} AllTrueCount(s: seq<bool>)
    requires forall j :: 0 <= j < |s| ==> s[j]
    ensures Count(s) == |s|
  {
    if s != [] {
      AllTrueCount(s[..|s| - 1]);
    }
  }

  lemma {:induction false} AllFalseCount(s: seq<bool>)
    requires forall j :: 0 <= j < |s| ==> !s[j]
    ensures Count(s) == 0
  {
    if s != [] {
      AllFalseCount(s[..|s| - 1]);
    }
  }

  lemma {:induction false} SomeFalseCount(s: seq<bool>, j: nat)
    requires j < |s| && !s[j]
    ensures Count(s) < |s|
  {
    CountUpdate(s, j, true);
  }

  // A slot is free exactly when the count is short of the size.
  lemma FirstFalseFound(s: seq<bool>)
    ensures FirstFalse(s, 0) < |s| <==> Count(s) < |s|
  {
    if FirstFalse(s, 0) == |s| {
      AllTrueCount(s);
    } else {
      SomeFalseCount(s, FirstFalse(s, 0));
    }
  }

  // A scan that has passed i trues and stops at a false, or at the end, has found the first.
  lemma {:induction false} FirstFalseIs(s: seq<bool>, from: nat, i: nat)
    requires from <= i <= |s|
    requires forall j :: from <= j < i ==> s[j]
    requires i == |s| || !s[i]
    ensures FirstFalse(s, from) == i
    decreases i - from
  {
    if from < i {
      FirstFalseIs(s, from + 1, i);
    }
  }

  lemma {:induction false} AllZeroSum(s: seq<nat>)
    requires forall j :: 0 <= j < |s| ==> s[j] == 0
    ensures Sum(s) == 0
  {
    if s != [] {
      AllZeroSum(s[..|s| - 1]);
    }
  }
}
