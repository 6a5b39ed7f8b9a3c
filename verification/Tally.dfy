/** Totals over sequences, for termination and counting arguments. */
module Tally {

  function Sum(s: seq<nat>): nat {
    if s == [] then 0 else Sum(s[..|s| - 1]) + s[|s| - 1]
  }

  // Lowering some entries and raising none lowers the sum.
  lemma {:induction false} SumDrops(a: seq<nat>, b: seq<nat>)
    requires |a| == |b| && forall i :: 0 <= i < |a| ==> b[i] <= a[i]
    ensures Sum(b) <= Sum(a)
    ensures (exists i :: 0 <= i < |a| && b[i] < a[i]) ==> Sum(b) < Sum(a)
  {
    if a != [] {
      var m := |a| - 1;
      SumDrops(a[..m], b[..m]);
      if i :| 0 <= i < |a| && b[i] < a[i] {
        if i < m {
          assert b[..m][i] < a[..m][i];
        }
      }
    }
  }

  lemma {:induction false} SumZero(s: seq<nat>)
    requires forall i :: 0 <= i < |s| ==> s[i] == 0
    ensures Sum(s) == 0
  {
    if s != [] {
      SumZero(s[..|s| - 1]);
    }
  }

  function CountTrue(s: seq<bool>): (n: nat)
    ensures n <= |s|
  {
    if s == [] then 0 else CountTrue(s[..|s| - 1]) + if s[|s| - 1] then 1 else 0
  }

  lemma {:induction false} CountZero(s: seq<bool>)
    ensures CountTrue(s) == 0 <==> forall i :: 0 <= i < |s| ==> !s[i]
  {
    if s != [] {
      CountZero(s[..|s| - 1]);
      assert forall i :: 0 <= i < |s| - 1 ==> s[..|s| - 1][i] == s[i];
    }
  }

  // Clearing one flag lowers the count by one.
  lemma {:induction false} CountClear(s: seq<bool>, t: seq<bool>, i: nat)
    requires |s| == |t| && i < |s| && s[i] && !t[i]
    requires forall j :: 0 <= j < |s| && j != i ==> s[j] == t[j]
    ensures CountTrue(s) == CountTrue(t) + 1
  {
    var m := |s| - 1;
    if i == m {
      assert s[..m] == t[..m];
    } else {
      CountClear(s[..m], t[..m], i);
    }
  }
}
