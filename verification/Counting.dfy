/** Pigeonhole counting over sequences of naturals, and sums of +1/-1 sequences. */
module Counting {
  import opened Sequences

  ghost predicate Within(s: seq<nat>, lo: nat, hi: nat) {
    forall i :: 0 <= i < |s| ==> lo <= s[i] < hi
  }

  /** The n naturals from lo on. */
  ghost function Range(lo: nat, n: nat): (r: set<nat>)
    ensures |r| == n && forall x: nat :: x in r <==> lo <= x < lo + n
  {
    if n == 0 then {} else Range(lo, n - 1) + {lo + n - 1}
  }

  /** As many distinct values as the range has room for hit every value of the range. */
  lemma Pigeonhole(s: seq<nat>, lo: nat, v: nat)
    requires Distinct(s) && Within(s, lo, lo + |s|)
    requires lo <= v < lo + |s|
    ensures v in s
  {
    DistinctCard(s);
    var hit, range := Elements(s), Range(lo, |s|);
    assert hit <= range;
    assert |range - hit| == 0;
    assert v in range;
  }

  function Sum(s: seq<int>): int {
    if s == [] then 0 else Sum(s[..|s| - 1]) + s[|s| - 1]
  }

  lemma {:induction false} SumConcat(a: seq<int>, b: seq<int>)
    ensures Sum(a + b) == Sum(a) + Sum(b)
  {
    if b == [] {
      assert a + b == a;
    } else {
      assert (a + b)[..|a + b| - 1] == a + b[..|b| - 1];
      SumConcat(a, b[..|b| - 1]);
    }
  }

  /** Summing backwards gives the same total. */
  lemma {:induction false} SumReversed(a: seq<int>, b: seq<int>)
    requires |a| == |b| && forall i :: 0 <= i < |a| ==> b[i] == a[|a| - 1 - i]
    ensures Sum(a) == Sum(b)
  {
    if a != [] {
      var n := |a| - 1;
      assert a == [a[0]] + a[1..];
      SumConcat([a[0]], a[1..]);
      assert forall i :: 0 <= i < n ==> b[..n][i] == a[1..][n - 1 - i];
      SumReversed(a[1..], b[..n]);
      assert Sum([a[0]]) == a[0] by { assert [a[0]][..0] == []; }
    }
  }

  ghost predicate Signs(s: seq<int>) {
    forall i :: 0 <= i < |s| ==> s[i] == 1 || s[i] == -1
  }

  /** How many entries are +1. */
  function Ones(s: seq<int>): nat {
    if s == [] then 0 else Ones(s[..|s| - 1]) + (if s[|s| - 1] == 1 then 1 else 0)
  }

  lemma {:induction false} SumOfSigns(s: seq<int>)
    requires Signs(s)
    ensures Sum(s) == 2 * Ones(s) - |s|
  {
    if s != [] { SumOfSigns(s[..|s| - 1]); }
  }
}
