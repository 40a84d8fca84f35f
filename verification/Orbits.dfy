/** Iterating a state update, and what follows from a first return time. */
module Orbits {
  import opened Sequences
  import opened Counting

  function Iter(f: nat -> nat, s: nat, n: nat): nat {
    if n == 0 then s else f(Iter(f, s, n - 1))
  }

  lemma {:induction false} IterCompose(f: nat -> nat, s: nat, m: nat, n: nat)
    ensures Iter(f, Iter(f, s, m), n) == Iter(f, s, m + n)
  {
    if n > 0 { IterCompose(f, s, m, n - 1); }
  }

  ghost predicate Merges(f: nat -> nat, a: nat, b: nat) {
    a != b && f(a) == f(b)
  }

  /** f never leaves [0, bound) and never merges two states of it. */
  ghost predicate PermutationOf(f: nat -> nat, bound: nat) {
    (forall s: nat :: s < bound ==> f(s) < bound) &&
    (forall a: nat, b: nat :: a < bound && b < bound ==> !Merges(f, a, b))
  }

  lemma {:induction false} IterStays(f: nat -> nat, bound: nat, s: nat, n: nat)
    requires PermutationOf(f, bound) && s < bound
    ensures Iter(f, s, n) < bound
  {
    if n > 0 { IterStays(f, bound, s, n - 1); }
  }

  lemma {:induction false} IterInjective(f: nat -> nat, bound: nat, a: nat, b: nat, n: nat)
    requires PermutationOf(f, bound) && a < bound && b < bound
    requires Iter(f, a, n) == Iter(f, b, n)
    ensures a == b
  {
    if n > 0 {
      IterStays(f, bound, a, n - 1);
      IterStays(f, bound, b, n - 1);
      assert !Merges(f, Iter(f, a, n - 1), Iter(f, b, n - 1));
      IterInjective(f, bound, a, b, n - 1);
    }
  }

  /** s comes back after n steps and not before. */
  ghost predicate FirstReturnAt(f: nat -> nat, s: nat, n: nat) {
    0 < n && Iter(f, s, n) == s && forall i :: 0 < i < n ==> Iter(f, s, i) != s
  }

  /** i modulo n, by repeated subtraction: the index arithmetic of circular sequences. */
  function Wrap(i: nat, n: nat): (w: nat)
    requires n > 0
    ensures w < n
    decreases i
  {
    if i < n then i else Wrap(i - n, n)
  }

  lemma {:induction false} WrapIsModulo(i: nat, n: nat)
    requires n > 0
    ensures Wrap(i, n) == i % n
  {
    if i >= n {
      WrapIsModulo(i - n, n);
      ModuloLessOne(i, n, (i - n) / n, (i - n) % n);
    } else {
      ModuloLessOne(i, n, -1, i);
    }
  }

  lemma ModuloLessOne(i: nat, n: nat, q: int, r: nat)
    requires r < n && i - n == n * q + r
    ensures i % n == r
  {
    assert i == n * (q + 1) + r;
    assert i == n * (i / n) + i % n;
    SmallMultiple(n, i / n - (q + 1), r - i % n);
  }

  lemma SmallMultiple(n: int, d: int, x: int)
    requires n * d == x && -n < x < n
    ensures x == 0
  {
    assert d >= 1 ==> n * d >= n;
    assert d <= -1 ==> n * d <= -n;
  }

  lemma {:induction false} IterWraps(f: nat -> nat, s: nat, d: nat, i: nat)
    requires d > 0 && Iter(f, s, d) == s
    ensures Iter(f, s, Wrap(i, d)) == Iter(f, s, i)
  {
    if i >= d {
      IterWraps(f, s, d, i - d);
      IterCompose(f, s, d, i - d);
    }
  }

  /** The first positive return time, when there is a return. */
  lemma FirstReturn(f: nat -> nat, s: nat, n: nat) returns (d: nat)
    requires n > 0 && Iter(f, s, n) == s
    ensures d <= n && FirstReturnAt(f, s, d)
  {
    d := 1;
    while Iter(f, s, d) != s
      invariant 0 < d <= n
      invariant forall i :: 0 < i < d ==> Iter(f, s, i) != s
      decreases n - d
    {
      d := d + 1;
    }
  }

  /** The states visited in the first n steps from s. */
  ghost function Orbit(f: nat -> nat, s: nat, n: nat): (o: seq<nat>)
    ensures |o| == n && forall i :: 0 <= i < n ==> o[i] == Iter(f, s, i)
  {
    seq(n, i requires 0 <= i => Iter(f, s, i))
  }

  lemma {:induction false} NoEarlyMeeting(f: nat -> nat, bound: nat, s: nat, n: nat, a: nat, b: nat)
    requires PermutationOf(f, bound) && s < bound && FirstReturnAt(f, s, n)
    requires a < b < a + n
    ensures Iter(f, s, a) != Iter(f, s, b)
  {
    var d := b - a;
    IterCompose(f, s, d, a);
    IterStays(f, bound, s, d);
    if Iter(f, s, a) == Iter(f, s, b) {
      IterInjective(f, bound, s, Iter(f, s, d), a);
    }
  }

  /** A whole period from any point of the cycle visits pairwise distinct states. */
  lemma {:induction false} OrbitDistinct(f: nat -> nat, bound: nat, s: nat, n: nat, t: nat)
    requires PermutationOf(f, bound) && s < bound && FirstReturnAt(f, s, n)
    ensures Distinct(Orbit(f, Iter(f, s, t), n))
  {
    var z := Iter(f, s, t);
    forall i, j | 0 <= i < j < n ensures Iter(f, z, i) != Iter(f, z, j) {
      IterCompose(f, s, t, i);
      IterCompose(f, s, t, j);
      NoEarlyMeeting(f, bound, s, n, t + i, t + j);
    }
  }

  // ------------------------------------------------------- one cycle, equal shares

  /** f runs through all states below bound in a single cycle. */
  ghost predicate OneCycle(f: nat -> nat, bound: nat) {
    PermutationOf(f, bound) &&
    forall x: nat {:trigger FirstReturnAt(f, x, bound)} :: x < bound ==> FirstReturnAt(f, x, bound)
  }

  /** From every state every state is reached, within one period. */
  lemma {:induction false} Reaches(f: nat -> nat, bound: nat, x: nat, y: nat) returns (n: nat)
    requires OneCycle(f, bound) && x < bound && y < bound
    ensures n < bound && Iter(f, x, n) == y
  {
    assert FirstReturnAt(f, x, bound);
    OrbitDistinct(f, bound, x, bound, 0);
    var o := Orbit(f, x, bound);
    forall i: nat | i < bound ensures o[i] < bound { IterStays(f, bound, x, i); }
    Pigeonhole(o, 0, y);
    n :| 0 <= n < |o| && o[n] == y;
  }

  /** ... and no state comes up twice. */
  lemma {:induction false} ReachesOnce(f: nat -> nat, bound: nat, x: nat, m: nat, n: nat)
    requires OneCycle(f, bound) && x < bound && m < bound && n < bound
    requires Iter(f, x, m) == Iter(f, x, n)
    ensures m == n
  {
    assert FirstReturnAt(f, x, bound);
    if m < n { NoEarlyMeeting(f, bound, x, bound, m, n); }
    if n < m { NoEarlyMeeting(f, bound, x, bound, n, m); }
  }

  ghost predicate Alike(out: nat -> nat, key: nat -> nat, s: nat, t: nat) {
    out(s) == out(t) && key(s) == key(t)
  }

  ghost predicate HasParts(out: nat -> nat, key: nat -> nat, bound: nat, s: nat, o: nat, j: nat) {
    s < bound && out(s) == o && key(s) == j
  }

  /** A state is the same thing as its output and its key, the key ranging below w. */
  ghost predicate Splits(out: nat -> nat, key: nat -> nat, bound: nat, outs: nat, w: nat) {
    Below(key, bound, w) && Determined(out, key, bound) && Complete(out, key, bound, outs, w)
  }

  ghost predicate Below(key: nat -> nat, bound: nat, w: nat) {
    forall s: nat :: s < bound ==> key(s) < w
  }

  ghost predicate Determined(out: nat -> nat, key: nat -> nat, bound: nat) {
    forall s: nat, t: nat :: s < bound && t < bound && Alike(out, key, s, t) ==> s == t
  }

  ghost predicate Complete(out: nat -> nat, key: nat -> nat, bound: nat, outs: nat, w: nat) {
    forall o: nat, j: nat :: o < outs && j < w ==> Occurs(out, key, bound, o, j)
  }

  ghost predicate Occurs(out: nat -> nat, key: nat -> nat, bound: nat, o: nat, j: nat) {
    exists s :: HasParts(out, key, bound, s, o, j)
  }

  /** The steps of one period, from state x, whose output is o. */
  ghost function EmissionTimes(f: nat -> nat, out: nat -> nat, bound: nat, x: nat, o: nat): (r: set<nat>)
    ensures forall n: nat :: n in r <==> n < bound && out(Iter(f, x, n)) == o
  {
    set n: nat | n < bound && out(Iter(f, x, n)) == o
  }

  /** times[j] is when the state with key j comes up. */
  ghost predicate Schedule(f: nat -> nat, out: nat -> nat, key: nat -> nat, bound: nat, x: nat, o: nat,
                           times: seq<nat>)
  {
    forall j :: 0 <= j < |times| ==> times[j] < bound && HasParts(out, key, bound, Iter(f, x, times[j]), o, j)
  }

  lemma {:induction false} ScheduleUpTo(f: nat -> nat, out: nat -> nat, key: nat -> nat, bound: nat,
                                        outs: nat, w: nat, x: nat, o: nat, size: nat) returns (times: seq<nat>)
    requires OneCycle(f, bound) && Splits(out, key, bound, outs, w) && x < bound && o < outs && size <= w
    ensures |times| == size && Schedule(f, out, key, bound, x, o, times)
  {
    if size == 0 {
      times := [];
    } else {
      times := ScheduleUpTo(f, out, key, bound, outs, w, x, o, size - 1);
      assert Occurs(out, key, bound, o, size - 1);
      var s :| HasParts(out, key, bound, s, o, size - 1);
      var n := Reaches(f, bound, x, s);
      times := times + [n];
    }
  }

  /** In one cycle, every output comes up exactly as often as there are keys. */
  lemma {:induction false} EqualShares(f: nat -> nat, out: nat -> nat, key: nat -> nat, bound: nat,
                                       outs: nat, w: nat, x: nat, o: nat)
    requires OneCycle(f, bound) && Splits(out, key, bound, outs, w) && x < bound && o < outs
    ensures |EmissionTimes(f, out, bound, x, o)| == w
  {
    var times := ScheduleUpTo(f, out, key, bound, outs, w, x, o, w);
    var all := EmissionTimes(f, out, bound, x, o);
    assert Distinct(times);
    DistinctCard(times);
    var hit := Elements(times);
    forall n: nat ensures n in all <==> n in hit {
      if n in all {
        var s := Iter(f, x, n);
        IterStays(f, bound, x, n);
        var k := times[key(s)];
        assert Alike(out, key, s, Iter(f, x, k));
        ReachesOnce(f, bound, x, n, k);
      }
    }
    assert hit == all;
  }
}
