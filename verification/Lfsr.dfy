/** The Galois shift register behind the maximum-length sequences
    (tools/gen_generator.py), for every register width and every tap mask whose
    top bit is set. */
module Lfsr {
  import opened Bits
  import opened Sequences
  import opened Counting
  import opened Orbits

  /** One register step: shift out the low bit, fold the mask back in if it was set. */
  function Step(mask: nat, s: nat): nat {
    if s % 2 == 1 then Xor(s / 2, mask) else s / 2
  }

  function Register(mask: nat): nat -> nat {
    s => Step(mask, s)
  }

  /** The output sample of a state: +1 for a set low bit, -1 otherwise. */
  function Sample(s: nat): int {
    if s % 2 == 1 then 1 else -1
  }

  /** The first n samples from state s. */
  function Output(f: nat -> nat, s: nat, n: nat): (o: seq<int>)
    ensures |o| == n && Signs(o)
    ensures forall i :: 0 <= i < n ==> o[i] == Sample(Iter(f, s, i))
  {
    if n == 0 then [] else Output(f, s, n - 1) + [Sample(Iter(f, s, n - 1))]
  }

  ghost predicate TopBitSet(order: nat, mask: nat) {
    order >= 1 && Pow2(order - 1) <= mask < Pow2(order)
  }

  function Period(order: nat): nat {
    Pow2(order) - 1
  }

  /** State 1 comes back after 2^order - 1 steps and not before. */
  ghost predicate MaximalLength(order: nat, mask: nat) {
    FirstReturnAt(Register(mask), 1, Period(order))
  }

  // ------------------------------------------- linear, and a permutation fixing zero

  /** The step is linear over GF(2). */
  lemma {:induction false} StepLinear(mask: nat, a: nat, b: nat)
    ensures Step(mask, Xor(a, b)) == Xor(Step(mask, a), Step(mask, b))
  {
    var x, y, c := a / 2, b / 2, Xor(a, b);
    assert c % 2 == (a + b) % 2 && c / 2 == Xor(x, y) by { XorParts(a, b); }
    ParityOfSum(a, b);
    FoldMask(mask, x, y);
  }

  /** Folding the mask into either half, or both, of an exclusive-or. */
  lemma FoldMask(mask: nat, x: nat, y: nat)
    ensures Xor(Xor(x, mask), Xor(y, mask)) == Xor(x, y)
    ensures Xor(Xor(x, mask), y) == Xor(Xor(x, y), mask) == Xor(x, Xor(y, mask))
  {
    XorSwap(x, mask, y, mask);
    XorSelf(mask);
    XorZero(Xor(x, y));
    XorZero(y);
    XorSwap(x, mask, y, 0);
    XorZero(mask);
    XorAssoc(x, y, mask);
  }

  /** Bit j of the next state is bit j + 1 of the state, turned over where the mask is set if
      the bit shifted out was set. */
  lemma {:induction false} StepBits(mask: nat, s: nat, j: nat)
    ensures Bit(Step(mask, s), j) == (Bit(s, j + 1) + Bit(s, 0) * Bit(mask, j)) % 2
  {
    if s % 2 == 1 { BitOfXor(s / 2, mask, j); }
  }

  ghost predicate Linear(f: nat -> nat) {
    forall a: nat, b: nat :: f(Xor(a, b)) == Xor(f(a), f(b))
  }

  lemma RegisterLinear(mask: nat)
    ensures Linear(Register(mask))
  {
    forall a: nat, b: nat ensures Register(mask)(Xor(a, b)) == Xor(Register(mask)(a), Register(mask)(b)) {
      StepLinear(mask, a, b);
    }
  }

  lemma {:induction false} IterLinear(f: nat -> nat, a: nat, b: nat, n: nat)
    requires Linear(f)
    ensures Iter(f, Xor(a, b), n) == Xor(Iter(f, a, n), Iter(f, b, n))
  {
    if n > 0 { IterLinear(f, a, b, n - 1); }
  }

  /** The step keeps the register width and maps only zero to zero. */
  lemma {:induction false} StepStays(order: nat, mask: nat, s: nat)
    requires TopBitSet(order, mask) && s < Pow2(order)
    ensures Step(mask, s) < Pow2(order)
    ensures Step(mask, s) == 0 <==> s == 0
  {
    if s % 2 == 1 { XorTopBit(s / 2, mask, order - 1); }
  }

  /** The step permutes the register's states, and only zero goes to zero. */
  lemma {:induction false} StepPermutes(order: nat, mask: nat)
    requires TopBitSet(order, mask)
    ensures PermutationOf(Register(mask), Pow2(order))
    ensures forall s: nat :: s < Pow2(order) ==> (Step(mask, s) == 0 <==> s == 0)
  {
    forall s: nat | s < Pow2(order) ensures Step(mask, s) < Pow2(order) && (Step(mask, s) == 0 <==> s == 0) {
      StepStays(order, mask, s);
    }
    forall a: nat, b: nat | a < Pow2(order) && b < Pow2(order) && Step(mask, a) == Step(mask, b)
      ensures !Merges(Register(mask), a, b)
    {
      StepLinear(mask, a, b);
      XorSelf(Step(mask, a));
      XorBound(a, b, order);
      StepStays(order, mask, Xor(a, b));
      XorZeroEqual(a, b);
    }
  }

  lemma {:induction false} NonzeroStays(order: nat, mask: nat, s: nat, n: nat)
    requires TopBitSet(order, mask) && 0 < s < Pow2(order)
    ensures 0 < Iter(Register(mask), s, n) < Pow2(order)
  {
    if n > 0 {
      NonzeroStays(order, mask, s, n - 1);
      StepStays(order, mask, Iter(Register(mask), s, n - 1));
    }
  }

  lemma PeriodSize(order: nat)
    requires order >= 1
    ensures 1 < Pow2(order) && Period(order) == 2 * Pow2(order - 1) - 1
  {
    assert Pow2(order) == 2 * Pow2(order - 1);
  }

  /** A maximal-length register visits, from any point of its cycle, each nonzero
      state exactly once per period. */
  lemma OrbitArranges(order: nat, mask: nat, t: nat)
    requires TopBitSet(order, mask) && MaximalLength(order, mask)
    ensures var o := Orbit(Register(mask), Iter(Register(mask), 1, t), Period(order));
            Distinct(o) && Within(o, 1, 1 + Period(order))
  {
    var f, n := Register(mask), Period(order);
    var s := Iter(f, 1, t);
    PeriodSize(order);
    StepPermutes(order, mask);
    OrbitDistinct(f, Pow2(order), 1, n, t);
    NonzeroStays(order, mask, 1, t);
    forall i | 0 <= i < n ensures 1 <= Iter(f, s, i) < 1 + n {
      NonzeroStays(order, mask, s, i);
    }
  }

  /** Every nonzero state lies on the cycle of state 1. */
  lemma OrbitCovers(order: nat, mask: nat, z: nat) returns (t: nat)
    requires TopBitSet(order, mask) && MaximalLength(order, mask)
    requires 0 < z < Pow2(order)
    ensures t < Period(order) && Iter(Register(mask), 1, t) == z
  {
    OrbitArranges(order, mask, 0);
    var o := Orbit(Register(mask), 1, Period(order));
    Pigeonhole(o, 1, z);
    t :| 0 <= t < |o| && o[t] == z;
  }

  // ------------------------------------------------------------------ balance

  ghost predicate SamplesOf(samples: seq<int>, states: seq<nat>) {
    |samples| == |states| && forall i :: 0 <= i < |states| ==> samples[i] == Sample(states[i])
  }

  lemma {:induction false} SumInserted(left: seq<int>, x: int, right: seq<int>)
    ensures Sum(left + [x] + right) == Sum(left + right) + x
  {
    SumConcat(left, right);
    SumConcat(left + [x], right);
    assert (left + [x])[..|left|] == left;
  }

  ghost function Without<T>(s: seq<T>, k: nat): (r: seq<T>)
    requires k < |s|
    ensures |r| == |s| - 1
    ensures forall i :: 0 <= i < |r| ==> r[i] == s[if i < k then i else i + 1]
  {
    s[..k] + s[k + 1..]
  }

  lemma {:induction false} ArrangementWithoutLargest(states: seq<nat>, k: nat)
    requires Distinct(states) && Within(states, 1, 1 + |states|)
    requires k < |states| == states[k]
    ensures Distinct(Without(states, k)) && Within(Without(states, k), 1, |states|)
  {
    var rest := Without(states, k);
    forall i | 0 <= i < |rest| ensures 1 <= rest[i] < |states| {
      assert rest[i] == states[if i < k then i else i + 1];
    }
  }

  lemma {:induction false} SumWithout(s: seq<int>, k: nat)
    requires k < |s|
    ensures Sum(s) == Sum(Without(s, k)) + s[k]
  {
    var left, right := s[..k], s[k + 1..];
    assert s == left + [s[k]] + right;
    SumInserted(left, s[k], right);
  }

  /** The samples of any arrangement of 1..n sum to n % 2. */
  lemma {:induction false} SumOfArrangement(states: seq<nat>, samples: seq<int>)
    requires Distinct(states) && Within(states, 1, 1 + |states|) && SamplesOf(samples, states)
    ensures Sum(samples) == |states| % 2
    decreases |states|
  {
    var n := |states|;
    if n > 0 {
      Pigeonhole(states, 1, n);
      var k :| 0 <= k < n && states[k] == n;
      ArrangementWithoutLargest(states, k);
      SumOfArrangement(Without(states, k), Without(samples, k));
      SumWithout(samples, k);
      SampleAddsParity(n);
    }
  }

  lemma SampleAddsParity(n: nat)
    requires n > 0
    ensures (n - 1) % 2 + Sample(n) == n % 2
  {
  }

  lemma OddMod(h: nat)
    requires h > 0
    ensures (2 * h - 1) % 2 == 1
  {
  }

  lemma {:induction false} ArrangedOutputSum(f: nat -> nat, s: nat, n: nat)
    requires Distinct(Orbit(f, s, n)) && Within(Orbit(f, s, n), 1, 1 + n)
    ensures Sum(Output(f, s, n)) == n % 2
  {
    SumOfArrangement(Orbit(f, s, n), Output(f, s, n));
  }

  /** From any point of the cycle, a whole period of samples sums to one. */
  lemma {:induction false} PeriodSum(order: nat, mask: nat, t: nat)
    requires TopBitSet(order, mask) && MaximalLength(order, mask)
    ensures Sum(Output(Register(mask), Iter(Register(mask), 1, t), Period(order))) == 1
  {
    var f, n := Register(mask), Period(order);
    var s := Iter(f, 1, t);
    OrbitArranges(order, mask, t);
    PeriodSize(order);
    OddMod(Pow2(order - 1));
    ArrangedOutputSum(f, s, n);
  }

  /** A maximal-length period holds exactly 2^(order-1) ones. */
  lemma Balanced(order: nat, mask: nat)
    requires TopBitSet(order, mask) && MaximalLength(order, mask)
    ensures BalanceCheck(order, mask)
  {
    PeriodSum(order, mask, 0);
    SumOfSigns(Output(Register(mask), 1, Period(order)));
    PeriodSize(order);
  }

  // ------------------------------------ the script's two checks are the right ones

  lemma MultipleSplit(q: nat, d: nat)
    ensures (q + 1) * d == d + q * d
  {
  }

  /** How many of the first n states from s have their low bit set. */
  ghost function OddStates(f: nat -> nat, s: nat, n: nat): nat {
    if n == 0 then 0 else OddStates(f, s, n - 1) + (if Sample(Iter(f, s, n - 1)) == 1 then 1 else 0)
  }

  lemma {:induction false} OnesAreOddStates(f: nat -> nat, s: nat, n: nat)
    ensures Ones(Output(f, s, n)) == OddStates(f, s, n)
  {
    if n > 0 {
      OnesAreOddStates(f, s, n - 1);
      assert Output(f, s, n)[..n - 1] == Output(f, s, n - 1);
    }
  }

  lemma {:induction false} OddStatesSplit(f: nat -> nat, s: nat, m: nat, n: nat)
    ensures OddStates(f, s, m + n) == OddStates(f, s, m) + OddStates(f, Iter(f, s, m), n)
  {
    if n > 0 {
      OddStatesSplit(f, s, m, n - 1);
      IterCompose(f, s, m, n - 1);
    }
  }

  /** Any return repeats the first return period a whole number of times. */
  lemma {:induction false} ReturnRepeats(f: nat -> nat, s: nat, d: nat, n: nat) returns (q: nat)
    requires FirstReturnAt(f, s, d) && Iter(f, s, n) == s
    ensures n == q * d
    ensures OddStates(f, s, n) == q * OddStates(f, s, d)
    decreases n
  {
    if n == 0 {
      q := 0;
    } else {
      IterCompose(f, s, d, n - d);
      var r := ReturnRepeats(f, s, d, n - d);
      OddStatesSplit(f, s, d, n - d);
      MultipleSplit(r, d);
      MultipleSplit(r, OddStates(f, s, d));
      q := r + 1;
    }
  }

  ghost predicate ReturnCheck(order: nat, mask: nat) {
    Iter(Register(mask), 1, Period(order)) == 1
  }

  ghost predicate BalanceCheck(order: nat, mask: nat)
    requires order >= 1
  {
    Ones(Output(Register(mask), 1, Period(order))) == Pow2(order - 1)
  }

  /** What the script checks -- the state is 1 again after a period, and the ones
      count is 2^(order-1) -- holds exactly for the maximal-length masks.  The first
      check alone is not enough (see `ReturnAloneIsNotEnough`). */
  lemma {:induction false} ChecksDecideMaximality(order: nat, mask: nat)
    requires TopBitSet(order, mask)
    ensures ReturnCheck(order, mask) && BalanceCheck(order, mask) <==> MaximalLength(order, mask)
  {
    if MaximalLength(order, mask) {
      Balanced(order, mask);
    }
    if ReturnCheck(order, mask) && BalanceCheck(order, mask) {
      ChecksImplyMaximal(order, mask);
    }
  }

  lemma {:induction false} ChecksImplyMaximal(order: nat, mask: nat)
    requires order >= 1 && ReturnCheck(order, mask) && BalanceCheck(order, mask)
    ensures MaximalLength(order, mask)
  {
    var n, k := Period(order), order - 1;
    assert n == 2 * Pow2(k) - 1 by { PeriodSize(order); }
    assert OddStates(Register(mask), 1, n) == Pow2(k) by { OnesAreOddStates(Register(mask), 1, n); }
    BalancedReturnIsFirst(Register(mask), 1, n, k);
  }

  /** An odd return time whose period holds a power-of-two number of ones is the
      first return: it repeats the first period an odd number of times. */
  lemma {:induction false} BalancedReturnIsFirst(f: nat -> nat, s: nat, n: nat, k: nat)
    requires n == 2 * Pow2(k) - 1 && Iter(f, s, n) == s && OddStates(f, s, n) == Pow2(k)
    ensures FirstReturnAt(f, s, n)
  {
    var d := FirstReturn(f, s, n);
    var q := ReturnRepeats(f, s, d, n);
    OddFactor(q, d, Pow2(k));
    OddDividesPow2(q, OddStates(f, s, d), k);
  }

  lemma OddFactor(q: nat, d: nat, h: nat)
    requires q * d == 2 * h - 1
    ensures q % 2 == 1
  {
    assert q * d == 2 * (q / 2 * d) + q % 2 * d;
  }

  /** Order 4 with all taps: the state is 1 again after 15 steps, but it already was
      after 5, and the balance check is what rejects it. */
  lemma ReturnAloneIsNotEnough()
    ensures TopBitSet(4, 15) && ReturnCheck(4, 15)
    ensures !BalanceCheck(4, 15) && !MaximalLength(4, 15)
  {
    var f := Register(15);
    assert Pow2(0) == 1 && Pow2(1) == 2 && Pow2(2) == 4 && Pow2(3) == 8 && Pow2(4) == 16;
    assert f(1) == 15 by { XorZero(15); }
    assert f(15) == 8 by {
      assert Xor(0, 1) == 1;
      assert Xor(1, 3) == 2;
      assert Xor(3, 7) == 4;
      assert Xor(7, 15) == 8;
    }
    assert f(8) == 4 && f(4) == 2 && f(2) == 1;
    assert Iter(f, 1, 1) == 15;
    assert Iter(f, 1, 2) == 8;
    assert Iter(f, 1, 3) == 4;
    assert Iter(f, 1, 4) == 2;
    assert Iter(f, 1, 5) == 1;
    IterWraps(f, 1, 5, 15);
    ChecksDecideMaximality(4, 15);
  }

  // ---------------------------------------------------------- autocorrelation

  /** The product of two +1/-1 samples. */
  function SignProduct(x: int, y: int): int {
    if x == y then 1 else -1
  }

  lemma SignProductIsProduct(x: int, y: int)
    requires (x == 1 || x == -1) && (y == 1 || y == -1)
    ensures SignProduct(x, y) == x * y
  {
  }

  /** The first n products the circular correlation sums: a[(i + shift) % |a|] * b[i]. */
  function FirstProducts(a: seq<int>, b: seq<int>, shift: nat, n: nat): (p: seq<int>)
    requires n <= |a| == |b|
    ensures |p| == n
    ensures forall i {:trigger p[i]} :: 0 <= i < n ==> p[i] == SignProduct(a[Wrap(i + shift, |a|)], b[i])
  {
    if n == 0 then []
    else FirstProducts(a, b, shift, n - 1) + [SignProduct(a[Wrap(n - 1 + shift, |a|)], b[n - 1])]
  }

  function Products(a: seq<int>, b: seq<int>, shift: nat): seq<int>
    requires |a| == |b|
  {
    FirstProducts(a, b, shift, |a|)
  }

  /** Circular cross-correlation of two +1/-1 sequences at a shift, as the inverse FFT
      of the product spectrum gives it in exact arithmetic. */
  function Correlation(a: seq<int>, b: seq<int>, shift: nat): int
    requires |a| == |b|
  {
    Sum(Products(a, b, shift))
  }

  /** The sample product of two states is the negated sample of their difference. */
  lemma {:induction false} SampleOfXor(a: nat, b: nat)
    ensures SignProduct(Sample(a), Sample(b)) == -Sample(Xor(a, b))
  {
    var c := Xor(a, b);
    assert c % 2 == (a + b) % 2 by { XorParts(a, b); }
    SampleProduct(a, b, c);
  }

  lemma SampleProduct(a: nat, b: nat, c: nat)
    requires c % 2 == (a + b) % 2
    ensures SignProduct(Sample(a), Sample(b)) == -Sample(c)
  {
  }

  lemma {:induction false} SumNegated(a: seq<int>, b: seq<int>)
    requires |a| == |b| && forall i :: 0 <= i < |a| ==> b[i] == -a[i]
    ensures Sum(b) == -Sum(a)
  {
    if a != [] { SumNegated(a[..|a| - 1], b[..|b| - 1]); }
  }

  /** Multiplying a sequence by its own shift gives, up to sign, the sequence started
      at the difference of the two states. */
  lemma ShiftAndAdd(mask: nat, shift: nat, n: nat, i: nat)
    requires n > 0 && Iter(Register(mask), 1, n) == 1 && i < n
    ensures var f := Register(mask); var o := Output(f, 1, n);
            SignProduct(o[Wrap(i + shift, n)], o[i]) == -Sample(Iter(f, Xor(Iter(f, 1, shift), 1), i))
  {
    var f := Register(mask);
    var far := Iter(f, 1, shift);
    IterWraps(f, 1, n, i + shift);
    IterCompose(f, 1, shift, i);
    RegisterLinear(mask);
    IterLinear(f, far, 1, i);
    SampleOfXor(Iter(f, far, i), Iter(f, 1, i));
  }

  /** The autocorrelation of a maximal-length sequence is -1 at every nonzero shift. */
  lemma {:induction false} Autocorrelation(order: nat, mask: nat, shift: nat)
    requires TopBitSet(order, mask) && MaximalLength(order, mask)
    requires 0 < shift < Period(order)
    ensures var o := Output(Register(mask), 1, Period(order)); Correlation(o, o, shift) == -1
  {
    var f, n := Register(mask), Period(order);
    var o := Output(f, 1, n);
    PeriodSize(order);
    var far := Iter(f, 1, shift);
    var z := Xor(far, 1);
    NonzeroStays(order, mask, 1, shift);
    XorBound(far, 1, order);
    if z == 0 { XorZeroEqual(far, 1); }
    var t := OrbitCovers(order, mask, z);
    var phase := Output(f, z, n);
    var p := Products(o, o, shift);
    forall i | 0 <= i < n ensures p[i] == -phase[i] {
      ShiftAndAdd(mask, shift, n, i);
    }
    PeriodSum(order, mask, t);
    SumNegated(phase, p);
  }
}
