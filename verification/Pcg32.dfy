/** The congruential state update of PCG32 (tools/gen_generator.py), modulo any power
    of two: an odd increment and a multiplier that is 1 modulo 4 give a single cycle
    through all states (the Hull-Dobell theorem for a power-of-two modulus). */
module Congruential {
  import opened Bits
  import opened Counting
  import opened Orbits

  /** The state update before reduction. */
  function Raw(a: nat, c: nat, x: nat, n: nat): nat {
    if n == 0 then x else a * Raw(a, c, x, n - 1) + c
  }

  /** 1 + a + ... + a^(n-1). */
  ghost function Geometric(a: nat, n: nat): nat {
    if n == 0 then 0 else a * Geometric(a, n - 1) + 1
  }

  ghost function Power(a: nat, n: nat): nat {
    if n == 0 then 1 else a * Power(a, n - 1)
  }

  /** x is a multiple of 2^k. */
  ghost predicate Multiple(k: nat, x: nat) {
    k == 0 || (x % 2 == 0 && Multiple(k - 1, x / 2))
  }

  // ------------------------------------------------- powers of two and divisibility

  lemma {:induction false} MultipleOfOdd(k: nat, x: nat, odd: nat)
    requires odd % 2 == 1
    ensures Multiple(k, x * odd) <==> Multiple(k, x)
  {
    if k > 0 {
      OddTimes(x, odd);
      if x % 2 == 0 { MultipleOfOdd(k - 1, x / 2, odd); }
    }
  }

  lemma OddTimes(x: nat, odd: nat)
    requires odd % 2 == 1
    ensures (x * odd) % 2 == x % 2
    ensures x % 2 == 0 ==> x * odd / 2 == x / 2 * odd
  {
    var h, r, g := x / 2, x % 2, odd / 2;
    assert x == 2 * h + r && odd == 2 * g + 1;
    assert x * odd == 2 * (h * odd + r * g) + r;
    assert r == 0 ==> x * odd == 2 * (h * odd);
  }

  lemma {:induction false} MultipleOfPow2(k: nat)
    ensures Multiple(k, Pow2(k))
  {
    if k > 0 {
      MultipleOfPow2(k - 1);
      DoublePlusBit(Pow2(k - 1), 0);
    }
  }

  lemma {:induction false} SmallMultiple(k: nat, x: nat)
    requires x < Pow2(k) && Multiple(k, x)
    ensures x == 0
  {
    if k > 0 { SmallMultiple(k - 1, x / 2); }
  }

  lemma {:induction false} MultipleSum(k: nat, x: nat, y: nat)
    requires Multiple(k, x)
    ensures Multiple(k, x + y) <==> Multiple(k, y)
  {
    if k > 0 {
      EvenPlus(x, y);
      MultipleSum(k - 1, x / 2, y / 2);
    }
  }

  lemma EvenPlus(x: nat, y: nat)
    requires x % 2 == 0
    ensures (x + y) % 2 == y % 2
    ensures y % 2 == 0 ==> (x + y) / 2 == x / 2 + y / 2
  {
  }

  lemma {:induction false} MultipleZero(k: nat)
    ensures Multiple(k, 0)
  {
    if k > 0 { MultipleZero(k - 1); }
  }

  lemma {:induction false} MultipleTimes(k: nat, q: nat)
    ensures Multiple(k, Pow2(k) * q)
  {
    if q == 0 {
      MultipleZero(k);
    } else {
      MultipleTimes(k, q - 1);
      MultipleOfPow2(k);
      assert Pow2(k) * q == Pow2(k) * (q - 1) + Pow2(k);
      MultipleSum(k, Pow2(k) * (q - 1), Pow2(k));
    }
  }

  // ---------------------------------------------------------- the geometric series

  /** n steps move x by a geometric series times a fixed odd number. */
  lemma {:induction false} RawMoves(a: nat, c: nat, x: nat, n: nat)
    requires a >= 1
    ensures Raw(a, c, x, n) == x + Geometric(a, n) * ((a - 1) * x + c)
  {
    if n > 0 {
      var g, w := Geometric(a, n - 1), (a - 1) * x + c;
      RawMoves(a, c, x, n - 1);
      MoveOnce(a, c, x, g, w);
    }
  }

  lemma MoveOnce(a: nat, c: nat, x: nat, g: nat, w: int)
    requires w == (a - 1) * x + c
    ensures a * (x + g * w) + c == x + (a * g + 1) * w
  {
    assert a * (x + g * w) == a * x + a * g * w by {
      assert a * (x + g * w) == a * x + a * (g * w);
      assert a * (g * w) == a * g * w;
    }
    assert (a * g + 1) * w == a * g * w + w;
    assert (a - 1) * x == a * x - x;
  }

  lemma {:induction false} GeometricAdds(a: nat, m: nat, n: nat)
    ensures Geometric(a, m + n) == Power(a, n) * Geometric(a, m) + Geometric(a, n)
  {
    if n > 0 {
      var p, g, h := Power(a, n - 1), Geometric(a, m), Geometric(a, n - 1);
      GeometricAdds(a, m, n - 1);
      Distribute(a, p, g, h);
    }
  }

  lemma Distribute(a: nat, p: nat, g: nat, h: nat)
    ensures a * (p * g + h) + 1 == a * p * g + (a * h + 1)
  {
    assert a * (p * g + h) == a * (p * g) + a * h;
    assert a * (p * g) == a * p * g;
  }

  /** Powers of a number that is 1 modulo 4 are 1 modulo 4. */
  lemma {:induction false} PowerModFour(a: nat, n: nat) returns (q: nat)
    requires a % 4 == 1
    ensures Power(a, n) == 4 * q + 1
  {
    if n == 0 {
      q := 0;
    } else {
      var r := PowerModFour(a, n - 1);
      q := OneModFour(a / 4, r);
    }
  }

  lemma OneModFour(b: nat, r: nat) returns (q: nat)
    ensures (4 * b + 1) * (4 * r + 1) == 4 * q + 1
  {
    q := 4 * (b * r) + b + r;
    assert (4 * b + 1) * (4 * r + 1) == 16 * (b * r) + 4 * b + 4 * r + 1;
  }

  lemma {:induction false} GeometricParity(a: nat, n: nat)
    requires a % 2 == 1
    ensures Geometric(a, n) % 2 == n % 2
  {
    if n > 0 {
      GeometricParity(a, n - 1);
      ParityStep(a, Geometric(a, n - 1), n);
    }
  }

  lemma ParityStep(a: nat, g: nat, n: nat)
    requires a % 2 == 1 && n > 0 && g % 2 == (n - 1) % 2
    ensures (a * g + 1) % 2 == n % 2
  {
    var h := a / 2;
    assert a * g == 2 * (h * g) + g;
    NextParity(h * g, g, n);
  }

  lemma NextParity(t: nat, g: nat, n: nat)
    requires n > 0 && g % 2 == (n - 1) % 2
    ensures (2 * t + g + 1) % 2 == n % 2
  {
  }

  /** The series has exactly as many factors of two as its length. */
  lemma {:induction false} GeometricMultiple(a: nat, n: nat, k: nat)
    requires a % 4 == 1
    ensures Multiple(k, Geometric(a, n)) <==> Multiple(k, n)
    decreases k
  {
    if k > 0 {
      GeometricParity(a, n);
      if n % 2 == 0 {
        var odd := EvenSeries(a, n);
        MultipleOfOdd(k - 1, Geometric(a, n / 2), odd);
        GeometricMultiple(a, n / 2, k - 1);
      }
    }
  }

  /** A series of even length is twice an odd multiple of the series of half the length. */
  lemma {:induction false} EvenSeries(a: nat, n: nat) returns (odd: nat)
    requires a % 4 == 1 && n % 2 == 0
    ensures odd % 2 == 1 && Geometric(a, n) / 2 == Geometric(a, n / 2) * odd
  {
    var m := n / 2;
    var q := PowerModFour(a, m);
    odd := 2 * q + 1;
    GeometricAdds(a, m, m);
    Doubling(Geometric(a, m), q);
  }

  lemma Doubling(g: nat, q: nat)
    ensures (4 * q + 1) * g + g == 2 * (g * (2 * q + 1))
  {
    assert (4 * q + 1) * g == 4 * (q * g) + g;
    assert g * (2 * q + 1) == 2 * (q * g) + g;
  }

  // ------------------------------------------------------------------ the cycle

  /** The reduced state update modulo 2^k. */
  function Update(a: nat, c: nat, k: nat): nat -> nat {
    x => (x * a + c) % Pow2(k)
  }

  lemma Reduced(x: nat, m: nat) returns (q: nat)
    requires m > 0
    ensures x == m * q + x % m
  {
    q := x / m;
  }

  /** Numbers congruent modulo 2^k differ by a multiple of 2^k, and conversely. */
  lemma {:induction false} CongruentBelow(k: nat, x: nat, y: nat)
    requires x < Pow2(k) && x <= y
    ensures y % Pow2(k) == x <==> Multiple(k, y - x)
  {
    var m := Pow2(k);
    var q := Reduced(y, m);
    var r := y % m;
    MultipleTimes(k, q);
    if r >= x {
      MultipleSum(k, m * q, r - x);
      if Multiple(k, r - x) { SmallMultiple(k, r - x); }
    } else if Multiple(k, y - x) {
      // y - x = m q - (x - r), so x - r would be a multiple too.
      MultipleSum(k, y - x, x - r);
      SmallMultiple(k, x - r);
    }
  }

  /** Reducing at every step is reducing at the end. */
  lemma {:induction false} IterIsRaw(a: nat, c: nat, k: nat, x: nat, n: nat)
    requires x < Pow2(k)
    ensures Iter(Update(a, c, k), x, n) == Raw(a, c, x, n) % Pow2(k)
  {
    var m := Pow2(k);
    if n == 0 {
      SmallModulo(x, m);
    } else {
      IterIsRaw(a, c, k, x, n - 1);
      ModuloOnce(a, c, Raw(a, c, x, n - 1), m);
    }
  }

  lemma SmallModulo(x: nat, m: nat)
    requires x < m
    ensures x % m == x
  {
    QuotientUnique(x, m, 0, x);
  }

  lemma ModuloOnce(a: nat, c: nat, y: nat, m: nat)
    requires m > 0
    ensures (y % m * a + c) % m == (a * y + c) % m
  {
    var q, r := y / m, y % m;
    var z := r * a + c;
    assert a * y + c == m * (a * q) + z by {
      assert y == m * q + r;
      assert a * (m * q + r) == m * (a * q) + r * a;
    }
    assert z == m * (z / m) + z % m;
    assert a * y + c == m * (a * q + z / m) + z % m;
    QuotientUnique(a * y + c, m, a * q + z / m, z % m);
  }

  lemma OddStride(a: nat, c: nat, x: nat)
    requires a % 2 == 1 && c % 2 == 1
    ensures ((a - 1) * x + c) % 2 == 1
  {
    var h, e := a / 2, c / 2;
    assert (a - 1) * x == 2 * (h * x);
    assert (a - 1) * x + c == 2 * (h * x + e) + 1;
  }

  lemma {:induction false} RawReturnTime(a: nat, c: nat, k: nat, x: nat, n: nat)
    requires a % 4 == 1 && c % 2 == 1 && x < Pow2(k)
    ensures Raw(a, c, x, n) % Pow2(k) == x <==> Multiple(k, n)
  {
    var g, w := RawMovesOdd(a, c, k, x, n);
    MovedBy(k, x, Raw(a, c, x, n), g, w);
  }

  /** n steps move x by an odd multiple of a number with the same factors of two as n. */
  lemma {:induction false} RawMovesOdd(a: nat, c: nat, k: nat, x: nat, n: nat) returns (g: nat, w: nat)
    requires a % 4 == 1 && c % 2 == 1
    ensures w % 2 == 1 && Raw(a, c, x, n) == x + g * w
    ensures Multiple(k, g) <==> Multiple(k, n)
  {
    OddStride(a, c, x);
    RawMoves(a, c, x, n);
    GeometricMultiple(a, n, k);
    g, w := Geometric(a, n), (a - 1) * x + c;
  }

  /** n steps return to x exactly when n is a multiple of 2^k. */
  lemma {:induction false} ReturnTime(a: nat, c: nat, k: nat, x: nat, n: nat)
    requires a % 4 == 1 && c % 2 == 1 && x < Pow2(k)
    ensures Iter(Update(a, c, k), x, n) == x <==> Multiple(k, n)
  {
    RawReturnTime(a, c, k, x, n);
    IterIsRaw(a, c, k, x, n);
  }

  lemma {:induction false} MovedBy(k: nat, x: nat, y: nat, g: nat, w: nat)
    requires x < Pow2(k) && w % 2 == 1 && y == x + g * w
    ensures y % Pow2(k) == x <==> Multiple(k, g)
  {
    assert g * w >= 0;
    CongruentBelow(k, x, y);
    MultipleOfOdd(k, g, w);
  }

  /** From every state the first return takes exactly 2^k steps. */
  lemma {:induction false} FullPeriod(a: nat, c: nat, k: nat, x: nat)
    requires a % 4 == 1 && c % 2 == 1 && x < Pow2(k)
    ensures FirstReturnAt(Update(a, c, k), x, Pow2(k))
  {
    ReturnTime(a, c, k, x, Pow2(k));
    MultipleOfPow2(k);
    forall i | 0 < i < Pow2(k) ensures Iter(Update(a, c, k), x, i) != x {
      ReturnTime(a, c, k, x, i);
      if Multiple(k, i) { SmallMultiple(k, i); }
    }
  }

  /** The update permutes the states: it is undone by 2^k - 1 further steps. */
  lemma {:induction false} UpdatePermutes(a: nat, c: nat, k: nat)
    requires a % 4 == 1 && c % 2 == 1
    ensures PermutationOf(Update(a, c, k), Pow2(k))
  {
    var f, n := Update(a, c, k), Pow2(k);
    forall x: nat, y: nat | x < n && y < n ensures !Merges(f, x, y) {
      FullPeriod(a, c, k, x);
      FullPeriod(a, c, k, y);
      IterCompose(f, x, 1, n - 1);
      IterCompose(f, y, 1, n - 1);
      assert Iter(f, x, 1) == f(Iter(f, x, 0)) && Iter(f, y, 1) == f(Iter(f, y, 0));
    }
  }

  /** Shifting the argument keeps different arguments apart. */
  lemma {:induction false} ShiftedDiffer(a: nat, c: nat, k: nat, x: nat, y: nat)
    requires a % 4 == 1 && c % 2 == 1 && x < Pow2(k) && y < Pow2(k) && x != y
    ensures (a * (c + x) + c) % Pow2(k) != (a * (c + y) + c) % Pow2(k)
  {
    var m := Pow2(k);
    var p, q := (c + x) % m, (c + y) % m;
    ModuloOnce(a, c, c + x, m);
    ModuloOnce(a, c, c + y, m);
    if p == q { SameResidue(c, x, y, m); }
    UpdatePermutes(a, c, k);
    assert !Merges(Update(a, c, k), p, q);
  }

  lemma {:induction false} SameResidue(c: nat, a: nat, b: nat, m: nat)
    requires a < m && b < m && (c + a) % m == (c + b) % m
    ensures a == b
  {
    var p, q := (c + a) / m, (c + b) / m;
    assert c + a == m * p + (c + a) % m && c + b == m * q + (c + b) % m;
    assert m * (p - q) == a - b;
    Orbits.SmallMultiple(m, p - q, a - b);
  }

  /** A single cycle through all 2^k states. */
  lemma {:induction false} SingleCycle(a: nat, c: nat, k: nat)
    requires a % 4 == 1 && c % 2 == 1
    ensures OneCycle(Update(a, c, k), Pow2(k))
  {
    UpdatePermutes(a, c, k);
    forall x: nat | x < Pow2(k) ensures FirstReturnAt(Update(a, c, k), x, Pow2(k)) {
      FullPeriod(a, c, k, x);
    }
  }
}

/** PCG32 (pcg_setseq_64_xsh_rr_32): the generator object and its output permutation. */
module Pcg32 {
  import opened Bits
  import opened Counting
  import opened Orbits
  import opened Congruential

  const MULTIPLIER: nat := 6364136223846793005
  const STATE_BITS: nat := 64
  const WORD_BITS: nat := 32
  const DROPPED_BITS: nat := 27
  const MIXED_BITS: nat := STATE_BITS - DROPPED_BITS
  const TRIPLE_SHIFT: nat := 54

  /** `((old >> 18) ^ old)` restricted to the bits above the 27 dropped ones. */
  function XorShift(h: nat): nat {
    Xor(Shr(h, 18), h)
  }

  function UnXorShift(y: nat): nat {
    Xor(y, Xor(Shr(y, 18), Shr(y, 36)))
  }

  /** `((x >> r) | (x << ((-r) & 31))) & 0xFFFFFFFF`. */
  function RotateRight(x: nat, r: nat): nat
    requires r < 32
  {
    Low(Or(Shr(x, r), Shl(x, if r == 0 then 0 else 32 - r)), 32)
  }

  /** The 32-bit output of a 64-bit state. */
  function OutputOf(state: nat): nat
    requires state < Pow2(STATE_BITS)
  {
    var xorshifted := Low(Shr(Xor(Shr(state, 18), state), 27), 32);
    var rot := Shr(state, 59);
    ShrBound(state, 59, 5);
    assert Pow2(5) == 32;
    RotateRight(xorshifted, rot)
  }

  // ------------------------------------------------------------------ rotation

  lemma {:induction false} LowOr(a: nat, b: nat, k: nat)
    ensures Low(Or(a, b), k) == Or(Low(a, k), Low(b, k))
  {
    if k > 0 {
      OrParts(a, b);
      LowOr(a / 2, b / 2, k - 1);
      OrJoin(Low(a / 2, k - 1), a % 2, Low(b / 2, k - 1), b % 2);
    }
  }

  lemma {:induction false} OrParts(a: nat, b: nat)
    ensures Or(a, b) / 2 == Or(a / 2, b / 2)
    ensures Or(a, b) % 2 == if a % 2 == 1 || b % 2 == 1 then 1 else 0
  {
    DoublePlusBit(Or(a / 2, b / 2), if a % 2 == 1 || b % 2 == 1 then 1 else 0);
  }

  lemma {:induction false} OrJoin(a: nat, x: nat, b: nat, y: nat)
    requires x < 2 && y < 2
    ensures Or(2 * a + x, 2 * b + y) == 2 * Or(a, b) + if x == 1 || y == 1 then 1 else 0
  {
    DoublePlusBit(a, x);
    DoublePlusBit(b, y);
    OrParts(2 * a + x, 2 * b + y);
  }

  /** Bits that do not overlap add up. */
  lemma {:induction false} OrDisjoint(a: nat, b: nat, k: nat)
    requires a < Pow2(k)
    ensures Or(a, Shl(b, k)) == a + Shl(b, k)
  {
    if k == 0 {
      OrZero(b);
    } else {
      OrDisjoint(a / 2, b, k - 1);
      OrJoin(a / 2, a % 2, Shl(b, k - 1), 0);
    }
  }

  lemma {:induction false} OrZero(b: nat)
    ensures Or(0, b) == b
  {
    if b > 0 { OrZero(b / 2); }
  }

  lemma {:induction false} OrSelf(b: nat)
    ensures Or(b, b) == b
  {
    if b > 0 { OrSelf(b / 2); }
  }

  lemma {:induction false} LowShl(x: nat, j: nat, n: nat)
    ensures Low(Shl(x, j), j + n) == Shl(Low(x, n), j)
  {
    if j > 0 {
      ShlHalf(x, j);
      LowShl(x, j - 1, n);
    }
  }

  /** The rotation moves the low r bits on top of the others. */
  lemma {:induction false} RotateRightSplits(x: nat, r: nat)
    requires x < Pow2(WORD_BITS) && r < 32
    ensures RotateRight(x, r) == Shl(Low(x, r), 32 - r) + Shr(x, r)
  {
    if r == 0 {
      OrSelf(x);
      LowSmall(x, 32);
      ShlZero(32);
    } else {
      var j := 32 - r;
      ShrBound(x, r, j);
      Pow2Monotone(j, 32);
      LowSmall(Shr(x, r), 32);
      LowOr(Shr(x, r), Shl(x, j), 32);
      LowShl(x, j, r);
      OrDisjoint(Shr(x, r), Low(x, r), j);
    }
  }

  lemma {:induction false} ShlZero(k: nat)
    ensures Shl(0, k) == 0
  {
    if k > 0 { ShlZero(k - 1); }
  }

  /** Rotating by r and reading the two parts back returns the word. */
  function RotateLeft(y: nat, r: nat): nat
    requires r < 32
  {
    Shl(Low(y, 32 - r), r) + Shr(y, 32 - r)
  }

  lemma {:induction false} RotateBack(x: nat, r: nat)
    requires x < Pow2(WORD_BITS) && r < 32
    ensures RotateLeft(RotateRight(x, r), r) == x
  {
    var y := RotateRight(x, r);
    assert Low(y, 32 - r) == Shr(x, r) && Shr(y, 32 - r) == Low(x, r) by {
      RotateRightSplits(x, r);
      ShrBound(x, r, 32 - r);
      JoinAt(Low(x, r), Shr(x, r), 32 - r);
    }
    SplitAt(x, r);
  }

  /** Every word is some word's rotation. */
  lemma {:induction false} RotatePreimage(y: nat, r: nat) returns (x: nat)
    requires y < Pow2(WORD_BITS) && r < 32
    ensures x < Pow2(WORD_BITS) && RotateRight(x, r) == y
  {
    var j := 32 - r;
    var high, low := Low(y, j), Shr(y, j);
    assert low < Pow2(r) && high < Pow2(j) && Shl(low, j) + high == y by {
      ShrBound(y, j, r);
      LowBound(y, j);
      SplitAt(y, j);
    }
    x := Join(high, low, r, j);
    RotateRightSplits(x, r);
  }

  // ------------------------------------------------------------------ xorshift

  lemma {:induction false} UndoXorShift(h: nat)
    requires h < Pow2(TRIPLE_SHIFT)
    ensures UnXorShift(XorShift(h)) == h && XorShift(UnXorShift(h)) == h
  {
    var a, b := Shr(h, 18), Shr(h, 36);
    ShrShr(h, 18, 18);
    ShrShr(h, 18, 36);
    ShrShr(h, 36, 18);
    ShrSmall(h, 54);
    XorZero(a);
    XorZero(b);
    // forwards: y = a ^ h, y >> 18 = b ^ a, y >> 36 = b
    XorShr(a, h, 18);
    XorShr(a, h, 36);
    Cancel(a, b, h);
    // backwards: z = h ^ (a ^ b), z >> 18 = a ^ b
    XorShr(h, Xor(a, b), 18);
    XorShr(a, b, 18);
    CancelFront(Xor(a, b), h);
  }

  lemma Cancel(a: nat, b: nat, h: nat)
    ensures Xor(Xor(a, h), Xor(Xor(b, a), b)) == h
  {
    XorComm(b, a);
    XorAssoc(a, b, b);
    XorSelf(b);
    XorZero(a);
    XorComm(Xor(a, h), a);
    CancelFront(a, h);
    XorAssoc(a, a, h);
    XorSelf(a);
    XorZero(h);
  }

  lemma CancelFront(a: nat, h: nat)
    ensures Xor(a, Xor(h, a)) == h
  {
    XorComm(h, a);
    XorAssoc(a, a, h);
    XorSelf(a);
    XorZero(h);
  }

  /** Every 37-bit word is some 37-bit word's mix. */
  lemma {:induction false} XorShiftPreimage(y: nat) returns (h: nat)
    requires y < Pow2(MIXED_BITS)
    ensures h < Pow2(MIXED_BITS) && XorShift(h) == y
  {
    h := UnXorShift(y);
    MixBound(y);
    Pow2Monotone(MIXED_BITS, TRIPLE_SHIFT);
    UndoXorShift(y);
  }

  lemma {:induction false} XorShiftInjective(g: nat, h: nat)
    requires g < Pow2(MIXED_BITS) && h < Pow2(MIXED_BITS) && XorShift(g) == XorShift(h)
    ensures g == h
  {
    Pow2Monotone(MIXED_BITS, TRIPLE_SHIFT);
    UndoXorShift(g);
    UndoXorShift(h);
  }

  // ------------------------------------------------- every output equally often

  /** The output read off the mixed word: its low 32 bits rotated by the field above. */
  function Emit(y: nat): nat
    requires Shr(y, 32) < 32
  {
    RotateRight(Low(y, 32), Shr(y, 32))
  }

  lemma {:induction false} EmitInjective(y: nat, z: nat)
    requires Shr(y, 32) == Shr(z, 32) < 32 && Emit(y) == Emit(z)
    ensures y == z
  {
    LowBound(y, 32);
    LowBound(z, 32);
    RotateBack(Low(y, 32), Shr(y, 32));
    RotateBack(Low(z, 32), Shr(y, 32));
    SplitAt(y, 32);
    SplitAt(z, 32);
  }

  lemma {:induction false} EmitPreimage(top: nat, out: nat) returns (y: nat)
    requires top < 32 && out < Pow2(WORD_BITS)
    ensures y < Pow2(MIXED_BITS) && Shr(y, 32) == top && Emit(y) == out
  {
    var x := RotatePreimage(out, top);
    assert Pow2(5) == 32;
    y := Join(top, x, WORD_BITS, 5);
  }

  /** The top field of the state is the top field of the mixed word ... */
  lemma {:induction false} TopOfMix(s: nat)
    requires s < Pow2(STATE_BITS)
    ensures Shr(s, 59) == Shr(XorShift(Shr(s, 27)), 32) < 32
  {
    var h := Shr(s, 27);
    assert Shr(s, 59) < 32 by {
      ShrBound(s, 59, 5);
      assert Pow2(5) == 32;
    }
    assert Shr(h, 50) == 0 by {
      ShrBound(s, 27, MIXED_BITS);
      Pow2Monotone(MIXED_BITS, 50);
      ShrSmall(h, 50);
    }
    XorShr(Shr(h, 18), h, 32);
    ShrShr(h, 18, 32);
    ShrShr(s, 27, 32);
    XorZero(Shr(s, 59));
  }

  /** ... and the output is what the mixed word emits. */
  lemma {:induction false} OutputOfMix(s: nat)
    requires s < Pow2(STATE_BITS)
    ensures Shr(XorShift(Shr(s, 27)), 32) < 32 && OutputOf(s) == Emit(XorShift(Shr(s, 27)))
  {
    TopOfMix(s);
    assert Shr(Xor(Shr(s, 18), s), 27) == XorShift(Shr(s, 27)) by {
      XorShr(Shr(s, 18), s, 27);
      ShrShr(s, 18, 27);
      ShrShr(s, 27, 18);
    }
  }

  lemma {:induction false} MixDetermined(s: nat, t: nat)
    requires s < Pow2(STATE_BITS) && t < Pow2(STATE_BITS)
    requires Shr(s, 59) == Shr(t, 59) && OutputOf(s) == OutputOf(t)
    ensures XorShift(Shr(s, 27)) == XorShift(Shr(t, 27))
  {
    var y, z := XorShift(Shr(s, 27)), XorShift(Shr(t, 27));
    assert Shr(y, 32) == Shr(s, 59) < 32 by { TopOfMix(s); }
    assert Shr(z, 32) == Shr(t, 59) < 32 by { TopOfMix(t); }
    assert OutputOf(s) == Emit(y) by { OutputOfMix(s); }
    assert OutputOf(t) == Emit(z) by { OutputOfMix(t); }
    EmitInjective(y, z);
  }

  lemma {:induction false} MixAndDroppedDetermine(s: nat, t: nat)
    requires s < Pow2(STATE_BITS) && t < Pow2(STATE_BITS)
    requires XorShift(Shr(s, 27)) == XorShift(Shr(t, 27)) && Low(s, 27) == Low(t, 27)
    ensures s == t
  {
    ShrBound(s, 27, MIXED_BITS);
    ShrBound(t, 27, MIXED_BITS);
    XorShiftInjective(Shr(s, 27), Shr(t, 27));
    SplitAt(s, 27);
    SplitAt(t, 27);
  }

  /** A state is determined by its top 5 bits, its output and its low 27 bits ... */
  lemma {:induction false} PartsDetermine(s: nat, t: nat)
    requires s < Pow2(STATE_BITS) && t < Pow2(STATE_BITS)
    requires Shr(s, 59) == Shr(t, 59) && OutputOf(s) == OutputOf(t) && Low(s, 27) == Low(t, 27)
    ensures s == t
  {
    MixDetermined(s, t);
    MixAndDroppedDetermine(s, t);
  }

  /** ... and every choice of the three is some state's. */
  lemma {:induction false} PartsPreimage(top: nat, out: nat, dropped: nat) returns (s: nat)
    requires top < 32 && out < Pow2(WORD_BITS) && dropped < Pow2(DROPPED_BITS)
    ensures s < Pow2(STATE_BITS) && Shr(s, 59) == top && OutputOf(s) == out && Low(s, 27) == dropped
  {
    var y := EmitPreimage(top, out);
    var h := XorShiftPreimage(y);
    s := Join(h, dropped, DROPPED_BITS, MIXED_BITS);
    assert Shr(s, 59) == top by { TopOfMix(s); }
    assert OutputOf(s) == out by { OutputOfMix(s); }
  }

  lemma {:induction false} MixBound(y: nat)
    requires y < Pow2(MIXED_BITS)
    ensures UnXorShift(y) < Pow2(MIXED_BITS)
  {
    ShrLess(y, 18);
    ShrLess(y, 36);
    XorBound(Shr(y, 18), Shr(y, 36), 37);
    XorBound(y, Xor(Shr(y, 18), Shr(y, 36)), 37);
  }

  lemma {:induction false} ShrLess(a: nat, k: nat)
    ensures Shr(a, k) <= a
  {
    if k > 0 { ShrLess(a / 2, k - 1); }
  }

  // --------------------------------------------------------- over a whole period

  /** The output, and the 32 bits of the state it does not show: the top 5 and the low 27. */
  function Word(s: nat): nat {
    if s < Pow2(STATE_BITS) then OutputOf(s) else 0
  }

  function Unshown(s: nat): nat {
    Above(Shr(s, 59), Low(s, 27), 27)
  }

  lemma {:induction false} UnshownParts(s: nat)
    requires s < Pow2(STATE_BITS)
    ensures Unshown(s) < Pow2(WORD_BITS)
    ensures Shr(Unshown(s), 27) == Shr(s, 59) && Low(Unshown(s), 27) == Low(s, 27)
  {
    ShrBound(s, 59, 5);
    LowBound(s, 27);
    AboveParts(Shr(s, 59), Low(s, 27), 27, 5);
  }

  lemma {:induction false} WordPreimage(top: nat, o: nat, dropped: nat) returns (s: nat)
    requires top < 32 && o < Pow2(WORD_BITS) && dropped < Pow2(DROPPED_BITS)
    ensures s < Pow2(STATE_BITS) && Word(s) == o && Unshown(s) == Above(top, dropped, 27)
  {
    s := PartsPreimage(top, o, dropped);
  }

  lemma {:induction false} UnshownPreimage(o: nat, j: nat) returns (s: nat)
    requires o < Pow2(WORD_BITS) && j < Pow2(WORD_BITS)
    ensures s < Pow2(STATE_BITS) && Word(s) == o && Unshown(s) == j
  {
    var top, dropped := TopAndDropped(j);
    s := WordPreimage(top, o, dropped);
  }

  lemma {:induction false} TopAndDropped(j: nat) returns (top: nat, dropped: nat)
    requires j < Pow2(WORD_BITS)
    ensures top < 32 && dropped < Pow2(DROPPED_BITS) && Above(top, dropped, 27) == j
  {
    top, dropped := Shr(j, 27), Low(j, 27);
    assert Pow2(5) == 32;
    ShrBound(j, 27, 5);
    LowBound(j, 27);
    SplitAt(j, 27);
  }

  lemma {:induction false} UnshownDetermines(s: nat, t: nat)
    requires s < Pow2(STATE_BITS) && t < Pow2(STATE_BITS) && Word(s) == Word(t) && Unshown(s) == Unshown(t)
    ensures s == t
  {
    UnshownParts(s);
    UnshownParts(t);
    PartsDetermine(s, t);
  }

  /** The output and the unshown bits split the state without loss or overlap. */
  lemma {:induction false} OutputSplits()
    ensures Splits(Word, Unshown, Pow2(STATE_BITS), Pow2(WORD_BITS), Pow2(WORD_BITS))
  {
    UnshownBelow();
    WordDetermined();
    WordComplete();
  }

  lemma {:induction false} UnshownBelow()
    ensures Below(Unshown, Pow2(STATE_BITS), Pow2(WORD_BITS))
  {
    forall s: nat | s < Pow2(STATE_BITS) ensures Unshown(s) < Pow2(WORD_BITS) { UnshownParts(s); }
  }

  lemma {:induction false} WordDetermined()
    ensures Determined(Word, Unshown, Pow2(STATE_BITS))
  {
    forall s: nat, t: nat | s < Pow2(STATE_BITS) && t < Pow2(STATE_BITS) && Alike(Word, Unshown, s, t) ensures s == t {
      UnshownDetermines(s, t);
    }
  }

  lemma {:induction false} WordComplete()
    ensures Complete(Word, Unshown, Pow2(STATE_BITS), Pow2(WORD_BITS), Pow2(WORD_BITS))
  {
    forall o: nat, j: nat | o < Pow2(WORD_BITS) && j < Pow2(WORD_BITS)
      ensures Occurs(Word, Unshown, Pow2(STATE_BITS), o, j)
    {
      var s := UnshownPreimage(o, j);
      assert HasParts(Word, Unshown, Pow2(STATE_BITS), s, o, j);
    }
  }

  // ------------------------------------------------------------- the output, bit by bit

  /** The low r bits of w put above the others. */
  lemma {:induction false} BitOfHalves(x: nat, r: nat, w: nat, j: nat)
    requires x < Pow2(w) && r <= w && j < w
    ensures Bit(Shl(Low(x, r), w - r) + Shr(x, r), j) == Bit(x, if j + r < w then j + r else j + r - w)
  {
    ShrBound(x, r, w - r);
    BitOfJoin(Low(x, r), Shr(x, r), w - r, j);
    if j + r < w {
      BitOfShr(x, r, j);
    } else {
      BitOfLow(x, r, j + r - w);
    }
  }

  /** A rotation to the right by r brings bit j + r, around 32, to place j. */
  lemma {:induction false} BitOfRotation(x: nat, r: nat, j: nat)
    requires x < Pow2(WORD_BITS) && r < 32 && j < 32
    ensures Bit(RotateRight(x, r), j) == Bit(x, (j + r) % 32)
  {
    RotateRightSplits(x, r);
    BitAround(x, r, WORD_BITS, j, RotateRight(x, r));
  }

  lemma {:induction false} BitAround(x: nat, r: nat, w: nat, j: nat, y: nat)
    requires w == 32 && x < Pow2(w) && r < w && j < w && y == Shl(Low(x, r), w - r) + Shr(x, r)
    ensures Bit(y, j) == Bit(x, (j + r) % 32)
  {
    BitOfHalves(x, r, w, j);
    var k := (j + r) % 32;
    assert k == if j + r < w then j + r else j + r - w;
  }

  /** Mixing adds, without carry, the bits a apart; b of them are dropped. */
  lemma {:induction false} BitOfMix(s: nat, a: nat, b: nat, k: nat)
    requires k < 32
    ensures Bit(Low(Shr(Xor(Shr(s, a), s), b), 32), k) == (Bit(s, b + k) + Bit(s, a + b + k)) % 2
  {
    var mixed := Xor(Shr(s, a), s);
    BitOfLow(Shr(mixed, b), 32, k);
    BitOfShr(mixed, b, k);
    BitOfXor(Shr(s, a), s, b + k);
    BitOfShr(s, a, b + k);
  }

  /** The output is the mixed state, 18 apart and 27 dropped, rotated by the top five bits. */
  lemma {:induction false} WordRotates(s: nat) returns (x: nat, r: nat)
    requires s < Pow2(STATE_BITS)
    ensures x == Low(Shr(Xor(Shr(s, 18), s), 27), 32) < Pow2(WORD_BITS) && r == Shr(s, 59) < 32
    ensures Word(s) == RotateRight(x, r)
  {
    TopOfMix(s);
    LowBound(Shr(Xor(Shr(s, 18), s), 27), 32);
    x, r := Low(Shr(Xor(Shr(s, 18), s), 27), 32), Shr(s, 59);
  }

  function Advance(inc: nat): nat -> nat {
    Update(MULTIPLIER, inc, STATE_BITS)
  }

  /** For every stream the state runs through all 2^64 values in a single cycle. */
  lemma {:induction false} AdvanceCycles(inc: nat)
    requires inc % 2 == 1
    ensures OneCycle(Advance(inc), Pow2(STATE_BITS))
  {
    SingleCycle(MULTIPLIER, inc, STATE_BITS);
  }

  /** Over one period, from any state of any stream, every 32-bit word is emitted
      exactly 2^32 times. */
  lemma {:induction false} Equidistributed(inc: nat, x: nat, o: nat)
    requires inc % 2 == 1 && x < Pow2(STATE_BITS) && o < Pow2(WORD_BITS)
    ensures |EmissionTimes(Advance(inc), Word, Pow2(STATE_BITS), x, o)| == Pow2(WORD_BITS)
  {
    AdvanceCycles(inc);
    OutputSplits();
    EqualShares(Advance(inc), Word, Unshown, Pow2(STATE_BITS), Pow2(WORD_BITS), Pow2(WORD_BITS), x, o);
  }

  // ---------------------------------------------------------------- the generator

  /** The output permutation, in the order the script computes it. */
  method Permuted(before: nat) returns (word: nat)
    requires before < Pow2(STATE_BITS)
    ensures word == Word(before) && word < Pow2(WORD_BITS)
  {
    TopOfMix(before);
    var xorshifted := Low(Shr(Xor(Shr(before, 18), before), 27), 32);
    var rot := Shr(before, 59);
    var spun := Or(Shr(xorshifted, rot), Shl(xorshifted, if rot == 0 then 0 else 32 - rot));
    LowBound(spun, 32);
    word := Low(spun, 32);
  }

  /** `((seq << 1) | 1)` cut to 64 bits. */
  function Increment(stream: nat): (inc: nat)
    ensures inc % 2 == 1
  {
    OddModulo(stream, STATE_BITS);
    (2 * stream + 1) % Pow2(STATE_BITS)
  }

  /** The seed added in, cut to 64 bits. */
  function Seasoned(state: nat, seed: nat): nat {
    (state + seed) % Pow2(STATE_BITS)
  }

  class Generator {
    var state: nat
    var inc: nat

    ghost predicate Valid()
      reads this
    {
      inc % 2 == 1 && state < Pow2(STATE_BITS)
    }

    /** Seeding, in plain arithmetic modulo 2^64. */
    constructor (seed: nat, stream: nat)
      ensures Valid()
      ensures inc == (2 * stream + 1) % 0x1_0000_0000_0000_0000
      ensures state == (6364136223846793005 * (inc + seed) + inc) % 0x1_0000_0000_0000_0000
    {
      inc := Increment(stream);
      state := 0;
      new;
      Step();
      state := Seasoned(state, seed);
      Step();
      SeededState(stream, seed);
    }

    method Step()
      modifies this`state
      ensures state == Advance(inc)(old(state)) < Pow2(STATE_BITS)
      ensures state == (old(state) * 6364136223846793005 + inc) % 0x1_0000_0000_0000_0000
    {
      Pow2At64();
      state := (state * MULTIPLIER + inc) % Pow2(STATE_BITS);
    }

    /** `next_uint32`: the output of the state before the step. */
    method NextUint32() returns (word: nat)
      requires Valid()
      modifies this`state
      ensures Valid() && state == Advance(inc)(old(state))
      ensures word == Word(old(state)) && word < Pow2(WORD_BITS)
    {
      var before := state;
      Step();
      word := Permuted(before);
    }
  }

  lemma {:induction false} SeededState(stream: nat, seed: nat)
    ensures var inc := Increment(stream);
            inc == (2 * stream + 1) % 0x1_0000_0000_0000_0000 &&
            Advance(inc)(Seasoned(Advance(inc)(0), seed)) ==
              (6364136223846793005 * (inc + seed) + inc) % 0x1_0000_0000_0000_0000
  {
    var inc := Increment(stream);
    Pow2At64();
    SmallModulo(inc, Pow2(STATE_BITS));
    ModuloOnce(MULTIPLIER, inc, inc + seed, Pow2(STATE_BITS));
  }

  // ------------------------------------------------------- seeds and streams matter

  /** Two seeds of a stream give different states. */
  lemma {:induction false} SeedsDiffer(inc: nat, a: nat, b: nat)
    requires inc % 2 == 1 && a < Pow2(STATE_BITS) && b < Pow2(STATE_BITS) && a != b
    ensures (MULTIPLIER * (inc + a) + inc) % Pow2(STATE_BITS) != (MULTIPLIER * (inc + b) + inc) % Pow2(STATE_BITS)
  {
    ShiftedDiffer(MULTIPLIER, inc, STATE_BITS, a, b);
  }

  /** Two streams below 2^63 have different increments. */
  lemma {:induction false} StreamsDiffer(a: nat, b: nat)
    requires a < 0x8000_0000_0000_0000 && b < 0x8000_0000_0000_0000 && a != b
    ensures (2 * a + 1) % 0x1_0000_0000_0000_0000 != (2 * b + 1) % 0x1_0000_0000_0000_0000
  {
  }

  /** The state after seeding with 42 on stream 54. */
  method KnownState() returns (generator: Generator)
    ensures fresh(generator) && generator.inc == 109 && generator.state == 0x1857_06b8_2c2e_03f8
  {
    generator := new Generator(42, 54);
  }

  lemma {:induction false} OddModulo(stream: nat, k: nat)
    requires k > 0
    ensures (2 * stream + 1) % Pow2(k) % 2 == 1
  {
    var y := 2 * stream + 1;
    OddByEven(y, stream, Pow2(k - 1));
  }

  lemma {:induction false} OddByEven(y: nat, t: nat, h: nat)
    requires y == 2 * t + 1 && h > 0
    ensures y % (2 * h) % 2 == 1
  {
    var m := 2 * h;
    var q, r := y / m, y % m;
    assert y == m * q + r;
    Doubled(h, q);
    OddRemainder(t, h * q, r);
  }

  lemma Doubled(h: nat, q: nat)
    ensures 2 * h * q == 2 * (h * q)
  {
  }

  lemma OddRemainder(t: nat, p: nat, r: nat)
    requires 2 * t + 1 == 2 * p + r
    ensures r % 2 == 1
  {
  }
}
