// Bit arithmetic on unbounded naturals, as the generator scripts use it:
// `s & 1` is `s % 2`, `s >> 1` is `s / 2`, and `^` is `Xor`.

/** Powers of two and exclusive-or on natural numbers, and what the proofs about
    the shift register and the permuted generator need of them. */
module Bits {

  function Pow2(n: nat): (p: nat)
    ensures p >= 1
  {
    if n == 0 then 1 else 2 * Pow2(n - 1)
  }

  /** Bitwise exclusive-or. */
  function Xor(a: nat, b: nat): nat
    decreases a + b
  {
    if a == 0 && b == 0 then 0 else 2 * Xor(a / 2, b / 2) + (a + b) % 2
  }

  lemma {:induction false} XorParts(a: nat, b: nat)
    ensures Xor(a, b) % 2 == (a + b) % 2
    ensures Xor(a, b) / 2 == Xor(a / 2, b / 2)
  {
    DoublePlusBit(Xor(a / 2, b / 2), (a + b) % 2);
  }

  lemma DoublePlusBit(half: nat, bit: nat)
    requires bit < 2
    ensures (2 * half + bit) % 2 == bit && (2 * half + bit) / 2 == half
  {
  }

  /** A number is its half and its low bit. */
  lemma SameParts(x: nat, y: nat)
    requires x / 2 == y / 2 && x % 2 == y % 2
    ensures x == y
  {
  }

  lemma {:induction false} XorZero(a: nat)
    ensures Xor(a, 0) == a && Xor(0, a) == a
  {
    if a > 0 { XorZero(a / 2); }
  }

  lemma {:induction false} XorSelf(a: nat)
    ensures Xor(a, a) == 0
  {
    if a > 0 { XorSelf(a / 2); }
  }

  lemma {:induction false} XorComm(a: nat, b: nat)
    ensures Xor(a, b) == Xor(b, a)
    decreases a + b
  {
    if a + b > 0 { XorComm(a / 2, b / 2); }
  }

  lemma ParityShift(a: nat, b: nat, c: nat, ab: nat, bc: nat)
    requires ab % 2 == (a + b) % 2 && bc % 2 == (b + c) % 2
    ensures (ab + c) % 2 == (a + bc) % 2
  {
  }

  lemma {:induction false} XorAssocStep(a: nat, b: nat, c: nat, ab: nat, bc: nat)
    requires ab % 2 == (a + b) % 2 && bc % 2 == (b + c) % 2
    requires Xor(ab / 2, c / 2) == Xor(a / 2, bc / 2)
    ensures Xor(ab, c) == Xor(a, bc)
  {
    var x, y := Xor(ab, c), Xor(a, bc);
    assert x % 2 == (ab + c) % 2 && x / 2 == Xor(ab / 2, c / 2) by { XorParts(ab, c); }
    assert y % 2 == (a + bc) % 2 && y / 2 == Xor(a / 2, bc / 2) by { XorParts(a, bc); }
    ParityShift(a, b, c, ab, bc);
    SameParts(x, y);
  }

  lemma {:induction false} XorAssoc(a: nat, b: nat, c: nat)
    ensures Xor(Xor(a, b), c) == Xor(a, Xor(b, c))
    decreases a + b + c
  {
    if a + b + c > 0 {
      var ab, bc := Xor(a, b), Xor(b, c);
      assert ab / 2 == Xor(a / 2, b / 2) && ab % 2 == (a + b) % 2 by { XorParts(a, b); }
      assert bc / 2 == Xor(b / 2, c / 2) && bc % 2 == (b + c) % 2 by { XorParts(b, c); }
      XorAssoc(a / 2, b / 2, c / 2);
      XorAssocStep(a, b, c, ab, bc);
    }
  }

  /** Exclusive-or is zero only on the diagonal. */
  lemma {:induction false} XorZeroEqual(a: nat, b: nat)
    requires Xor(a, b) == 0
    ensures a == b
    decreases a + b
  {
    if a + b > 0 { XorZeroEqual(a / 2, b / 2); }
  }

  /** Four-way exchange: the two pairs may be regrouped. */
  lemma XorSwap(a: nat, b: nat, c: nat, d: nat)
    ensures Xor(Xor(a, b), Xor(c, d)) == Xor(Xor(a, c), Xor(b, d))
  {
    calc {
      Xor(Xor(a, b), Xor(c, d));
      { XorAssoc(a, b, Xor(c, d)); }
      Xor(a, Xor(b, Xor(c, d)));
      { XorAssoc(b, c, d); XorComm(b, c); XorAssoc(c, b, d); }
      Xor(a, Xor(c, Xor(b, d)));
      { XorAssoc(a, c, Xor(b, d)); }
      Xor(Xor(a, c), Xor(b, d));
    }
  }

  /** Exclusive-or stays inside the register. */
  lemma {:induction false} XorBound(a: nat, b: nat, n: nat)
    requires a < Pow2(n) && b < Pow2(n)
    ensures Xor(a, b) < Pow2(n)
  {
    if n > 0 && a + b > 0 { XorBound(a / 2, b / 2, n - 1); }
  }

  /** A top bit present in one operand only survives. */
  lemma {:induction false} XorTopBit(a: nat, b: nat, n: nat)
    requires a < Pow2(n) <= b < Pow2(n + 1)
    ensures Pow2(n) <= Xor(a, b) < Pow2(n + 1)
  {
    XorBound(a, b, n + 1);
    if n > 0 {
      XorTopBit(a / 2, b / 2, n - 1);
    } else {
      assert Pow2(0) == 1 && Pow2(1) == 2;
      assert a == 0 && b == 1;
      XorZero(1);
    }
  }

  lemma {:induction false} Pow2Monotone(a: nat, b: nat)
    requires a <= b
    ensures Pow2(a) <= Pow2(b)
  {
    if a < b { Pow2Monotone(a, b - 1); }
  }

  /** An odd number that divides a power of two is one. */
  lemma {:induction false} OddDividesPow2(m: nat, x: nat, k: nat)
    requires m % 2 == 1 && m * x == Pow2(k)
    ensures m == 1
  {
    if k > 0 {
      EvenCofactor(m, x, Pow2(k - 1));
      OddDividesPow2(m, x / 2, k - 1);
    }
  }

  lemma EvenCofactor(m: nat, x: nat, half: nat)
    requires m % 2 == 1 && m * x == 2 * half
    ensures m * (x / 2) == half
  {
    var u := m / 2;
    assert m == 2 * u + 1;
    assert m * x == 2 * (u * x) + x;
    var y := x / 2;
    assert x == 2 * y;
    assert m * x == 2 * (m * y);
  }

  lemma ParityOfSum(a: nat, b: nat)
    ensures (a + b) % 2 == 0 <==> a % 2 == b % 2
  {
  }

  // -------------------------------------------------------------------- shifts

  /** `a >> k`. */
  function Shr(a: nat, k: nat): nat {
    if k == 0 then a else Shr(a / 2, k - 1)
  }

  /** `a << k`. */
  function Shl(a: nat, k: nat): nat {
    if k == 0 then a else 2 * Shl(a, k - 1)
  }

  /** `a & ((1 << k) - 1)`: the low k bits. */
  function Low(a: nat, k: nat): nat {
    if k == 0 then 0 else 2 * Low(a / 2, k - 1) + a % 2
  }

  /** `a | b`. */
  function Or(a: nat, b: nat): nat
    decreases a + b
  {
    if a == 0 && b == 0 then 0
    else 2 * Or(a / 2, b / 2) + (if a % 2 == 1 || b % 2 == 1 then 1 else 0)
  }

  lemma {:induction false} XorShr(a: nat, b: nat, k: nat)
    ensures Shr(Xor(a, b), k) == Xor(Shr(a, k), Shr(b, k))
  {
    if k > 0 {
      XorParts(a, b);
      XorShr(a / 2, b / 2, k - 1);
    }
  }

  lemma {:induction false} ShrShr(a: nat, j: nat, k: nat)
    ensures Shr(Shr(a, j), k) == Shr(a, j + k)
  {
    if j > 0 { ShrShr(a / 2, j - 1, k); }
  }

  lemma {:induction false} ShrSmall(a: nat, k: nat)
    requires a < Pow2(k)
    ensures Shr(a, k) == 0
  {
    if k > 0 { ShrSmall(a / 2, k - 1); }
  }

  lemma {:induction false} ShrBound(a: nat, k: nat, n: nat)
    requires a < Pow2(k + n)
    ensures Shr(a, k) < Pow2(n)
  {
    if k > 0 { ShrBound(a / 2, k - 1, n); }
  }

  lemma {:induction false} LowBound(a: nat, k: nat)
    ensures Low(a, k) < Pow2(k)
  {
    if k > 0 { LowBound(a / 2, k - 1); }
  }

  lemma {:induction false} LowSmall(a: nat, k: nat)
    requires a < Pow2(k)
    ensures Low(a, k) == a
  {
    if k > 0 { LowSmall(a / 2, k - 1); }
  }

  lemma {:induction false} ShlBound(a: nat, k: nat, n: nat)
    requires a < Pow2(n)
    ensures Shl(a, k) + Pow2(k) <= Pow2(n + k)
  {
    if k > 0 { ShlBound(a, k - 1, n); }
  }

  lemma {:induction false} ShlHalf(a: nat, k: nat)
    requires k > 0
    ensures Shl(a, k) % 2 == 0 && Shl(a, k) / 2 == Shl(a, k - 1)
  {
  }

  /** A number is its high part shifted up plus its low part. */
  lemma {:induction false} SplitAt(a: nat, k: nat)
    ensures Shl(Shr(a, k), k) + Low(a, k) == a
  {
    if k > 0 { SplitAt(a / 2, k - 1); }
  }

  /** ... and the parts can be read back off any such sum. */
  lemma {:induction false} JoinAt(h: nat, l: nat, k: nat)
    requires l < Pow2(k)
    ensures Shr(Shl(h, k) + l, k) == h && Low(Shl(h, k) + l, k) == l
  {
    if k > 0 {
      var s := Shl(h, k - 1);
      HalfOfSum(s, l);
      JoinAt(h, l / 2, k - 1);
    }
  }

  /** h placed above the k bits of l. */
  function Above(h: nat, l: nat, k: nat): nat {
    Shl(h, k) + l
  }

  lemma {:induction false} AboveParts(h: nat, l: nat, k: nat, n: nat)
    requires l < Pow2(k) && h < Pow2(n)
    ensures var s := Above(h, l, k); s < Pow2(n + k) && Shr(s, k) == h && Low(s, k) == l
  {
    ShlBound(h, k, n);
    JoinAt(h, l, k);
  }

  lemma {:induction false} Join(h: nat, l: nat, k: nat, n: nat) returns (s: nat)
    requires l < Pow2(k) && h < Pow2(n)
    ensures s < Pow2(n + k) && Shr(s, k) == h && Low(s, k) == l
  {
    s := Above(h, l, k);
    AboveParts(h, l, k, n);
  }

  lemma HalfOfSum(s: nat, l: nat)
    ensures (2 * s + l) / 2 == s + l / 2 && (2 * s + l) % 2 == l % 2
  {
  }

  // -------------------------------------------------------------------- single bits

  /** Bit j of a, counted from the lowest. */
  function Bit(a: nat, j: nat): (b: nat)
    ensures b < 2
  {
    if j == 0 then a % 2 else Bit(a / 2, j - 1)
  }

  lemma {:induction false} BitOfShr(a: nat, n: nat, j: nat)
    ensures Bit(Shr(a, n), j) == Bit(a, n + j)
  {
    if n > 0 { BitOfShr(a / 2, n - 1, j); }
  }

  lemma {:induction false} BitOfLow(a: nat, k: nat, j: nat)
    requires j < k
    ensures Bit(Low(a, k), j) == Bit(a, j)
  {
    DoublePlusBit(Low(a / 2, k - 1), a % 2);
    if j > 0 { BitOfLow(a / 2, k - 1, j - 1); }
  }

  lemma {:induction false} BitOfXor(a: nat, b: nat, j: nat)
    ensures Bit(Xor(a, b), j) == (Bit(a, j) + Bit(b, j)) % 2
  {
    XorParts(a, b);
    if j > 0 { BitOfXor(a / 2, b / 2, j - 1); } else { ParityOfSum(a, b); }
  }

  /** The bits of a number put together from a high and a low part. */
  lemma {:induction false} BitOfJoin(h: nat, l: nat, k: nat, j: nat)
    requires l < Pow2(k)
    ensures Bit(Shl(h, k) + l, j) == if j < k then Bit(l, j) else Bit(h, j - k)
  {
    JoinAt(h, l, k);
    if j < k {
      BitOfLow(Shl(h, k) + l, k, j);
    } else {
      BitOfShr(Shl(h, k) + l, k, j - k);
    }
  }

  // ------------------------------------------------------------------- arithmetic

  lemma {:induction false} QuotientUnique(a: int, m: nat, q: int, r: int)
    requires 0 <= r < m && a == m * q + r
    ensures a / m == q && a % m == r
  {
    var d := a / m - q;
    assert a == m * (a / m) + a % m;
    assert m * d == r - a % m;
    assert d >= 1 ==> m * d >= m;
    assert d <= -1 ==> m * d + m <= 0;
  }

  lemma {:induction false} Pow2At64()
    ensures Pow2(64) == 0x1_0000_0000_0000_0000
  {
    assert Pow2(4) == 16;
    assert Pow2(8) == 0x100;
    assert Pow2(12) == 0x1000;
    assert Pow2(16) == 0x1_0000;
    assert Pow2(20) == 0x10_0000;
    assert Pow2(24) == 0x100_0000;
    assert Pow2(28) == 0x1000_0000;
    assert Pow2(32) == 0x1_0000_0000;
    assert Pow2(36) == 0x10_0000_0000;
    assert Pow2(40) == 0x100_0000_0000;
    assert Pow2(44) == 0x1000_0000_0000;
    assert Pow2(48) == 0x1_0000_0000_0000;
    assert Pow2(52) == 0x10_0000_0000_0000;
    assert Pow2(56) == 0x100_0000_0000_0000;
    assert Pow2(60) == 0x1000_0000_0000_0000;
  }
}
