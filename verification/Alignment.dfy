/** The search that aligns a generated sequence against a reference one
    (tools/gen_generator.py), with the FFT correlation replaced by its exact sum. */
module Alignment {
  import opened Options
  import opened Sequences
  import opened Bits
  import opened Counting
  import opened Orbits
  import opened Lfsr

  /** The first n entries of `np.roll(c, -shift)`: entry i is c[(i + shift) % |c|]. */
  function FirstRolled(c: seq<int>, shift: nat, n: nat): (r: seq<int>)
    requires n <= |c|
    ensures |r| == n && forall i {:trigger r[i]} :: 0 <= i < n ==> r[i] == c[Wrap(i + shift, |c|)]
  {
    if n == 0 then [] else FirstRolled(c, shift, n - 1) + [c[Wrap(n - 1 + shift, |c|)]]
  }

  function Rolled(c: seq<int>, shift: nat): seq<int> {
    FirstRolled(c, shift, |c|)
  }

  /** `c[::-1]`. */
  function Candidate(galois: seq<int>, reversed: bool): (c: seq<int>)
    ensures |c| == |galois|
  {
    if reversed then Reversed(galois) else galois
  }

  /** The candidate, read from `shift` on and around, is the reference. */
  ghost predicate Aligns(candidate: seq<int>, shift: nat, reference: seq<int>) {
    shift < |candidate| == |reference| &&
    forall i {:trigger reference[i]} :: 0 <= i < |reference| ==> candidate[(i + shift) % |candidate|] == reference[i]
  }

  lemma {:induction false} RolledByModulo(c: seq<int>, shift: nat, i: nat)
    requires i < |c|
    ensures Rolled(c, shift)[i] == c[(i + shift) % |c|]
  {
    WrapIsModulo(i + shift, |c|);
  }

  /** Rolling the candidate back by the shift gives the reference exactly then. */
  lemma {:induction false} AlignsIsRolled(c: seq<int>, shift: nat, reference: seq<int>)
    requires shift < |c|
    ensures Aligns(c, shift, reference) <==> Rolled(c, shift) == reference
  {
    var r := Rolled(c, shift);
    forall i | 0 <= i < |c| ensures r[i] == c[(i + shift) % |c|] { RolledByModulo(c, shift, i); }
  }

  // ----------------------------------------------- the peak is a perfect alignment

  /** Entries of at most one sum to the length only when they are all one. */
  lemma {:induction false} SumAtMost(s: seq<int>)
    requires forall i :: 0 <= i < |s| ==> s[i] <= 1
    ensures Sum(s) <= |s|
    ensures Sum(s) == |s| <==> forall i :: 0 <= i < |s| ==> s[i] == 1
  {
    if s != [] {
      var n := |s| - 1;
      SumAtMost(s[..n]);
      assert forall i :: 0 <= i < n ==> s[..n][i] == s[i];
    }
  }

  /** Two +1/-1 sequences correlate to at most their length, and to exactly their
      length only at a shift that aligns them. */
  lemma PeakIsAlignment(a: seq<int>, b: seq<int>, shift: nat)
    requires |a| == |b| && Signs(a) && Signs(b)
    ensures forall i {:trigger Products(a, b, shift)[i]} :: 0 <= i < |a| ==>
              Products(a, b, shift)[i] == a[(i + shift) % |a|] * b[i]
    ensures Correlation(a, b, shift) <= |a|
    ensures Correlation(a, b, shift) == |a| <==> Rolled(a, shift) == b
  {
    TermsAreProducts(a, b, shift);
    var p, r := Products(a, b, shift), Rolled(a, shift);
    forall i | 0 <= i < |a| ensures p[i] <= 1 && (p[i] == 1 <==> r[i] == b[i]) {
    }
    SumAtMost(p);
  }

  /** What the correlation sums are the products of samples `shift` apart, around. */
  lemma TermsAreProducts(a: seq<int>, b: seq<int>, shift: nat)
    requires |a| == |b| && Signs(a) && Signs(b)
    ensures forall i {:trigger Products(a, b, shift)[i]} :: 0 <= i < |a| ==>
              Products(a, b, shift)[i] == a[(i + shift) % |a|] * b[i]
  {
    forall i | 0 <= i < |a| ensures Products(a, b, shift)[i] == a[(i + shift) % |a|] * b[i] {
      WrapIsModulo(i + shift, |a|);
      SignProductIsProduct(a[Wrap(i + shift, |a|)], b[i]);
    }
  }

  /** `np.argmax`: the first index of the largest entry. */
  method ArgMax(s: seq<int>) returns (k: nat)
    requires |s| > 0
    ensures k < |s| && forall i :: 0 <= i < |s| ==> s[i] <= s[k]
    ensures forall i :: 0 <= i < k ==> s[i] < s[k]
  {
    k := 0;
    for i := 1 to |s|
      invariant k < i
      invariant forall j :: 0 <= j < i ==> s[j] <= s[k]
      invariant forall j :: 0 <= j < k ==> s[j] < s[k]
    {
      if s[i] > s[k] { k := i; }
    }
  }

  /** `find_alignment_shift`: fails only when no rotation of the sequence or of its
      reversal is the reference, prefers the forward orientation, and the shift it
      returns really aligns. */
  method FindAlignmentShift(galois: seq<int>, reference: seq<int>) returns (r: Option<(nat, bool)>)
    requires |galois| == |reference| > 0 && Signs(galois) && Signs(reference)
    ensures r.Some? ==> Aligns(Candidate(galois, r.value.1), r.value.0, reference)
    ensures r.Some? && r.value.1 ==> forall s: nat :: !Aligns(galois, s, reference)
    ensures r.None? ==> forall s: nat, reversed: bool :: !Aligns(Candidate(galois, reversed), s, reference)
  {
    var k := PeakShift(galois, reference);
    AlignsIsRolled(galois, k, reference);
    if Rolled(galois, k) == reference {
      return Some((k, false));
    }
    var flipped := Reversed(galois);
    k := PeakShift(flipped, reference);
    AlignsIsRolled(flipped, k, reference);
    if Rolled(flipped, k) == reference {
      return Some((k, true));
    }
    assert forall s: nat :: !Aligns(Candidate(galois, false), s, reference);
    assert forall s: nat :: !Aligns(Candidate(galois, true), s, reference);
    return None;
  }

  /** The argmax of the correlation aligns whenever any shift does. */
  method PeakShift(candidate: seq<int>, reference: seq<int>) returns (k: nat)
    requires |candidate| == |reference| > 0 && Signs(candidate) && Signs(reference)
    ensures k < |candidate|
    ensures Rolled(candidate, k) != reference ==> forall s: nat :: !Aligns(candidate, s, reference)
  {
    var n := |candidate|;
    var corr: seq<int> := [];
    for s := 0 to n
      invariant |corr| == s && forall t :: 0 <= t < s ==> corr[t] == Correlation(candidate, reference, t)
    {
      corr := corr + [Correlation(candidate, reference, s)];
    }
    k := ArgMax(corr);
    forall s: nat ensures Aligns(candidate, s, reference) ==> Rolled(candidate, k) == reference {
      if Aligns(candidate, s, reference) {
        AlignsIsRolled(candidate, s, reference);
        PeakIsAlignment(candidate, reference, s);
        PeakIsAlignment(candidate, reference, k);
        assert corr[s] <= corr[k];
      }
    }
  }

  // ------------------------------------------------------ off the peak it is -1

  /** The ideal autocorrelation of a maximum-length sequence. */
  ghost predicate TwoValued(c: seq<int>) {
    forall s: nat :: 0 < s < |c| ==> Correlation(c, c, s) == -1
  }

  lemma {:induction false} SumRolled(p: seq<int>, r: nat)
    requires r < |p|
    ensures Sum(Rolled(p, r)) == Sum(p)
  {
    forall i | 0 <= i < |p| ensures Rolled(p, r)[i] == (p[r..] + p[..r])[i] {
      assert Wrap(i + r, |p|) == if i + r < |p| then i + r else i + r - |p|;
    }
    assert Rolled(p, r) == p[r..] + p[..r];
    assert p == p[..r] + p[r..];
    SumConcat(p[r..], p[..r]);
    SumConcat(p[..r], p[r..]);
  }

  lemma ShiftIndex(n: nat, i: nat, r: nat, k: nat, d: nat)
    requires i < n && r < n && k < n && d == if k > r then k - r else k + n - r
    requires k != r
    ensures Wrap(Wrap(i + r, n) + d, n) == Wrap(i + k, n)
  {
  }

  /** Against its own rotation by r, a sequence with ideal autocorrelation correlates to
      -1 at every shift but r, so the alignment is unique and the peak stands n + 1
      above everything else. */
  lemma {:induction false} OffPeak(c: seq<int>, r: nat, k: nat)
    requires TwoValued(c) && r < |c| && k < |c| && k != r
    ensures Correlation(c, Rolled(c, r), k) == -1
  {
    var n := |c|;
    var d := if k > r then k - r else k + n - r;
    var p, q := Products(c, c, d), Products(c, Rolled(c, r), k);
    forall i | 0 <= i < n ensures q[i] == p[Wrap(i + r, n)] {
      ShiftIndex(n, i, r, k, d);
    }
    assert q == Rolled(p, r);
    SumRolled(p, r);
    assert Correlation(c, c, d) == -1;
  }

  lemma {:induction false} ReversedProduct(c: seq<int>, s: nat, i: nat)
    requires 0 < s < |c| && i < |c|
    ensures Products(Reversed(c), Reversed(c), s)[i] == Products(c, c, |c| - s)[|c| - 1 - i]
  {
    var n, v := |c|, Reversed(c);
    var j := n - 1 - i;
    assert v[Wrap(i + s, n)] == c[Wrap(j + (n - s), n)] && v[i] == c[j];
  }

  /** Reversing keeps the ideal autocorrelation. */
  lemma {:induction false} ReversedTwoValued(c: seq<int>)
    requires TwoValued(c)
    ensures TwoValued(Reversed(c))
  {
    var n, v := |c|, Reversed(c);
    forall s: nat | 0 < s < n ensures Correlation(v, v, s) == -1 {
      var p, q := Products(c, c, n - s), Products(v, v, s);
      forall i | 0 <= i < n ensures q[i] == p[n - 1 - i] {
        ReversedProduct(c, s, i);
      }
      SumReversed(p, q);
      assert Correlation(c, c, n - s) == -1;
    }
  }

  // ------------------------------------------------------------- the whole case

  /** `1 << (order - 1)` with the extra tap bits or-ed in. */
  function TapMask(order: nat, degrees: seq<nat>): nat
    requires order >= 1 && forall i :: 0 <= i < |degrees| ==> 1 <= degrees[i] <= order
  {
    if degrees == [] then Pow2(order - 1)
    else SetBit(TapMask(order, degrees[..|degrees| - 1]), degrees[|degrees| - 1] - 1)
  }

  /** `m | (1 << k)`. */
  function SetBit(m: nat, k: nat): nat {
    if k == 0 then m / 2 * 2 + 1 else 2 * SetBit(m / 2, k - 1) + m % 2
  }

  lemma {:induction false} SetBitBounds(m: nat, k: nat, n: nat)
    requires k < n && m < Pow2(n)
    ensures m <= SetBit(m, k) < Pow2(n)
  {
    if k > 0 { SetBitBounds(m / 2, k - 1, n - 1); }
  }

  /** Whatever extra degrees are named, the mask keeps its top bit and its width. */
  lemma {:induction false} TapMaskTopBit(order: nat, degrees: seq<nat>)
    requires order >= 1 && forall i :: 0 <= i < |degrees| ==> 1 <= degrees[i] <= order
    ensures TopBitSet(order, TapMask(order, degrees))
  {
    if degrees != [] {
      TapMaskTopBit(order, degrees[..|degrees| - 1]);
      SetBitBounds(TapMask(order, degrees[..|degrees| - 1]), degrees[|degrees| - 1] - 1, order);
    } else {
      assert Pow2(order) == 2 * Pow2(order - 1);
    }
  }

  lemma {:induction false} SetBitLaw(m: nat, k: nat, j: nat)
    ensures Bit(SetBit(m, k), j) == if j == k then 1 else Bit(m, j)
  {
    if k == 0 {
      DoublePlusBit(m / 2, 1);
    } else {
      DoublePlusBit(SetBit(m / 2, k - 1), m % 2);
      if j > 0 { SetBitLaw(m / 2, k - 1, j - 1); }
    }
  }

  lemma {:induction false} ZeroBits(j: nat)
    ensures Bit(0, j) == 0
  {
    if j > 0 { ZeroBits(j - 1); }
  }

  lemma {:induction false} Pow2Bits(n: nat, j: nat)
    ensures Bit(Pow2(n), j) == if j == n then 1 else 0
  {
    if n > 0 {
      DoublePlusBit(Pow2(n - 1), 0);
      if j > 0 { Pow2Bits(n - 1, j - 1); }
    } else if j > 0 {
      ZeroBits(j - 1);
    }
  }

  /** The mask has exactly the bits of the leading term and of the extra degrees. */
  lemma {:induction false} TapMaskBits(order: nat, degrees: seq<nat>, j: nat)
    requires order >= 1 && forall i :: 0 <= i < |degrees| ==> 1 <= degrees[i] <= order
    ensures Bit(TapMask(order, degrees), j) == 1 <==> j == order - 1 || j + 1 in degrees
  {
    if degrees == [] {
      Pow2Bits(order - 1, j);
    } else {
      var n := |degrees| - 1;
      TapMaskBits(order, degrees[..n], j);
      SetBitLaw(TapMask(order, degrees[..n]), degrees[n] - 1, j);
      assert degrees == degrees[..n] + [degrees[n]];
    }
  }

  datatype Case = NotPrimitive | Unbalanced | NoAlignment | Row(mask: nat, shift: nat, reversed: bool)

  /** `galois_sequence`: one pass over a period, keeping the state in place. */
  method GaloisSequence(order: nat, degrees: seq<nat>) returns (samples: seq<int>, mask: nat, returned: bool)
    requires order >= 1 && forall i :: 0 <= i < |degrees| ==> 1 <= degrees[i] <= order
    ensures mask == TapMask(order, degrees) < Pow2(order)
    ensures forall j: nat :: Bit(mask, j) == 1 <==> j == order - 1 || j + 1 in degrees
    ensures samples == Output(Register(mask), 1, Period(order))
    ensures returned <==> ReturnCheck(order, mask)
  {
    mask := Pow2(order - 1);
    for i := 0 to |degrees|
      invariant mask == TapMask(order, degrees[..i])
    {
      assert degrees[..i + 1][..i] == degrees[..i];
      mask := SetBit(mask, degrees[i] - 1);
    }
    assert degrees[..|degrees|] == degrees;
    TapMaskTopBit(order, degrees);
    forall j: nat ensures Bit(mask, j) == 1 <==> j == order - 1 || j + 1 in degrees {
      TapMaskBits(order, degrees, j);
    }
    var period := Pow2(order) - 1;
    var state := 1;
    samples := [];
    for i := 0 to period
      invariant state == Iter(Register(mask), 1, i)
      invariant samples == Output(Register(mask), 1, i)
    {
      var out := state % 2;
      ghost var before := state;
      state := state / 2;
      if out == 1 {
        state := Xor(state, mask);
      }
      assert state == Register(mask)(before);
      samples := samples + [if out == 1 then 1 else -1];
    }
    returned := state == 1;
  }

  /** `build_mls_case`: a row is written exactly when the mask is maximal-length and the
      reference is a rotation of its sequence or of the reversal; the shift in the row is
      then the only one for that orientation. */
  method BuildMlsCase(order: nat, degrees: seq<nat>, reference: seq<int>) returns (r: Case)
    requires order >= 1 && forall i :: 0 <= i < |degrees| ==> 1 <= degrees[i] <= order
    requires |reference| == Period(order) && Signs(reference)
    ensures var mask := TapMask(order, degrees);
            var o := Output(Register(mask), 1, Period(order));
            && (r.NotPrimitive? || r.Unbalanced? <==> !MaximalLength(order, mask))
            && (r.NoAlignment? ==> forall s: nat, v: bool :: !Aligns(Candidate(o, v), s, reference))
            && (r.Row? ==> r.mask == mask &&
                           forall s: nat :: Aligns(Candidate(o, r.reversed), s, reference) <==> s == r.shift)
  {
    var samples, mask, returned := GaloisSequence(order, degrees);
    TapMaskTopBit(order, degrees);
    ChecksDecideMaximality(order, mask);
    PeriodSize(order);
    if !returned {
      return NotPrimitive;
    }
    if Ones(samples) != Pow2(order - 1) {
      return Unbalanced;
    }
    var found := FindAlignmentShift(samples, reference);
    if found.None? {
      return NoAlignment;
    }
    var (shift, reversed) := found.value;
    MaximalTwoValued(order, mask, reversed);
    UniqueAlignment(Candidate(samples, reversed), shift, reference);
    return Row(mask, shift, reversed);
  }

  /** Both orientations of a maximal-length sequence have the ideal autocorrelation. */
  lemma MaximalTwoValued(order: nat, mask: nat, reversed: bool)
    requires TopBitSet(order, mask) && MaximalLength(order, mask)
    ensures TwoValued(Candidate(Output(Register(mask), 1, Period(order)), reversed))
  {
    var o := Output(Register(mask), 1, Period(order));
    assert TwoValued(o) by {
      forall s: nat | 0 < s < |o| ensures Correlation(o, o, s) == -1 {
        Autocorrelation(order, mask, s);
      }
    }
    ReversedTwoValued(o);
  }

  lemma UniqueAlignment(c: seq<int>, shift: nat, reference: seq<int>)
    requires TwoValued(c) && Signs(c) && Signs(reference) && Aligns(c, shift, reference)
    ensures forall s: nat :: Aligns(c, s, reference) <==> s == shift
  {
    AlignsIsRolled(c, shift, reference);
    forall s: nat ensures Aligns(c, s, reference) ==> s == shift {
      if Aligns(c, s, reference) && s != shift {
        AlignsIsRolled(c, s, reference);
        OffPeak(c, shift, s);
        PeakIsAlignment(c, reference, s);
      }
    }
  }
}
