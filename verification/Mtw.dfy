/** The multi-resolution band layout of tools/gen_mtw.py: k octaves, each with half the FFT
    of the one below, stitched into one list of frequencies; in exact arithmetic. */
module Mtw {
  import opened Bits

  datatype Band = Band(fftSize: nat, hop: nat, firstBin: int, lastBin: int, firstIndex: nat)
  {
    function Count(): int { lastBin - firstBin + 1 }
  }

  // ------------------------------------------------------------------- mtw_bands

  /** Where band i of the layout starts: the bottom band brings a quarter of n0, every other
      one below the top an eighth. */
  function StartOf(n0: nat, i: nat): nat {
    if i == 0 then 0 else n0 / 4 + (i - 1) * (n0 / 8)
  }

  /** The closed form of band i. */
  function BandAt(n0: nat, k: nat, i: nat): Band
    requires i <= k
  {
    var fft := n0 * Pow2(k - i);
    Band(fft, fft / 4, if i == 0 then 0 else n0 / 8, if i == k then n0 / 2 else n0 / 4 - 1, StartOf(n0, i))
  }

  /** `mtw_bands`: first_index accumulates the sizes of the bands below. */
  method MtwBands(n0: nat, k: nat) returns (bands: seq<Band>)
    requires n0 > 0 && n0 % 8 == 0
    ensures |bands| == k + 1 && forall i :: 0 <= i <= k ==> bands[i] == BandAt(n0, k, i)
    ensures bands[k].fftSize == n0 && forall i :: 0 <= i < k ==> bands[i].fftSize == 2 * bands[i + 1].fftSize
    ensures forall i :: 0 <= i <= k ==> 4 * bands[i].hop == bands[i].fftSize
  {
    bands := [];
    var running := 0;
    for i := 0 to k + 1
      invariant |bands| == i && (forall j :: 0 <= j < i ==> bands[j] == BandAt(n0, k, j))
      invariant i <= k ==> running == StartOf(n0, i)
    {
      var fftSize := n0 * Pow2(k - i);
      var hop := fftSize / 4;
      var firstBin := if i == 0 then 0 else n0 / 8;
      var lastBin := if i == k then n0 / 2 else n0 / 4 - 1;
      var firstIndex := running;
      StartStep(n0, k, i);
      running := running + (lastBin - firstBin + 1);
      bands := bands + [Band(fftSize, hop, firstBin, lastBin, firstIndex)];
    }
    LayoutSizes(bands, n0, k);
  }

  /** Each band starts where the one below ends, and the top one ends the layout. */
  lemma {:induction false} StartStep(n0: nat, k: nat, i: nat)
    requires n0 > 0 && n0 % 8 == 0 && i <= k
    ensures var b := BandAt(n0, k, i);
            b.Count() > 0 && b.firstIndex + b.Count() == if i < k then StartOf(n0, i + 1) else (k + 4) * (n0 / 8) + 1
  {
    var e := n0 / 8;
    assert n0 == 8 * e && n0 / 4 == 2 * e && n0 / 2 == 4 * e;
    if i > 0 {
      assert (i - 1) * e + e == i * e by { Spread(i - 1, 1, e); }
    }
    assert (k + 4) * e == k * e + 4 * e by { Spread(k, 4, e); }
    if k > 0 { assert (k - 1) * e + e == k * e by { Spread(k - 1, 1, e); } }
  }

  lemma Spread(a: int, b: int, e: int)
    ensures (a + b) * e == a * e + b * e
  {
  }

  // -------------------------------------------------------------- mtw_frequencies

  function Frequency(bin: int, fftSize: nat, fs: real): real
    requires fftSize > 0
  {
    bin as real * fs / fftSize as real
  }

  function BandFrequencies(b: Band, from: int, fs: real): (r: seq<real>)
    requires b.fftSize > 0 && from <= b.lastBin + 1
    ensures |r| == b.lastBin + 1 - from && forall j :: 0 <= j < |r| ==> r[j] == Frequency(from + j, b.fftSize, fs)
    decreases b.lastBin + 1 - from
  {
    if from > b.lastBin then [] else [Frequency(from, b.fftSize, fs)] + BandFrequencies(b, from + 1, fs)
  }

  /** A layout whose bands hold at least one bin each. */
  predicate Proper(bands: seq<Band>) {
    forall i :: 0 <= i < |bands| ==> bands[i].fftSize > 0 && bands[i].Count() > 0
  }

  function Frequencies(bands: seq<Band>, fs: real): (r: seq<real>)
    requires Proper(bands)
    ensures bands != [] ==> r != [] && r[0] == Frequency(bands[0].firstBin, bands[0].fftSize, fs)
  {
    if bands == [] then [] else BandFrequencies(bands[0], bands[0].firstBin, fs) + Frequencies(bands[1..], fs)
  }

  predicate Increasing(s: seq<real>) {
    forall i, j :: 0 <= i < j < |s| ==> s[i] < s[j]
  }

  /** Band a's next bin is exactly band b's first. */
  predicate Seam(a: Band, b: Band, fs: real)
    requires a.fftSize > 0 && b.fftSize > 0
  {
    Frequency(a.lastBin + 1, a.fftSize, fs) == Frequency(b.firstBin, b.fftSize, fs)
  }

  predicate Stitched(bands: seq<Band>, fs: real)
    requires Proper(bands)
  {
    forall i :: 0 <= i < |bands| - 1 ==> Seam(bands[i], bands[i + 1], fs)
  }

  lemma {:induction false} HigherBin(a: int, b: int, fftSize: nat, fs: real)
    requires a < b && fftSize > 0 && fs > 0.0
    ensures Frequency(a, fftSize, fs) < Frequency(b, fftSize, fs)
  {
    var x, y, m := a as real * fs, b as real * fs, fftSize as real;
    assert y - x == (b as real - a as real) * fs;
    assert y - x > 0.0;
    assert y / m - x / m == (y - x) / m;
  }

  /** Half the bin of half the FFT is the same frequency. */
  lemma {:induction false} Octave(bin: int, fftSize: nat, fs: real)
    requires fftSize > 0
    ensures Frequency(2 * bin, 2 * fftSize, fs) == Frequency(bin, fftSize, fs)
  {
    var x, m := bin as real * fs, fftSize as real;
    assert (2 * bin) as real * fs == 2.0 * x;
    assert (2 * fftSize) as real == 2.0 * m;
    assert 2.0 * x / (2.0 * m) == x / m;
  }

  lemma {:induction false} BandIncreasing(b: Band, from: int, fs: real)
    requires b.fftSize > 0 && from <= b.lastBin + 1 && fs > 0.0
    ensures Increasing(BandFrequencies(b, from, fs))
  {
    var r := BandFrequencies(b, from, fs);
    forall i, j | 0 <= i < j < |r| ensures r[i] < r[j] {
      HigherBin(from + i, from + j, b.fftSize, fs);
    }
  }

  lemma {:induction false} IncreasingConcat(a: seq<real>, b: seq<real>)
    requires Increasing(a) && Increasing(b) && (a != [] && b != [] ==> a[|a| - 1] < b[0])
    ensures Increasing(a + b)
  {
    forall i, j | 0 <= i < |a| && 0 <= j < |b| ensures a[i] < b[j] {
      assert i < |a| - 1 ==> a[i] < a[|a| - 1];
      assert 0 < j ==> b[0] < b[j];
    }
    var s := a + b;
    forall i, j | 0 <= i < j < |s| ensures s[i] < s[j] {
      assert i < |a| <= j ==> s[i] == a[i] && s[j] == b[j - |a|];
    }
  }

  /** Stitched bands give a strictly increasing list. */
  lemma {:induction false} StitchedIncreasing(bands: seq<Band>, fs: real)
    requires Proper(bands) && fs > 0.0 && Stitched(bands, fs)
    ensures Increasing(Frequencies(bands, fs))
  {
    if bands != [] {
      var b := bands[0];
      var head := BandFrequencies(b, b.firstBin, fs);
      BandIncreasing(b, b.firstBin, fs);
      assert forall i :: 0 <= i < |bands[1..]| - 1 ==> bands[1..][i] == bands[i + 1];
      StitchedIncreasing(bands[1..], fs);
      if |bands| > 1 {
        assert Seam(bands[0], bands[1], fs);
        HigherBin(b.lastBin, b.lastBin + 1, b.fftSize, fs);
        assert head[|head| - 1] == Frequency(b.lastBin, b.fftSize, fs);
      }
      IncreasingConcat(head, Frequencies(bands[1..], fs));
    }
  }

  /** Points before band i. */
  function Before(bands: seq<Band>, i: nat): int
    requires i <= |bands|
  {
    if i == 0 then 0 else Before(bands, i - 1) + bands[i - 1].Count()
  }

  lemma {:induction false} BeforeTail(bands: seq<Band>, i: nat)
    requires 0 < i <= |bands|
    ensures Before(bands, i) == bands[0].Count() + Before(bands[1..], i - 1)
  {
    if i > 1 {
      BeforeTail(bands, i - 1);
    }
  }

  /** Point j of band i stands at the band's first index plus j. */
  lemma {:induction false} PointAt(bands: seq<Band>, fs: real, i: nat, j: nat)
    requires Proper(bands) && i < |bands| && j < bands[i].Count()
    ensures var p := Before(bands, i) + j;
            0 <= p < |Frequencies(bands, fs)| &&
            Frequencies(bands, fs)[p] == Frequency(bands[i].firstBin + j, bands[i].fftSize, fs)
  {
    if i > 0 {
      assert bands[1..][i - 1] == bands[i];
      PointAt(bands[1..], fs, i - 1, j);
      BeforeTail(bands, i);
    }
  }

  lemma {:induction false} TotalPoints(bands: seq<Band>, fs: real)
    requires Proper(bands)
    ensures |Frequencies(bands, fs)| == Before(bands, |bands|)
  {
    if bands != [] {
      TotalPoints(bands[1..], fs);
      BeforeTail(bands, |bands|);
    }
  }

  // --------------------------------------------------------------- the whole layout

  ghost predicate IsLayout(bands: seq<Band>, n0: nat, k: nat) {
    |bands| == k + 1 && forall i :: 0 <= i <= k ==> bands[i] == BandAt(n0, k, i)
  }

  lemma {:induction false} FftSizes(n0: nat, k: nat, i: nat)
    requires n0 > 0 && i < k
    ensures BandAt(n0, k, i).fftSize == 2 * BandAt(n0, k, i + 1).fftSize && BandAt(n0, k, i + 1).fftSize > 0
  {
    var p := Pow2(k - i - 1);
    assert Pow2(k - i) == 2 * p;
    Positive(n0, p);
    assert n0 * (2 * p) == 2 * (n0 * p);
  }

  /** The top band has n0 points, every band twice as many as the one above, with a hop of a
      quarter. */
  lemma {:induction false} LayoutSizes(bands: seq<Band>, n0: nat, k: nat)
    requires n0 > 0 && n0 % 8 == 0 && IsLayout(bands, n0, k)
    ensures bands[k].fftSize == n0 && forall i :: 0 <= i < k ==> bands[i].fftSize == 2 * bands[i + 1].fftSize
    ensures forall i :: 0 <= i <= k ==> 4 * bands[i].hop == bands[i].fftSize
  {
    TopBand(n0, k);
    forall i | 0 <= i < k ensures bands[i].fftSize == 2 * bands[i + 1].fftSize { FftSizes(n0, k, i); }
    forall i | 0 <= i <= k ensures 4 * bands[i].hop == bands[i].fftSize { Quarter(n0, Pow2(k - i)); }
  }

  lemma Quarter(n0: nat, p: nat)
    requires n0 % 8 == 0
    ensures 4 * (n0 * p / 4) == n0 * p
  {
    var e := n0 / 4;
    var q := e * p;
    assert n0 * p == 4 * q by {
      assert n0 == 4 * e;
      Fourfold(e, p);
    }
  }

  lemma Fourfold(e: nat, p: nat)
    ensures (4 * e) * p == 4 * (e * p)
  {
  }

  lemma Positive(a: nat, b: nat)
    requires a > 0 && b > 0
    ensures a * b > 0
  {
  }

  lemma {:induction false} LayoutProper(bands: seq<Band>, n0: nat, k: nat)
    requires n0 > 0 && n0 % 8 == 0 && IsLayout(bands, n0, k)
    ensures Proper(bands)
  {
    forall i | 0 <= i < |bands| ensures bands[i].fftSize > 0 && bands[i].Count() > 0 {
      StartStep(n0, k, i);
      Positive(n0, Pow2(k - i));
    }
  }

  lemma {:induction false} FirstIndices(bands: seq<Band>, n0: nat, k: nat, i: nat)
    requires n0 > 0 && n0 % 8 == 0 && IsLayout(bands, n0, k) && i <= k
    ensures bands[i].firstIndex == Before(bands, i) && Before(bands, i) + bands[i].Count() == Before(bands, i + 1)
    ensures i == k ==> Before(bands, k + 1) == (k + 4) * (n0 / 8) + 1
  {
    if i > 0 {
      FirstIndices(bands, n0, k, i - 1);
      StartStep(n0, k, i - 1);
    }
    StartStep(n0, k, i);
  }

  lemma {:induction false} LayoutStitched(bands: seq<Band>, n0: nat, k: nat, fs: real)
    requires n0 > 0 && n0 % 8 == 0 && IsLayout(bands, n0, k) && Proper(bands)
    ensures Stitched(bands, fs)
  {
    forall i | 0 <= i < |bands| - 1 ensures Seam(bands[i], bands[i + 1], fs) {
      FftSizes(n0, k, i);
      assert n0 / 4 == 2 * (n0 / 8);
      Octave(n0 / 8, bands[i + 1].fftSize, fs);
    }
  }

  /** The layout for any octave count: a strictly increasing list of (k+4)n0/8+1 frequencies
      from bin 0 to the last bin of the top band, with each seam on the next bin of the band below and every
      first index the number of points before it. */
  lemma {:induction false} LayoutIsSeamless(bands: seq<Band>, n0: nat, k: nat, fs: real)
    requires n0 > 0 && n0 % 8 == 0 && IsLayout(bands, n0, k) && fs > 0.0
    ensures Proper(bands) && Stitched(bands, fs)
    ensures forall i :: 0 <= i <= k ==> bands[i].firstIndex == Before(bands, i)
    ensures |Frequencies(bands, fs)| == (k + 4) * (n0 / 8) + 1 && Increasing(Frequencies(bands, fs))
    ensures var f := Frequencies(bands, fs);
            f[0] == Frequency(0, bands[0].fftSize, fs) && f[|f| - 1] == Frequency(n0 / 2, n0, fs)
  {
    LayoutProper(bands, n0, k);
    LayoutStitched(bands, n0, k, fs);
    StitchedIncreasing(bands, fs);
    LayoutCount(bands, n0, k, fs);
    LayoutTop(bands, n0, k);
    LastPoint(bands, fs);
  }

  lemma {:induction false} LayoutCount(bands: seq<Band>, n0: nat, k: nat, fs: real)
    requires n0 > 0 && n0 % 8 == 0 && IsLayout(bands, n0, k) && Proper(bands)
    ensures forall i :: 0 <= i <= k ==> bands[i].firstIndex == Before(bands, i)
    ensures |Frequencies(bands, fs)| == (k + 4) * (n0 / 8) + 1
  {
    TotalPoints(bands, fs);
    forall i | 0 <= i <= k ensures bands[i].firstIndex == Before(bands, i) { FirstIndices(bands, n0, k, i); }
    FirstIndices(bands, n0, k, k);
  }

  lemma {:induction false} LayoutTop(bands: seq<Band>, n0: nat, k: nat)
    requires IsLayout(bands, n0, k)
    ensures bands[0].firstBin == 0 && bands[k].fftSize == n0 && bands[k].lastBin == n0 / 2
  {
    TopBand(n0, k);
  }

  /** Bands from bin 0 to half the size of the last one span the rate. */
  lemma {:induction false} SpansRate(bands: seq<Band>, n0: nat, fs: real)
    requires Proper(bands) && bands != [] && bands[0].firstBin == 0 && n0 > 0 && n0 % 2 == 0
    requires bands[|bands| - 1].fftSize == n0 && bands[|bands| - 1].lastBin == n0 / 2
    ensures var f := Frequencies(bands, fs); f != [] && f[0] == 0.0 && f[|f| - 1] == fs / 2.0
  {
    ZeroBin(bands[0].fftSize, fs);
    LastPoint(bands, fs);
    HalfRate(n0, fs);
  }

  /** So the layout runs from zero to half the rate. */
  lemma {:induction false} LayoutSpansRate(bands: seq<Band>, n0: nat, k: nat, fs: real) returns (low: real, high: real)
    requires n0 > 0 && n0 % 8 == 0 && IsLayout(bands, n0, k)
    ensures Proper(bands) && Frequencies(bands, fs) != [] && low == 0.0 && high == fs / 2.0
    ensures low == Frequencies(bands, fs)[0] && high == Frequencies(bands, fs)[|Frequencies(bands, fs)| - 1]
  {
    LayoutProper(bands, n0, k);
    LayoutTop(bands, n0, k);
    SpansRate(bands, n0, fs);
    low, high := 0.0, fs / 2.0;
  }

  lemma {:induction false} LastPoint(bands: seq<Band>, fs: real)
    requires Proper(bands) && bands != []
    ensures var f := Frequencies(bands, fs); var top := bands[|bands| - 1];
            f != [] && f[|f| - 1] == Frequency(top.lastBin, top.fftSize, fs)
  {
    if |bands| > 1 {
      LastPoint(bands[1..], fs);
    } else {
      assert bands[1..] == [];
    }
  }

  lemma TopBand(n0: nat, k: nat)
    ensures BandAt(n0, k, k).fftSize == n0 && BandAt(n0, k, k).lastBin == n0 / 2
  {
    assert Pow2(0) == 1;
  }

  lemma ZeroBin(fftSize: nat, fs: real)
    requires fftSize > 0
    ensures Frequency(0, fftSize, fs) == 0.0
  {
  }

  lemma HalfRate(n0: nat, fs: real)
    requires n0 > 0 && n0 % 2 == 0
    ensures Frequency(n0 / 2, n0, fs) == fs / 2.0
  {
    var h := n0 / 2;
    assert n0 as real == 2.0 * h as real;
    assert h as real * fs / (2.0 * h as real) == fs / 2.0;
  }

  // ------------------------------------------------------------------ the tail slice

  /** How many frames of 4 hops, one every hop, `n` samples hold. */
  function Frames(n: int, hop: nat): int
    requires hop > 0
  {
    1 + (n - 4 * hop) / hop
  }

  /** The length of `x[start:]` for n samples; a negative start counts from the end. */
  function SliceLength(n: nat, start: int): nat {
    if start >= n then 0 else if start >= 0 then n - start else if -start < n then -start else n
  }

  lemma {:induction false} DivideShifted(a: int, h: nat, q: int)
    requires h > 0
    ensures (a - q * h) / h == a / h - q
  {
    var d, r := a / h, a % h;
    assert a - q * h == (d - q) * h + r by { Spread(d, -q, h); }
    QuotientUnique(a - q * h, h, d - q, r);
  }

  lemma Scaled(d: int, h: nat)
    requires d >= 1
    ensures d * h >= h && (0 - d) * h == 0 - d * h
  {
  }

  /** Whole hops count. */
  lemma {:induction false} FramesAtLeast(n: int, hop: nat, depth: int)
    requires hop > 0
    ensures Frames(n, hop) >= depth <==> n >= (depth + 3) * hop
  {
    var q, r := (n - 4 * hop) / hop, (n - 4 * hop) % hop;
    assert n == (q + 4) * hop + r by { Spread(q, 4, hop); }
    Spread(q + 4, depth - 1 - q, hop);
    if q + 1 >= depth {
      NonNegative(q + 1 - depth, hop);
      assert (depth - 1 - q) * hop == 0 - (q + 1 - depth) * hop by { Spread(depth - 1 - q, q + 1 - depth, hop); }
    } else {
      Scaled(depth - 1 - q, hop);
    }
  }

  lemma NonNegative(a: int, h: nat)
    requires a >= 0
    ensures a * h >= 0
  {
  }

  /** The slice that starts `depth` frames before the last holds exactly `depth` frames when
      the input holds as many, and never otherwise. */
  lemma {:induction false} TailHoldsDepth(n: nat, hop: nat, depth: nat)
    requires hop > 0 && depth > 0
    ensures Frames(SliceLength(n, (Frames(n, hop) - depth) * hop), hop) == depth <==> Frames(n, hop) >= depth
  {
    var start := (Frames(n, hop) - depth) * hop;
    var length := SliceLength(n, start);
    FramesAtLeast(n, hop, depth);
    if Frames(n, hop) >= depth {
      NonNegative(Frames(n, hop) - depth, hop);
      FramesAtLeast(n, hop, Frames(n, hop));
      Spread(Frames(n, hop) - depth, depth + 3, hop);
      Scaled(depth + 3, hop);
      assert length == n - start;
      DivideShifted(n - 4 * hop, hop, Frames(n, hop) - depth);
    } else {
      assert length <= n by { if start >= 0 { } }
      FramesAtLeast(length, hop, depth);
    }
  }
}
