/** The zero-padded, shifted spectrum and its peak, as nginx/html/js/benchmark.js
    computes them around the FFT. `hypot` and `db` stand for the host's
    Math.hypot and 20*log10(. + 1e-12). */
module Spectrum {
  import opened Complexes
  import opened Bits
  import opened Dft
  import opened Fft

  /** nextPow2: the least power of two that is at least n (and at least 1). */
  method NextPow2(n: nat) returns (p: nat)
    requires n <= 0x4000_0000
    ensures IsExp2(p) && n <= p && (p == 1 || p < 2 * n)
  {
    p := 1;
    ghost var k := 0;
    assert p == Exp2(0);
    while p < n
      invariant p == Exp2(k) && (p == 1 || p < 2 * n)
      decreases n - p
    {
      DoubleSmall(p);
      p := Shl32(p);
      k := k + 1;
    }
  }

  /** The loop of nextPow2 ends exactly for arguments up to 2^30. */
  lemma NextPow2Exits(n: nat)
    requires 1 <= n < 0x8000_0000
    ensures (exists k: nat :: ShlTimes(1, k) >= n) <==> n <= 0x4000_0000
  {
    hide ShlTimes, Exp2;
    if n <= 0x4000_0000 {
      Exp2Table();
      ShlTimesOne(30);
      assert ShlTimes(1, 30) >= n;
    } else {
      forall k: nat ensures ShlTimes(1, k) < n {
        ShlTimesOne(k);
        if k < 31 { Exp2Below31(k); }
      }
    }
  }

  /** x followed by zeros up to length n: what the transform is taken of. */
  function ZeroPad(x: seq<real>, n: nat): (r: seq<real>)
    requires |x| <= n
    ensures |r| == n
  {
    x + seq(n - |x|, _ => 0.0)
  }

  method Padded(x: array<real>, n: nat) returns (r: array<real>)
    requires x.Length <= n
    ensures fresh(r) && r[..] == ZeroPad(x[..], n)
  {
    r := new real[n](_ => 0.0);
    forall i | 0 <= i < x.Length { r[i] := x[i]; }
    assert r[..x.Length] == x[..];
  }

  lemma ModIs(a: int, n: nat, q: int, r: nat)
    requires r < n && a == q * n + r
    ensures a % n == r
  {
    assert (q - a / n) * n == a % n - r;
    AtLeastOnce(q - a / n, n);
  }

  lemma AtLeastOnce(d: int, n: nat)
    ensures d >= 1 ==> d * n >= n
    ensures d <= -1 ==> d * n <= -(n as int)
  {}

  /** The slot arithmetic of the FFT shift: slot k holds bin (k - n/2) mod n, and
      its frequency is k - n/2 bin widths. */
  lemma ShiftedSlot(n: nat, k: nat)
    requires k < n && (n == 1 || n % 2 == 0)
    ensures var half := n / 2; var src := (k + half) % n;
      && src == Bin(k, n)
      && (src + half) % n - half == k - half
  {
    var half := n / 2;
    if k < half {
      ModIs(k + half, n, 0, k + half);
      ModIs(k - half, n, -1, k + half);
      ModIs(k + half + half, n, 1, k);
    } else {
      ModIs(k + half, n, if n == 1 then 0 else 1, k - half);
      ModIs(k - half, n, 0, k - half);
      ModIs(k, n, 0, k);
    }
  }

  /** Parabolic interpolation at a point above its left and not below its right
      neighbour: the divisor is not 0, and the vertex is at most half a step away. */
  lemma VertexWithinHalfStep(a: real, b: real, c: real)
    requires a < b && c <= b
    ensures var denom := a - 2.0 * b + c; var delta := 0.5 * (a - c) / denom;
      denom < 0.0 && -0.5 <= delta <= 0.5
  {
    var denom := a - 2.0 * b + c;
    DivideBounded(0.5 * (a - c), denom);
  }

  lemma ScaledVertex(x: real, d: real, delta: real, step: real)
    requires d != 0.0 && delta == 0.5 * x / d
    ensures 2.0 * d * (delta * step) == x * step
  {
    assert delta * d == 0.5 * x;
    assert 2.0 * d * (delta * step) == 2.0 * (delta * d) * step;
  }

  /** The parabola through a, b and c at -1, 0 and 1. */
  function Parabola(a: real, b: real, c: real, t: real): (r: real)
    ensures t == -1.0 ==> r == a
    ensures t == 0.0 ==> r == b
    ensures t == 1.0 ==> r == c
  {
    b + 0.5 * (c - a) * t + 0.5 * (a - 2.0 * b + c) * (t * t)
  }

  /** Offset `at` from slot p is the vertex of the parabola through p and its neighbours;
      a slot at the border has none and is left alone. */
  ghost predicate AtVertex(mag: seq<real>, p: nat, at: real, step: real)
    requires p < |mag|
  {
    if 0 < p < |mag| - 1
    then 2.0 * (mag[p - 1] - 2.0 * mag[p] + mag[p + 1]) * at == (mag[p - 1] - mag[p + 1]) * step
    else at == 0.0
  }

  /** Around a first maximum the vertex is where that parabola is highest. */
  lemma VertexIsHighest(mag: seq<real>, p: nat, u: real, step: real, t: real)
    requires FirstMaximum(mag, p) && 0 < p < |mag| - 1 && step > 0.0 && AtVertex(mag, p, u * step, step)
    ensures Parabola(mag[p - 1], mag[p], mag[p + 1], t) <= Parabola(mag[p - 1], mag[p], mag[p + 1], u)
  {
    var a, b, c := mag[p - 1], mag[p], mag[p + 1];
    var d := a - 2.0 * b + c;
    CancelStep(2.0 * d, u, a - c, step);
    BelowVertex(b, d, c - a, u, t);
  }

  lemma CancelStep(x: real, u: real, y: real, step: real)
    requires step > 0.0 && x * (u * step) == y * step
    ensures x * u == y
  {
    assert (x * u - y) * step == 0.0;
  }

  lemma BelowVertex(b: real, d: real, e: real, u: real, t: real)
    requires d < 0.0 && 2.0 * d * u == -e
    ensures b + 0.5 * e * t + 0.5 * d * (t * t) <= b + 0.5 * e * u + 0.5 * d * (u * u)
  {
    var w := u - t;
    assert w * w >= 0.0;
    assert w * w == u * u - 2.0 * (u * t) + t * t;
    assert d * (w * w) <= 0.0;
    assert e * t == -2.0 * (d * (u * t)) && e * u == -2.0 * (d * (u * u)) by {
      assert e == -2.0 * (d * u);
      assert e * t == -2.0 * (d * u * t) && d * u * t == d * (u * t);
      assert e * u == -2.0 * (d * u * u) && d * u * u == d * (u * u);
    }
    assert d * (w * w) == d * (u * u) - 2.0 * (d * (u * t)) + d * (t * t);
  }

  lemma DivideBounded(x: real, d: real)
    requires d < 0.0 && 0.5 * d <= x <= -0.5 * d
    ensures -0.5 <= x / d <= 0.5
  {
    var q := x / d;
    assert q * d == x;
  }

  /** The strict `>` of the search keeps the first index of the largest value. */
  ghost predicate FirstMaximum(mag: seq<real>, p: nat) {
    && p < |mag|
    && (forall k: nat :: k < |mag| ==> mag[k] <= mag[p])
    && (forall k: nat :: k < p ==> mag[k] < mag[p])
  }

  method PeakIndex(mag: array<real>) returns (peak: nat)
    requires mag.Length > 0
    ensures FirstMaximum(mag[..], peak)
  {
    peak := 0;
    var k := 1;
    while k < mag.Length
      invariant 1 <= k <= mag.Length && FirstMaximum(mag[..k], peak)
    {
      if mag[k] > mag[peak] { peak := k; }
      k := k + 1;
      assert mag[..k][..k - 1] == mag[..k - 1];
    }
    assert mag[..k] == mag[..];
  }

  /** The width of one frequency slot: n of them span the sampling rate. */
  function SlotWidth(fs: real, n: nat): (r: real)
    requires n > 0 && fs > 0.0
    ensures r > 0.0
  {
    fs / n as real
  }

  lemma SlotsSpan(fs: real, n: nat)
    requires n > 0 && fs > 0.0
    ensures n as real * SlotWidth(fs, n) == fs
  {}

  /** The frequency axis, without naming the width of a slot: slot n/2 is at zero, and n
      slots span the sampling rate. */
  ghost predicate InHertz(f: seq<real>, fs: real) {
    forall k: nat :: k < |f| ==> |f| as real * f[k] == (k - |f| / 2) as real * fs
  }

  lemma AxisInHertz(f: seq<real>, fs: real)
    requires |f| > 0 && fs > 0.0
    requires forall k: nat :: k < |f| ==> f[k] == SlotFrequency(k, |f|, fs)
    ensures InHertz(f, fs)
  {
    hide SlotFrequency;
    forall k: nat | k < |f| ensures |f| as real * f[k] == (k - |f| / 2) as real * fs {
      SlotScale(k, |f|, fs);
    }
  }

  /** Frequency of slot k. */
  function SlotFrequency(k: nat, n: nat, fs: real): real
    requires n > 0 && fs > 0.0
  {
    (k - n / 2) as real * SlotWidth(fs, n)
  }

  /** The parabolic interpolation of the peak frequency: never more than half a
      slot away from the peak slot. */
  method PeakFrequency(mag: array<real>, f: array<real>, peak: nat, step: real) returns (r: real)
    requires mag.Length == f.Length && FirstMaximum(mag[..], peak) && step > 0.0
    ensures -0.5 * step <= r - f[peak] <= 0.5 * step
    ensures AtVertex(mag[..], peak, r - f[peak], step)
  {
    r := f[peak];
    if peak > 0 && peak < mag.Length - 1 {
      var a, b, c := mag[peak - 1], mag[peak], mag[peak + 1];
      assert a == mag[..][peak - 1] && c == mag[..][peak + 1];
      VertexWithinHalfStep(a, b, c);
      var d := a - 2.0 * b + c;
      var denom := if d == 0.0 then 0.00000000000000000001 else d;
      var delta := 0.5 * (a - c) / denom;
      ScaleBounded(delta, step);
      ScaledVertex(a - c, d, delta, step);
      r := f[peak] + delta * step;
    }
  }

  /** Offset `at` from slot p, in hertz: where the parabola through p and its neighbours is
      highest, without naming the width of a slot. */
  ghost predicate AtVertexHertz(mag: seq<real>, p: nat, at: real, fs: real)
    requires p < |mag|
  {
    var n := |mag| as real;
    if 0 < p < |mag| - 1
    then 2.0 * (mag[p - 1] - 2.0 * mag[p] + mag[p + 1]) * (n * at) == (mag[p - 1] - mag[p + 1]) * fs
    else at == 0.0
  }

  ghost predicate WithinHalfSlot(at: real, n: nat, fs: real) { -fs <= 2.0 * (n as real * at) <= fs }

  method Peak(mag: array<real>, f: array<real>, fs: real) returns (peak: nat, freq: real)
    requires mag.Length == f.Length > 0 && fs > 0.0
    ensures FirstMaximum(mag[..], peak) && peak < mag.Length
    ensures WithinHalfSlot(freq - f[peak], mag.Length, fs)
    ensures AtVertexHertz(mag[..], peak, freq - f[peak], fs)
  {
    hide *;
    peak := PeakIndex(mag);
    FirstMaximumUse(mag[..], peak);
    freq := PeakFrequency(mag, f, peak, SlotWidth(fs, mag.Length));
    PeakInHertz(mag[..], peak, freq - f[peak], mag.Length, fs);
  }

  /** The magnitudes in slot order: slot k holds bin (k - n/2) mod n. */
  function Shifted(x: Signal, hypot: (real, real) -> real): (r: seq<real>)
    ensures |r| == |x|
  {
    var n := |x|;
    seq(n, k requires 0 <= k < n => Magnitude(x, Bin(k, n), hypot))
  }

  /** The bin that slot k shows. */
  function Bin(k: nat, n: nat): (r: nat)
    requires n > 0
    ensures r < n
  {
    (k - n / 2) % n
  }

  /** The FFT shift: frequency and magnitude of every slot. */
  method ShiftSlots(reP: array<real>, imP: array<real>, fs: real, hypot: (real, real) -> real)
    returns (f: array<real>, mag: array<real>)
    requires reP.Length == imP.Length && fs > 0.0
    requires reP.Length == 1 || (reP.Length > 0 && reP.Length % 2 == 0)
    ensures fresh(f) && fresh(mag) && f != mag && f.Length == mag.Length == reP.Length
    ensures mag[..] == Shifted(Sig(reP, imP), hypot)
    ensures forall k: nat :: k < f.Length ==> f[k] == SlotFrequency(k, f.Length, fs)
    ensures InHertz(f[..], fs)
  {
    hide *;
    var n := reP.Length;
    ghost var x := Sig(reP, imP);
    SigParts(reP, imP);
    var half := n / 2;
    f := new real[n];
    mag := new real[n];
    var k := 0;
    while k < n
      invariant k <= n
      invariant reP[..] == Reals(x) && imP[..] == Imags(x)
      invariant forall i: nat :: i < k ==> f[i] == SlotFrequency(i, n, fs)
      invariant mag[..k] == Shifted(x, hypot)[..k]
    {
      ShiftedSlot(n, k);
      var src := (k + half) % n;
      f[k] := ((src + half) % n - half) as real * SlotWidth(fs, n);
      mag[k] := hypot(reP[src], imP[src]);
      SlotValues(x, k, src, fs, hypot);
      assert mag[..k + 1] == mag[..k] + [mag[k]];
      k := k + 1;
    }
    assert mag[..] == mag[..n];
    AxisInHertz(f[..], fs);
  }

  lemma SlotScale(k: nat, n: nat, fs: real)
    requires n > 0 && fs > 0.0
    ensures n as real * SlotFrequency(k, n, fs) == (k - n / 2) as real * fs
  {
    SlotsSpan(fs, n);
    var w, m := SlotWidth(fs, n), (k - n / 2) as real;
    hide SlotWidth;
    assert n as real * (m * w) == m * (n as real * w);
  }

  lemma PeakScale(d: real, at: real, x: real, n: nat, fs: real)
    requires n > 0 && fs > 0.0
    ensures -0.5 * SlotWidth(fs, n) <= at <= 0.5 * SlotWidth(fs, n) ==> -fs <= 2.0 * (n as real * at) <= fs
    ensures 2.0 * d * at == x * SlotWidth(fs, n) ==> 2.0 * d * (n as real * at) == x * fs
  {
    SlotsSpan(fs, n);
    var w, m := SlotWidth(fs, n), n as real;
    hide SlotWidth;
    if -0.5 * w <= at <= 0.5 * w {
      assert m * (0.5 * w - at) >= 0.0 && m * (at + 0.5 * w) >= 0.0;
      assert m * (0.5 * w - at) == 0.5 * (m * w) - m * at && m * (at + 0.5 * w) == m * at + 0.5 * (m * w);
    }
    if 2.0 * d * at == x * w {
      assert 2.0 * d * (m * at) == m * (2.0 * d * at) == m * (x * w) == x * (m * w);
    }
  }

  /** spectrum: slot k pairs the frequency (k - n/2)*fs/n with bin (k - n/2) mod n of
      the zero-padded signal, the peak is the first maximum, and the interpolated
      peak frequency lies within half a slot of it. */
  method Spectrum(re: array<real>, im: array<real>, fs: real, tw: nat -> Complex,
                  hypot: (real, real) -> real, db: real -> real)
    returns (f: array<real>, magDb: array<real>, peakFreq: real, peak: nat, n: nat)
    requires re.Length == im.Length <= 0x2000_0000 && fs > 0.0 && TwiddleLaws(tw)
    ensures IsExp2(n) && re.Length <= n && (n == 1 || n < 2 * re.Length)
    ensures f.Length == magDb.Length == n
    ensures var x := DftOf(Zip(ZeroPad(re[..], n), ZeroPad(im[..], n)), tw(n));
            var mag := Shifted(x, hypot);
      && FirstMaximum(mag, peak)
      && (forall k: nat :: k < n ==> f[k] == SlotFrequency(k, n, fs))
      && (forall k: nat :: k < n ==> magDb[k] == db(mag[k]))
    ensures forall j: nat, k: nat :: j < k < n ==> f[j] < f[k]
    ensures InHertz(f[..], fs)
    ensures peak < n && WithinHalfSlot(peakFreq - f[peak], n, fs)
    ensures AtVertexHertz(Shifted(DftOf(Zip(ZeroPad(re[..], n), ZeroPad(im[..], n)), tw(n)), hypot), peak,
                          peakFreq - f[peak], fs)
  {
    hide *;
    n := NextPow2(re.Length);
    PowerOfTwoShape(n);
    var reP := Padded(re, n);
    var imP := Padded(im, n);
    SigIsZip(reP, imP);
    var ok := FftInPlace(reP, imP, tw);
    ghost var x := DftOf(Zip(ZeroPad(re[..], n), ZeroPad(im[..], n)), tw(n));
    var mag;
    f, mag := ShiftSlots(reP, imP, fs, hypot);
    magDb := new real[n](i requires 0 <= i < n reads mag => if i < mag.Length then db(mag[i]) else 0.0);
    assert forall k: nat :: k < n ==> magDb[k] == db(mag[k]);
    assert mag[..] == Shifted(x, hypot);
    peak, peakFreq := Peak(mag, f, fs);
    FrequenciesIncrease(f[..], n, fs);
  }

  /** Where the peak is, without naming the width of a slot. */
  lemma PeakInHertz(mag: seq<real>, p: nat, at: real, n: nat, fs: real)
    requires |mag| == n > p && fs > 0.0
    requires -0.5 * SlotWidth(fs, n) <= at <= 0.5 * SlotWidth(fs, n) && AtVertex(mag, p, at, SlotWidth(fs, n))
    ensures WithinHalfSlot(at, n, fs) && AtVertexHertz(mag, p, at, fs)
  {
    hide SlotWidth;
    if 0 < p < n - 1 {
      PeakScale(mag[p - 1] - 2.0 * mag[p] + mag[p + 1], at, mag[p - 1] - mag[p + 1], n, fs);
    } else {
      PeakScale(0.0, at, 0.0, n, fs);
    }
  }

  function Magnitude(x: Signal, bin: nat, hypot: (real, real) -> real): real {
    if bin < |x| then hypot(x[bin].re, x[bin].im) else 0.0
  }

  function Reals(x: Signal): (r: seq<real>)
    ensures |r| == |x|
  {
    seq(|x|, i requires 0 <= i < |x| => x[i].re)
  }

  function Imags(x: Signal): (r: seq<real>)
    ensures |r| == |x|
  {
    seq(|x|, i requires 0 <= i < |x| => x[i].im)
  }

  lemma SigParts(re: array<real>, im: array<real>)
    requires re.Length == im.Length
    ensures Reals(Sig(re, im)) == re[..] && Imags(Sig(re, im)) == im[..]
  {}

  lemma PowerOfTwoShape(n: nat)
    requires IsExp2(n)
    ensures n >= 1 && (n == 1 || n % 2 == 0)
  {
    var m: nat :| Exp2(m) == n;
    if m > 0 { assert Exp2(m) == 2 * Exp2(m - 1); }
  }

  lemma SlotValues(x: Signal, k: nat, src: nat, fs: real, hypot: (real, real) -> real)
    requires k < |x| && fs > 0.0 && src == Bin(k, |x|)
    ensures hypot(Reals(x)[src], Imags(x)[src]) == Shifted(x, hypot)[k]
    ensures (k - |x| / 2) as real * SlotWidth(fs, |x|) == SlotFrequency(k, |x|, fs)
  {
    assert src < |x| && Reals(x)[src] == x[src].re && Imags(x)[src] == x[src].im;
  }

  lemma FirstMaximumUse(mag: seq<real>, p: nat)
    requires FirstMaximum(mag, p)
    ensures p < |mag|
  {}

  lemma ScaleBounded(delta: real, step: real)
    requires step > 0.0 && -0.5 <= delta <= 0.5
    ensures -0.5 * step <= delta * step <= 0.5 * step
  {}

  lemma FrequenciesIncrease(f: seq<real>, n: nat, fs: real)
    requires n > 0 && |f| == n && fs > 0.0
    requires forall k: nat :: k < n ==> f[k] == SlotFrequency(k, n, fs)
    ensures forall j: nat, k: nat :: j < k < n ==> f[j] < f[k]
  {
    forall j: nat, k: nat | j < k < n ensures f[j] < f[k] {
      ScaleMonotone((j - n / 2) as real, (k - n / 2) as real, SlotWidth(fs, n));
    }
  }

  lemma ScaleMonotone(a: real, b: real, step: real)
    requires a < b && step > 0.0
    ensures a * step < b * step
  {}
}
