/** The in-place FFT of nginx/html/js/benchmark.js on separate real and imaginary
    arrays, in exact arithmetic, proved equal to the transform of module Dft. */
module Fft {
  import opened Complexes
  import opened Bits
  import opened Dft

  function Zip(re: seq<real>, im: seq<real>): (r: Signal)
    requires |re| == |im|
    ensures |r| == |re|
  {
    seq(|re|, i requires 0 <= i < |re| => Complex(re[i], im[i]))
  }

  /** The complex signal that the two arrays hold. */
  ghost function Sig(re: array<real>, im: array<real>): (r: Signal)
    requires re.Length == im.Length
    reads re, im
    ensures |r| == re.Length
  {
    Zip(re[..], im[..])
  }

  // ----- Bit reversal -------------------------------------------------------

  lemma RevOddEven(b: nat, i: nat)
    requires b > 0
    ensures i % 2 == 0 ==> Rev(b, i) == Rev(b - 1, i / 2) < Exp2(b - 1)
    ensures i % 2 == 0 ==> Rev(b, i + 1) == Rev(b, i) + Exp2(b - 1)
    ensures i % 2 == 1 ==> Rev(b, i) == Exp2(b - 1) + Rev(b - 1, i / 2)
    ensures i % 2 == 1 ==> Rev(b, i + 1) == Rev(b - 1, i / 2 + 1)
  {
    RevBound(b - 1, i / 2);
    if i % 2 == 0 {
      assert (i + 1) / 2 == i / 2 && (i + 1) % 2 == 1;
    } else {
      assert (i + 1) / 2 == i / 2 + 1 && (i + 1) % 2 == 0;
    }
  }

  /** The reverse-carry step: from the bit reversal of i to that of i + 1. The
      carry always stops at a clear bit, so the loop ends with `bit` above 0. */
  method ReverseCarry(n: nat, j0: nat, ghost m: nat, ghost i: nat) returns (j: nat)
    requires n == Exp2(m) && i + 1 < n && j0 == Rev(m, i)
    ensures j == Rev(m, i + 1)
  {
    j := j0;
    var bit := n / 2;
    ghost var b: nat, c: nat := m, i;
    TopBitOf(b, c);
    while And(j, bit) != 0
      invariant b > 0 && c + 1 < Exp2(b) && bit == Exp2(b - 1)
      invariant j == Rev(b, c) && Rev(b, c + 1) == Rev(m, i + 1)
      decreases b
    {
      TopBitOf(b, c);
      RevOddEven(b, c);
      j := Xor(j, bit);
      bit := bit / 2;
      b, c := b - 1, c / 2;
    }
    TopBitOf(b, c);
    RevOddEven(b, c);
    j := Or(j, bit);
  }

  lemma TopBitOf(b: nat, c: nat)
    requires c + 1 < Exp2(b)
    ensures b > 0
    ensures var j, bit := Rev(b, c), Exp2(b - 1);
      && And(j, bit) == (if c % 2 == 1 then bit else 0)
      && (c % 2 == 1 ==> Xor(j, bit) == j - bit)
      && (c % 2 == 0 ==> Or(j, bit) == j + bit)
  {
    RevBound(b, c);
    TopBit(Rev(b, c), b - 1);
    RevOddEven(b, c);
  }

  /** The pairs whose smaller index is below i have been exchanged, no others. */
  ghost predicate ExchangedBelow(a: seq<real>, x: seq<real>, m: nat, i: nat)
    requires |a| == |x| == Exp2(m)
  {
    RevBoundAll(m);
    forall p: nat :: p < |x| ==> a[p] == if p < i || Rev(m, p) < i then x[Rev(m, p)] else x[p]
  }

  lemma ExchangeStep(a: seq<real>, x: seq<real>, m: nat, i: nat)
    requires |a| == |x| == Exp2(m) && i < |x| && ExchangedBelow(a, x, m, i)
    ensures Rev(m, i) < |x|
    ensures var j := Rev(m, i);
      ExchangedBelow(if i < j then a[i := a[j]][j := a[i]] else a, x, m, i + 1)
  {
    RevBoundAll(m);
    forall p: nat | p < |x| ensures Rev(m, Rev(m, p)) == p { RevInvolution(m, p); }
  }

  lemma SigIsZip(re: array<real>, im: array<real>)
    requires re.Length == im.Length
    ensures Sig(re, im) == Zip(re[..], im[..])
  {}

  lemma AllExchanged(re: array<real>, im: array<real>, r0: seq<real>, i0: seq<real>, m: nat)
    requires re.Length == im.Length == |r0| == |i0| == Exp2(m)
    requires ExchangedBelow(re[..], r0, m, re.Length) && ExchangedBelow(im[..], i0, m, re.Length)
    ensures Sig(re, im) == BitReversed(Zip(r0, i0), m)
  {
    hide Rev;
    RevBoundAll(m);
  }

  method BitReverse(re: array<real>, im: array<real>, ghost m: nat)
    requires re != im && re.Length == im.Length == Exp2(m)
    modifies re, im
    ensures Sig(re, im) == BitReversed(old(Sig(re, im)), m)
  {
    hide *;
    var n := re.Length;
    ghost var r0, i0 := re[..], im[..];
    SigIsZip(re, im);
    var i, j := 1, 0;
    RevZero(m);
    NothingExchanged(r0, m);
    NothingExchanged(i0, m);
    while i < n
      invariant 1 <= i <= n && j == Rev(m, i - 1)
      invariant ExchangedBelow(re[..], r0, m, i) && ExchangedBelow(im[..], i0, m, i)
    {
      j := ReverseCarry(n, j, m, i - 1);
      ExchangeStep(re[..], r0, m, i);
      ExchangeStep(im[..], i0, m, i);
      if i < j {
        ghost var a, b := re[..], im[..];
        re[i], re[j] := re[j], re[i];
        im[i], im[j] := im[j], im[i];
        assert re[..] == a[i := a[j]][j := a[i]];
        assert im[..] == b[i := b[j]][j := b[i]];
      }
      i := i + 1;
    }
    AllExchanged(re, im, r0, i0, m);
  }

  lemma {:induction false} RevZero(m: nat)
    ensures Rev(m, 0) == 0
  {
    if m > 0 { RevZero(m - 1); }
  }

  lemma NothingExchanged(x: seq<real>, m: nat)
    requires |x| == Exp2(m)
    ensures ExchangedBelow(x, x, m, 1)
  {
    RevZero(m);
    RevBoundAll(m);
    forall p: nat | p < |x| && Rev(m, p) == 0 ensures p == 0 { RevInvolution(m, p); }
  }

  // ----- Butterflies ----------------------------------------------------------

  /** ONE butterfly on the samples p and q, with twiddle w = wR + i*wI. */
  method Butterfly(re: array<real>, im: array<real>, p: nat, q: nat, wR: real, wI: real)
    requires re != im && p < re.Length && q < re.Length && p != q && re.Length == im.Length
    modifies re, im
    ensures var a, w := old(Sig(re, im)), Complex(wR, wI);
      Sig(re, im) == a[p := Add(a[p], Mul(a[q], w))][q := Sub(a[p], Mul(a[q], w))]
  {
    var uR, uI := re[p], im[p];
    var aR, aI := re[q], im[q];
    var vR := aR * wR - aI * wI;
    var vI := aR * wI + aI * wR;
    ghost var a := Sig(re, im);
    ghost var v := Mul(a[q], Complex(wR, wI));
    assert a[p] == Complex(uR, uI) && a[q] == Complex(aR, aI) && v == Complex(vR, vI);
    assert Complex(uR + vR, uI + vI) == Add(a[p], v) && Complex(uR - vR, uI - vI) == Sub(a[p], v);
    hide Mul, Add, Sub;
    re[p], im[p] := uR + vR, uI + vI;
    re[q], im[q] := uR - vR, uI - vI;
    assert Sig(re, im) == a[p := Add(a[p], v)][q := Sub(a[p], v)];
  }

  method NextTwiddle(wR: real, wI: real, wlen: Complex, ghost k: nat) returns (nR: real, nI: real)
    requires Complex(wR, wI) == Pow(wlen, k)
    ensures Complex(nR, nI) == Pow(wlen, k + 1)
  {
    nR := wR * wlen.re - wI * wlen.im;
    nI := wR * wlen.im + wI * wlen.re;
  }

  /** The signal after the first k butterflies of the block of length 2*half at i. */
  ghost function AfterButterflies(a: Signal, i: nat, half: nat, w: Complex, k: nat): (r: Signal)
    requires i + 2 * half <= |a| && k <= half
    ensures |r| == |a|
  {
    seq(|a|, p requires 0 <= p < |a| =>
      if i <= p < i + k then Add(a[p], Mul(a[p + half], Pow(w, p - i)))
      else if i + half <= p < i + half + k then Sub(a[p - half], Mul(a[p], Pow(w, p - half - i)))
      else a[p])
  }

  lemma NoButterfly(a: Signal, i: nat, half: nat, w: Complex)
    requires i + 2 * half <= |a|
    ensures AfterButterflies(a, i, half, w, 0) == a && Pow(w, 0) == Complex(1.0, 0.0)
  {}

  lemma OneMoreButterfly(a: Signal, i: nat, half: nat, w: Complex, k: nat)
    requires i + 2 * half <= |a| && k < half
    ensures var p, q, b := i + k, i + k + half, AfterButterflies(a, i, half, w, k);
      AfterButterflies(a, i, half, w, k + 1)
      == b[p := Add(b[p], Mul(b[q], Pow(w, k)))][q := Sub(b[p], Mul(b[q], Pow(w, k)))]
  {
    hide Mul, Add, Sub, Pow;
  }

  /** b is a with the butterflies of the block of length 2*half at i carried out. */
  ghost predicate BlockDone(a: Signal, b: Signal, i: nat, half: nat, w: Complex)
    requires i + 2 * half <= |a| == |b|
  {
    && b[..i] == a[..i] && b[i + 2 * half..] == a[i + 2 * half..]
    && b[i..i + 2 * half] == Combine(a[i..i + 2 * half], w)
  }

  lemma CombineAt(s: Signal, h: nat, w: Complex, k: nat)
    requires |s| == 2 * h && k < h
    ensures Combine(s, w)[k] == Add(s[k], Mul(s[k + h], Pow(w, k)))
    ensures Combine(s, w)[k + h] == Sub(s[k], Mul(s[k + h], Pow(w, k)))
  {
    hide Mul, Add, Sub, Pow;
  }

  lemma AfterAt(a: Signal, i: nat, half: nat, w: Complex, k: nat)
    requires i + 2 * half <= |a| && k < half
    ensures var b := AfterButterflies(a, i, half, w, half);
      && b[i + k] == Add(a[i + k], Mul(a[i + k + half], Pow(w, k)))
      && b[i + k + half] == Sub(a[i + k], Mul(a[i + k + half], Pow(w, k)))
  {
    hide Mul, Add, Sub, Pow;
  }

  lemma CombinedSample(a: Signal, i: nat, half: nat, w: Complex, k: nat)
    requires i + 2 * half <= |a| && k < 2 * half
    ensures AfterButterflies(a, i, half, w, half)[i + k] == Combine(a[i..i + 2 * half], w)[k]
  {
    hide *;
    var s, j := a[i..i + 2 * half], if k < half then k else k - half;
    assert s[j] == a[i + j] && s[j + half] == a[i + j + half];
    CombineAt(s, half, w, j);
    AfterAt(a, i, half, w, j);
  }

  lemma BlockIsDone(a: Signal, i: nat, half: nat, w: Complex)
    requires i + 2 * half <= |a|
    ensures BlockDone(a, AfterButterflies(a, i, half, w, half), i, half, w)
  {
    hide Mul, Add, Sub, Pow, Combine;
    var b, c := AfterButterflies(a, i, half, w, half), Combine(a[i..i + 2 * half], w);
    assert forall p: nat :: p < i || i + 2 * half <= p < |a| ==> b[p] == a[p];
    hide AfterButterflies;
    forall k: nat | k < 2 * half ensures b[i..i + 2 * half][k] == c[k] {
      CombinedSample(a, i, half, w, k);
    }
    assert b[i..i + 2 * half] == c;
  }

  /** The butterflies of the block of length 2*half at i, with the running twiddle. */
  method Butterflies(re: array<real>, im: array<real>, i: nat, half: nat, wlen: Complex)
    requires re != im && re.Length == im.Length && i + 2 * half <= re.Length
    modifies re, im
    ensures BlockDone(old(Sig(re, im)), Sig(re, im), i, half, wlen)
  {
    hide *;
    ghost var a := Sig(re, im);
    var wR, wI := 1.0, 0.0;
    var k := 0;
    NoButterfly(a, i, half, wlen);
    while k < half
      invariant k <= half && Complex(wR, wI) == Pow(wlen, k)
      invariant Sig(re, im) == AfterButterflies(a, i, half, wlen, k)
    {
      OneMoreButterfly(a, i, half, wlen, k);
      Butterfly(re, im, i + k, i + k + half, wR, wI);
      wR, wI := NextTwiddle(wR, wI, wlen, k);
      k := k + 1;
    }
    BlockIsDone(a, i, half, wlen);
  }

  // ----- Stages -----------------------------------------------------------------

  lemma BlockDoneParts(a: Signal, b: Signal, i: nat, half: nat, w: Complex)
    requires i + 2 * half <= |a| == |b| && BlockDone(a, b, i, half, w)
    ensures b[..i] == a[..i] && b[i + 2 * half..] == a[i + 2 * half..]
    ensures b[i..i + 2 * half] == Combine(a[i..i + 2 * half], w)
  {}

  lemma StageUnfold(a: Signal, h: nat, w: Complex)
    requires h >= 1 && |a| >= 2 * h
    ensures Stage(a, h, w) == Combine(a[..2 * h], w) + Stage(a[2 * h..], h, w)
  {}

  lemma BlockAdvances(a: Signal, b: Signal, c: Signal, i: nat, h: nat, w: Complex)
    requires h >= 1 && |a| == |b| == |c| && i + 2 * h <= |a| && BlockDone(b, c, i, h, w)
    requires b[i..] == a[i..] && Stage(a, h, w) == b[..i] + Stage(a[i..], h, w)
    ensures c[i + 2 * h..] == a[i + 2 * h..]
    ensures Stage(a, h, w) == c[..i + 2 * h] + Stage(a[i + 2 * h..], h, w)
  {
    hide *;
    BlockDoneParts(b, c, i, h, w);
    StageUnfold(a[i..], h, w);
    assert b[i..i + 2 * h] == a[i..][..2 * h] && a[i..][2 * h..] == a[i + 2 * h..];
    assert c[..i + 2 * h] == b[..i] + c[i..i + 2 * h];
    assert b[i + 2 * h..] == b[i..][2 * h..];
  }

  lemma MultipleStep(n: nat, l: nat)
    requires Multiple(n, l) && n > 0
    ensures l <= n && Multiple(n - l, l)
  {}

  /** ONE pass of the stage loop: every block of length 2*half, left to right. */
  method ButterflyStage(re: array<real>, im: array<real>, half: nat, wlen: Complex)
    requires re != im && re.Length == im.Length && half >= 1 && Multiple(re.Length, 2 * half)
    modifies re, im
    ensures Sig(re, im) == Stage(old(Sig(re, im)), half, wlen)
  {
    hide *;
    var n, len := re.Length, 2 * half;
    ghost var a := Sig(re, im);
    var i := 0;
    assert a[0..] == a && a[..0] + Stage(a, half, wlen) == Stage(a, half, wlen);
    while i < n
      invariant i <= n && Multiple(n - i, len)
      invariant Sig(re, im)[i..] == a[i..]
      invariant Stage(a, half, wlen) == Sig(re, im)[..i] + Stage(a[i..], half, wlen)
    {
      ghost var b := Sig(re, im);
      MultipleStep(n - i, len);
      Butterflies(re, im, i, half, wlen);
      BlockAdvances(a, b, Sig(re, im), i, half, wlen);
      i := i + len;
    }
    assert a[n..] == [] && Sig(re, im)[..n] == Sig(re, im);
  }

  lemma Exponent(n: nat) returns (m: nat)
    requires IsExp2(n)
    ensures Exp2(m) == n
  {
    m :| Exp2(m) == n;
  }

  lemma EmptyTransform(x: Signal, w: Complex)
    requires x == []
    ensures DftOf(x, w) == x
  {}

  /** fftInPlace: leaves the discrete Fourier transform of the signal in the arrays;
      refuses a length that is no power of two and then changes nothing. The length
      variable doubles in 32 bits; StageLoopExits says why the bound is needed. */
  method FftInPlace(re: array<real>, im: array<real>, tw: nat -> Complex) returns (ok: bool)
    requires re != im && re.Length == im.Length && re.Length < 0x4000_0000
    requires TwiddleLaws(tw)
    modifies re, im
    ensures ok <==> re.Length == 0 || IsExp2(re.Length)
    ensures Sig(re, im) ==
            if ok then DftOf(old(Sig(re, im)), tw(re.Length)) else old(Sig(re, im))
  {
    hide *;
    var n := re.Length;
    ghost var x := Sig(re, im);
    PowerOfTwoTest(n);
    if AndPredecessor(n) != 0 { return false; }
    if n == 0 {  // none of the loops runs
      EmptyTransform(x, tw(n));
      return true;
    }
    ghost var m := Exponent(n);
    BitReverse(re, im, m);
    FftIsDft(x, m, tw);
    ghost var s := 0;
    var len := 2;
    StageLength(n, 0, m);
    NextStage(BitReversed(x, m), 0, tw);
    while len <= n
      invariant s <= m && len == Exp2(s + 1)
      invariant Sig(re, im) == Stages(BitReversed(x, m), s, tw)
      decreases m - s
    {
      StageLength(n, s, m);
      NextStage(BitReversed(x, m), s, tw);
      ButterflyStage(re, im, len / 2, tw(len));
      len := Shl32(len);
      s := s + 1;
    }
    StageLength(n, s, m);
    return true;
  }

  lemma NextStage(a: Signal, s: nat, tw: nat -> Complex)
    ensures Stages(a, 0, tw) == a
    ensures Stages(a, s + 1, tw) == Stage(Stages(a, s, tw), Exp2(s), tw(Exp2(s + 1)))
  {
    hide Stage;
  }

  /** The length variable of stage s, while it is still at most n, and its doubling. */
  lemma StageLength(n: nat, s: nat, m: nat)
    requires Exp2(m) == n < 0x4000_0000 && s <= m
    ensures Exp2(s + 1) == 2 * Exp2(s) && Exp2(1) == 2
    ensures Exp2(s + 1) <= n <==> s < m
    ensures Exp2(s + 1) <= n ==>
      Shl32(Exp2(s + 1)) == Exp2(s + 2) && Multiple(n, Exp2(s + 1))
  {
    if s < m {
      if s + 1 < m { Exp2Monotone(s + 1, m); }
      Exp2Multiple(s + 1, m);
      DoubleSmall(Exp2(s + 1));
    }
  }

  /** The stage loop `for (len = 2; len <= n; len <<= 1)` ends exactly for lengths
      below 2^30: from there on the doubled length turns negative, then zero. */
  lemma StageLoopExits(n: nat)
    requires 1 <= n < 0x8000_0000
    ensures (exists k: nat :: k >= 1 && ShlTimes(1, k) > n) <==> n < 0x4000_0000
  {
    hide ShlTimes, Exp2;
    if n < 0x4000_0000 {
      Exp2Table();
      ShlTimesOne(30);
      assert ShlTimes(1, 30) > n;
    } else {
      forall k: nat | k >= 1 ensures ShlTimes(1, k) <= n {
        ShlTimesOne(k);
        if k < 31 { Exp2Below31(k); }
      }
    }
  }
}
