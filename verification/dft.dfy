/** The discrete Fourier transform by its definition, and the two halves of the
    radix-2 algorithm of nginx/html/js/benchmark.js as functions on sequences:
    the bit-reversal permutation and the butterfly stages. The main result says
    that running every stage on the bit-reversed signal gives the transform. */
module Dft {
  import opened Complexes
  import opened Bits

  type Signal = seq<Complex>

  /** sum over j of x[j] * w^(j*k) */
  function DftBin(x: Signal, w: Complex, k: nat): Complex {
    if x == [] then ZERO
    else
      var j := |x| - 1;
      Add(DftBin(x[..j], w, k), Mul(x[j], Pow(w, j * k)))
  }

  /** The transform of x with root w: every bin, in natural order. */
  function DftOf(x: Signal, w: Complex): (r: Signal)
    ensures |r| == |x|
  {
    seq(|x|, k requires 0 <= k < |x| => DftBin(x, w, k))
  }

  /** What the twiddle table has to satisfy: w(2) = -1 and w(2L)^2 = w(L). It
      holds of w(L) = exp(-2*pi*i/L), the values `Math.cos`/`Math.sin` stand for. */
  ghost predicate TwiddleLaws(tw: nat -> Complex) {
    && tw(2) == MINUS_ONE
    && forall l: nat :: l >= 1 ==> Mul(tw(2 * l), tw(2 * l)) == tw(l)
  }

  function Evens(x: Signal): (r: Signal)
    ensures |r| == |x| / 2
  {
    seq(|x| / 2, i requires 0 <= i < |x| / 2 => x[2 * i])
  }

  function Odds(x: Signal): (r: Signal)
    ensures |r| == |x| / 2
  {
    seq(|x| / 2, i requires 0 <= i < |x| / 2 => x[2 * i + 1])
  }

  // ----- Roots of unity ---------------------------------------------------

  /** w(L)^(L/2) = -1 and w(L)^L = 1, for L = 2^s. */
  lemma {:induction false} HalfTurn(tw: nat -> Complex, s: nat)
    requires s >= 1 && TwiddleLaws(tw)
    ensures Pow(tw(Exp2(s)), Exp2(s - 1)) == MINUS_ONE
    ensures Pow(tw(Exp2(s)), Exp2(s)) == ONE
  {
    hide Mul;
    var w, h := tw(Exp2(s)), Exp2(s - 1);
    assert Exp2(s) == 2 * h;
    if s == 1 {
      assert h == 1 && Pow(w, 1) == Mul(Pow(w, 0), w);
      MulOne(w);
    } else {
      HalfTurn(tw, s - 1);
      PowSquare(w, Exp2(s - 2));
    }
    PowAdd(w, h, h);
    MinusOneSquared();
  }

  lemma MinusOneSquared()
    ensures Mul(MINUS_ONE, MINUS_ONE) == ONE
  {}

  // ----- ONE butterfly stage ------------------------------------------------

  /** The butterflies of one block: a[k] + w^k a[k+half] and a[k] - w^k a[k+half]. */
  function Combine(a: Signal, w: Complex): (r: Signal)
    ensures |r| == |a| / 2 * 2
  {
    var h := |a| / 2;
    seq(2 * h, k requires 0 <= k < 2 * h =>
      if k < h then Add(a[k], Mul(a[k + h], Pow(w, k)))
      else Sub(a[k - h], Mul(a[k], Pow(w, k - h))))
  }

  /** ONE stage: the butterflies of every block of length 2h, left to right. */
  function Stage(a: Signal, h: nat, w: Complex): (r: Signal)
    requires h >= 1
    ensures |r| == |a|
  {
    if |a| < 2 * h then a else Combine(a[..2 * h], w) + Stage(a[2 * h..], h, w)
  }

  /** The first s stages, with block lengths 2, 4, ..., 2^s. */
  function Stages(a: Signal, s: nat, tw: nat -> Complex): (r: Signal)
    ensures |r| == |a|
  {
    if s == 0 then a else Stage(Stages(a, s - 1, tw), Exp2(s - 1), tw(Exp2(s)))
  }

  // ----- The bit-reversal permutation ----------------------------------------

  /** The number whose m binary digits are those of i in the opposite order. */
  function Rev(m: nat, i: nat): nat {
    if m == 0 then 0 else (if i % 2 == 1 then Exp2(m - 1) else 0) + Rev(m - 1, i / 2)
  }

  lemma {:induction false} RevBound(m: nat, i: nat)
    ensures Rev(m, i) < Exp2(m)
  {
    if m > 0 { RevBound(m - 1, i / 2); }
  }

  lemma HalfOfSum(t: nat, e: nat)
    ensures (t + 2 * e) / 2 == t / 2 + e && (t + 2 * e) % 2 == t % 2
  {}

  /** Rev peeled at the other end: the top digit of i is the lowest of the result. */
  lemma {:induction false} RevTop(m: nat, i: nat)
    requires m > 0 && i < Exp2(m)
    ensures i < Exp2(m - 1) ==> Rev(m, i) == 2 * Rev(m - 1, i)
    ensures i >= Exp2(m - 1) ==> Rev(m, i) == 2 * Rev(m - 1, i - Exp2(m - 1)) + 1
  {
    if m > 1 {
      RevTop(m - 1, i / 2);
      var e := Exp2(m - 2);
      if i >= 2 * e { HalfOfSum(i - 2 * e, e); }
    }
  }

  /** Reversing the digits twice changes nothing, so the permutation undoes itself. */
  lemma {:induction false} RevInvolution(m: nat, i: nat)
    requires i < Exp2(m)
    ensures Rev(m, i) < Exp2(m) && Rev(m, Rev(m, i)) == i
  {
    RevBound(m, i);
    if m > 0 {
      RevInvolution(m - 1, i / 2);
      RevTop(m, Rev(m, i));
    }
  }

  function BitReversed(x: Signal, m: nat): (r: Signal)
    requires |x| == Exp2(m)
    ensures |r| == |x|
  {
    RevBoundAll(m);
    seq(|x|, p requires 0 <= p < |x| => x[Rev(m, p)])
  }

  lemma RevBoundAll(m: nat)
    ensures forall p: nat :: Rev(m, p) < Exp2(m)
  {
    forall p: nat ensures Rev(m, p) < Exp2(m) { RevBound(m, p); }
  }

  // ----- Splitting a transform in two ----------------------------------------

  lemma PullOut(w: Complex, a: Complex, b: Complex)
    ensures Mul(a, Mul(w, b)) == Mul(w, Mul(a, b))
  {}

  /** The summands of the samples 2m and 2m+1, in terms of the squared root. */
  lemma SampleTerms(v: Complex, w: Complex, m: nat, k: nat)
    ensures Mul(v, Pow(w, (2 * m) * k)) == Mul(v, Pow(Mul(w, w), m * k))
    ensures Mul(v, Pow(w, (2 * m + 1) * k)) == Mul(Pow(w, k), Mul(v, Pow(Mul(w, w), m * k)))
  {
    hide Mul, Pow;
    var t := m * k;
    assert (2 * m) * k == 2 * t && (2 * m + 1) * k == k + 2 * t;
    PowSquare(w, t);
    PowAdd(w, k, 2 * t);
    PullOut(Pow(w, k), v, Pow(w, 2 * t));
  }

  /** Even and odd samples apart: X_w[k] = E_{w^2}[k] + w^k * O_{w^2}[k]. */
  lemma {:induction false} SplitEvenOdd(x: Signal, w: Complex, k: nat)
    requires |x| % 2 == 0
    ensures DftBin(x, w, k) ==
            Add(DftBin(Evens(x), Mul(w, w), k), Mul(Pow(w, k), DftBin(Odds(x), Mul(w, w), k)))
  {
    hide Mul, Pow, Add;
    var ww := Mul(w, w);
    if x == [] {
      MulZero(Pow(w, k));
      AddZero(ZERO);
    } else {
      var m := |x| / 2 - 1;
      var y := x[..2 * m];
      assert |x| == 2 * m + 2;
      assert x[..2 * m + 1][..2 * m] == y;
      assert Evens(x)[..m] == Evens(y) && Odds(x)[..m] == Odds(y);
      assert Evens(x)[m] == x[2 * m] && Odds(x)[m] == x[2 * m + 1];
      SplitEvenOdd(y, w, k);
      SampleTerms(x[2 * m], w, m, k);
      SampleTerms(x[2 * m + 1], w, m, k);
      LastTwo(DftBin(Evens(y), ww, k), DftBin(Odds(y), ww, k),
              Mul(x[2 * m], Pow(ww, m * k)), Mul(x[2 * m + 1], Pow(ww, m * k)), Pow(w, k));
    }
  }

  lemma LastTwo(es: Complex, os: Complex, e: Complex, o: Complex, wk: Complex)
    ensures Add(Add(Add(es, Mul(wk, os)), e), Mul(wk, o)) == Add(Add(es, e), Mul(wk, Add(os, o)))
  {
    MulDistributes(wk, os, o);
  }

  /** With a p-th root of unity, bins that differ by p are equal. */
  lemma {:induction false} BinPeriod(x: Signal, w: Complex, p: nat, k: nat)
    requires Pow(w, p) == ONE
    ensures DftBin(x, w, k + p) == DftBin(x, w, k)
  {
    if x != [] {
      var j := |x| - 1;
      BinPeriod(x[..j], w, p, k);
      PowPeriod(w, p, j, j * k);
      assert j * (k + p) == j * p + j * k;
    }
  }

  lemma NegatedTwiddle(w: Complex, h: nat, k: nat, e: Complex, o: Complex)
    requires Pow(w, h) == MINUS_ONE
    ensures Add(e, Mul(Pow(w, h + k), o)) == Sub(e, Mul(o, Pow(w, k)))
  {
    PowAdd(w, h, k);
  }

  /** Bin k of the full-length transform from bin k mod h of the two half-length ones. */
  lemma CombineBin(x: Signal, w: Complex, k: nat)
    requires |x| % 2 == 0 && k < |x| && Pow(w, |x| / 2) == MINUS_ONE
    ensures var h, ww := |x| / 2, Mul(w, w);
      DftBin(x, w, k) ==
      if k < h then Add(DftBin(Evens(x), ww, k), Mul(DftBin(Odds(x), ww, k), Pow(w, k)))
      else Sub(DftBin(Evens(x), ww, k - h), Mul(DftBin(Odds(x), ww, k - h), Pow(w, k - h)))
  {
    hide Mul, Add, Sub, DftBin, Evens, Odds;
    var h, ww := |x| / 2, Mul(w, w);
    SplitEvenOdd(x, w, k);
    if k < h {
      MulCommutes(DftBin(Odds(x), ww, k), Pow(w, k));
    } else {
      PowSquare(w, h);
      PowAdd(w, h, h);
      MinusOneSquared();
      BinPeriod(Evens(x), ww, h, k - h);
      BinPeriod(Odds(x), ww, h, k - h);
      NegatedTwiddle(w, h, k - h, DftBin(Evens(x), ww, k - h), DftBin(Odds(x), ww, k - h));
    }
  }

  /** ONE stage on two finished half-length transforms gives the full-length one. */
  lemma CombineIsDft(x: Signal, w: Complex)
    requires |x| >= 2 && |x| % 2 == 0 && Pow(w, |x| / 2) == MINUS_ONE
    ensures Combine(DftOf(Evens(x), Mul(w, w)) + DftOf(Odds(x), Mul(w, w)), w) == DftOf(x, w)
  {
    hide Mul, Add, Sub, DftBin, Evens, Odds, Pow;
    var h, e, o := |x| / 2, DftOf(Evens(x), Mul(w, w)), DftOf(Odds(x), Mul(w, w));
    assert |x| == 2 * h && |e| == h && |o| == h;
    forall k: nat | k < 2 * h ensures Combine(e + o, w)[k] == DftOf(x, w)[k] {
      CombineBin(x, w, k);
      if k < h {
        assert (e + o)[k] == e[k] && (e + o)[k + h] == o[k];
      } else {
        assert (e + o)[k - h] == e[k - h] && (e + o)[k] == o[k - h];
      }
    }
  }

  // ----- The whole algorithm ---------------------------------------------------

  /** What the array holds once the stages up to block length 2^s are done: every
      block is the transform of one strided subsequence of the signal. */
  ghost function Blocks(x: Signal, m: nat, s: nat, tw: nat -> Complex): (r: Signal)
    requires |x| == Exp2(m) && s <= m
    ensures |r| == |x|
    decreases m
  {
    if s == m then DftOf(x, tw(|x|))
    else Blocks(Evens(x), m - 1, s, tw) + Blocks(Odds(x), m - 1, s, tw)
  }

  /** n is a whole number of blocks of length l. */
  ghost predicate Multiple(n: nat, l: nat) { n == 0 || (0 < l <= n && Multiple(n - l, l)) }

  lemma {:induction false} MultipleAdd(a: nat, b: nat, l: nat)
    requires Multiple(a, l) && Multiple(b, l)
    ensures Multiple(a + b, l)
  {
    if a != 0 { MultipleAdd(a - l, b, l); }
  }

  lemma {:induction false} Exp2Multiple(s: nat, m: nat)
    requires s <= m
    ensures Multiple(Exp2(m), Exp2(s))
  {
    if s < m {
      Exp2Multiple(s, m - 1);
      MultipleAdd(Exp2(m - 1), Exp2(m - 1), Exp2(s));
    }
  }

  lemma {:induction false} StageConcat(a: Signal, b: Signal, h: nat, w: Complex)
    requires h >= 1 && Multiple(|a|, 2 * h)
    ensures Stage(a + b, h, w) == Stage(a, h, w) + Stage(b, h, w)
  {
    hide Combine;
    if a == [] {
      assert a + b == b;
    } else {
      assert (a + b)[..2 * h] == a[..2 * h] && (a + b)[2 * h..] == a[2 * h..] + b;
      StageConcat(a[2 * h..], b, h, w);
    }
  }

  lemma StageOneBlock(a: Signal, h: nat, w: Complex)
    requires h >= 1 && |a| == 2 * h
    ensures Stage(a, h, w) == Combine(a, w)
  {
    hide Combine;
    assert a[..2 * h] == a && a[2 * h..] == [];
  }

  /** The last stage finishes the transform. */
  lemma LastStage(x: Signal, m: nat, tw: nat -> Complex)
    requires m >= 1 && |x| == Exp2(m) && TwiddleLaws(tw)
    ensures var h := Exp2(m - 1);
      Stage(DftOf(Evens(x), tw(h)) + DftOf(Odds(x), tw(h)), h, tw(2 * h)) == DftOf(x, tw(2 * h))
  {
    var h := Exp2(m - 1);
    HalfTurn(tw, m);
    hide Combine, Mul, DftOf, Evens, Odds, Pow, Stage;
    assert Mul(tw(2 * h), tw(2 * h)) == tw(h);
    CombineIsDft(x, tw(2 * h));
    StageOneBlock(DftOf(Evens(x), tw(h)) + DftOf(Odds(x), tw(h)), h, tw(2 * h));
  }

  lemma {:induction false} StageAdvances(x: Signal, m: nat, s: nat, tw: nat -> Complex)
    requires |x| == Exp2(m) && s < m && TwiddleLaws(tw)
    ensures Stage(Blocks(x, m, s, tw), Exp2(s), tw(Exp2(s + 1))) == Blocks(x, m, s + 1, tw)
    decreases m
  {
    hide TwiddleLaws, DftOf, Evens, Odds, Stage;
    if s + 1 == m {
      LastStage(x, m, tw);
    } else {
      StageAdvances(Evens(x), m - 1, s, tw);
      StageAdvances(Odds(x), m - 1, s, tw);
      Exp2Multiple(s + 1, m - 1);
      StageConcat(Blocks(Evens(x), m - 1, s, tw), Blocks(Odds(x), m - 1, s, tw), Exp2(s), tw(Exp2(s + 1)));
    }
  }

  lemma SingleBin(v: Complex, w: Complex)
    ensures DftBin([v], w, 0) == v
  {
    assert [v][..0] == [];
    MulOne(v);
  }

  lemma BitReversedSplit(x: Signal, m: nat)
    requires m > 0 && |x| == Exp2(m)
    ensures |Evens(x)| == |Odds(x)| == Exp2(m - 1)
    ensures BitReversed(x, m) == BitReversed(Evens(x), m - 1) + BitReversed(Odds(x), m - 1)
  {
    forall p: nat | p < |x|
      ensures BitReversed(x, m)[p] == (BitReversed(Evens(x), m - 1) + BitReversed(Odds(x), m - 1))[p]
    {
      RevTop(m, p);
      RevBoundAll(m - 1);
    }
  }

  /** Before the first stage the array is the signal in bit-reversed order. */
  lemma {:induction false} BlocksStart(x: Signal, m: nat, tw: nat -> Complex)
    requires |x| == Exp2(m)
    ensures Blocks(x, m, 0, tw) == BitReversed(x, m)
    decreases m
  {
    if m == 0 {
      SingleBin(x[0], tw(1));
      assert x == [x[0]];
      assert BitReversed(x, 0) == [x[0]];
    } else {
      BlocksStart(Evens(x), m - 1, tw);
      BlocksStart(Odds(x), m - 1, tw);
      BitReversedSplit(x, m);
    }
  }

  lemma {:induction false} StagesReachBlocks(x: Signal, m: nat, s: nat, tw: nat -> Complex)
    requires |x| == Exp2(m) && s <= m && TwiddleLaws(tw)
    ensures Stages(BitReversed(x, m), s, tw) == Blocks(x, m, s, tw)
    decreases s
  {
    hide Blocks, BitReversed, Stage, TwiddleLaws, Exp2;
    if s == 0 {
      BlocksStart(x, m, tw);
    } else {
      StagesReachBlocks(x, m, s - 1, tw);
      StageAdvances(x, m, s - 1, tw);
    }
  }

  /** Bit reversal followed by all stages is the discrete Fourier transform. */
  lemma FftIsDft(x: Signal, m: nat, tw: nat -> Complex)
    requires |x| == Exp2(m) && TwiddleLaws(tw)
    ensures Stages(BitReversed(x, m), m, tw) == DftOf(x, tw(|x|))
  {
    StagesReachBlocks(x, m, m, tw);
  }
}
