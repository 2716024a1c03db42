/** Exact complex arithmetic, the values that nginx/html/js/benchmark.js keeps
    as a pair of reals (re, im). */
module Complexes {
  datatype Complex = Complex(re: real, im: real)

  const ZERO := Complex(0.0, 0.0)
  const ONE := Complex(1.0, 0.0)
  const MINUS_ONE := Complex(-1.0, 0.0)

  function Add(a: Complex, b: Complex): Complex { Complex(a.re + b.re, a.im + b.im) }

  function Sub(a: Complex, b: Complex): Complex { Complex(a.re - b.re, a.im - b.im) }

  function Mul(a: Complex, b: Complex): Complex {
    Complex(a.re * b.re - a.im * b.im, a.re * b.im + a.im * b.re)
  }

  /** w to the power k, built up the way the running twiddle is: one factor at a time. */
  function Pow(w: Complex, k: nat): Complex {
    if k == 0 then ONE else Mul(Pow(w, k - 1), w)
  }

  lemma MulCommutes(a: Complex, b: Complex)
    ensures Mul(a, b) == Mul(b, a)
  {}

  lemma MulAssociates(a: Complex, b: Complex, c: Complex)
    ensures Mul(Mul(a, b), c) == Mul(a, Mul(b, c))
  {}

  lemma MulDistributes(a: Complex, b: Complex, c: Complex)
    ensures Mul(a, Add(b, c)) == Add(Mul(a, b), Mul(a, c))
  {}

  lemma MulOne(a: Complex)
    ensures Mul(ONE, a) == a && Mul(a, ONE) == a
  {}

  lemma AddZero(a: Complex)
    ensures Add(ZERO, a) == a && Add(a, ZERO) == a
  {}

  lemma MulZero(a: Complex)
    ensures Mul(a, ZERO) == ZERO
  {}

  lemma {:induction false} PowAdd(w: Complex, a: nat, b: nat)
    ensures Pow(w, a + b) == Mul(Pow(w, a), Pow(w, b))
  {
    if b != 0 {
      PowAdd(w, a, b - 1);
      MulAssociates(Pow(w, a), Pow(w, b - 1), w);
    }
  }

  /** (w*w)^k == w^(2k) */
  lemma {:induction false} PowSquare(w: Complex, k: nat)
    ensures Pow(Mul(w, w), k) == Pow(w, 2 * k)
  {
    if k != 0 {
      PowSquare(w, k - 1);
      MulAssociates(Pow(w, 2 * k - 2), w, w);
    }
  }

  /** A p-th root of unity is p-periodic in its exponent. */
  lemma PowShift(w: Complex, p: nat, t: nat)
    requires Pow(w, p) == ONE
    ensures Pow(w, p + t) == Pow(w, t)
  {
    PowAdd(w, p, t);
    MulOne(Pow(w, t));
  }

  lemma {:induction false} PowPeriod(w: Complex, p: nat, j: nat, r: nat)
    requires Pow(w, p) == ONE
    ensures 0 <= j * p
    ensures Pow(w, j * p + r) == Pow(w, r)
  {
    if j != 0 {
      PowPeriod(w, p, j - 1, r);
      var t := (j - 1) * p + r;
      assert j * p + r == p + t;
      PowShift(w, p, t);
    }
  }
}
