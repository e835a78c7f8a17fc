/** Exact complex numbers standing in for the source's `complexd`
    (std::complex<double>): a pair of reals, so that sums, products,
    conjugates and divisions by a count are exact. */
module Complex {

  datatype Complex = Complex(re: real, im: real)

  const Zero: Complex := Complex(0.0, 0.0)
  const One: Complex := Complex(1.0, 0.0)

  function Add(a: Complex, b: Complex): Complex
  {
    Complex(a.re + b.re, a.im + b.im)
  }

  function Mul(a: Complex, b: Complex): Complex
  {
    Complex(a.re * b.re - a.im * b.im, a.re * b.im + a.im * b.re)
  }

  function Conj(a: Complex): Complex
  {
    Complex(a.re, -a.im)
  }

  /** Multiplication by a real factor (`src[i] *= norm`). */
  function Scale(a: Complex, k: real): Complex
  {
    Complex(a.re * k, a.im * k)
  }

  /** Division by a real divisor (`*visp /= double(count)`). */
  function DivReal(a: Complex, d: real): Complex
    requires d != 0.0
  {
    Complex(a.re / d, a.im / d)
  }

  lemma AddZero(a: Complex)
    ensures Add(a, Zero) == a
  {
  }

  lemma AddAssoc(a: Complex, b: Complex, c: Complex)
    ensures Add(Add(a, b), c) == Add(a, Add(b, c))
  {
  }

  lemma AddComm(a: Complex, b: Complex)
    ensures Add(a, b) == Add(b, a)
  {
  }

  lemma ZeroAdd(a: Complex)
    ensures Add(Zero, a) == a
  {
  }

  lemma AddSwap(a: Complex, b: Complex, c: Complex, d: Complex)
    ensures Add(Add(a, b), Add(c, d)) == Add(Add(a, c), Add(b, d))
  {
  }

  lemma AddRotate(a: Complex, b: Complex, c: Complex)
    ensures Add(Add(a, b), c) == Add(Add(a, c), b)
  {
  }

  lemma ConjInvolutive(a: Complex)
    ensures Conj(Conj(a)) == a
  {
  }

  lemma ConjMul(a: Complex, b: Complex)
    ensures Conj(Mul(a, b)) == Mul(Conj(a), Conj(b))
  {
  }

  lemma OneMul(a: Complex)
    ensures Mul(One, a) == a
  {
  }
}
