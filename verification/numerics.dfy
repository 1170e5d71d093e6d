/**
 Numeric vocabulary shared by the model: the value of pi, complex numbers as
 (re, im) pairs of reals, IEEE-754 doubles that may be infinite, and the
 library functions (square root, cosine, sine) that the engine calls but whose
 definitions are outside the model.
 */
module Numerics {

  /** Math.PI; the proofs only use that it is positive. */
  const Pi: real := 3.141592653589793

  /** A double that may be one of the two infinities (NaN is not modelled). */
  datatype ExtReal = NegInf | Finite(value: real) | PosInf

  /** The library functions of System.Math the engine uses, left uninterpreted. */
  datatype MathLib = MathLib(sqrt: real -> real, cos: real -> real, sin: real -> real)

  /** The only facts about the square root the model relies on. */
  ghost predicate IsSqrt(sqrt: real -> real) {
    forall a :: 0.0 <= a ==> 0.0 <= sqrt(a) && sqrt(a) * sqrt(a) == a
  }

  /** System.Numerics.Complex as a pair of reals. */
  datatype Complex = Complex(re: real, im: real)

  const Zero: Complex := Complex(0.0, 0.0)

  function Add(a: Complex, b: Complex): Complex {
    Complex(a.re + b.re, a.im + b.im)
  }

  function Mul(a: Complex, b: Complex): Complex {
    Complex(a.re * b.re - a.im * b.im, a.re * b.im + a.im * b.re)
  }

  /** Multiplication of a complex number by a real. */
  function Scale(k: real, z: Complex): Complex {
    Complex(k * z.re, k * z.im)
  }

  /** Division of a complex number by a real (Complex / double). */
  function DivReal(z: Complex, d: real): (q: Complex)
    requires d != 0.0
    ensures Scale(d, q) == z
  {
    Complex(z.re / d, z.im / d)
  }

  function ModulusSquared(z: Complex): real {
    z.re * z.re + z.im * z.im
  }

  /**
   The complex square z * z is the modulus squared |z|^2 (as a real) when z is
   real, and differs from it when both parts of z are non-zero: its imaginary
   part is then 2 re(z) im(z), not 0.
   */
  lemma ComplexSquareVersusModulusSquared(z: Complex)
    ensures z.im == 0.0 ==> Mul(z, z) == Complex(ModulusSquared(z), 0.0)
    ensures z.re * z.im != 0.0 ==> Mul(z, z) != Complex(ModulusSquared(z), 0.0)
  {
    if z.im == 0.0 {
      assert Mul(z, z).re == z.re * z.re == ModulusSquared(z);
      assert Mul(z, z).im == 0.0;
    } else if z.re * z.im != 0.0 {
      assert Mul(z, z).im == 2.0 * (z.re * z.im);
    }
  }

  /** Multiplying by a positive real keeps order. */
  lemma MulLe(a: real, c: real, b: real)
    requires 0.0 < b && a <= c
    ensures a * b <= c * b
  {
  }

  /** Multiplying by a positive real keeps strict order. */
  lemma MulLt(a: real, c: real, b: real)
    requires 0.0 < b && a < c
    ensures a * b < c * b
  {
  }

  lemma NonZeroProduct(a: real, b: real)
    requires a != 0.0 && b != 0.0
    ensures a * b != 0.0
  {
  }
}
