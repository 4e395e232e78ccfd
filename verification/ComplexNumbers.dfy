/** Exact complex arithmetic, in the operation order the C code writes out. */
module ComplexNumbers {

  datatype Complex = Complex(re: real, im: real)

  const ZERO := Complex(0.0, 0.0)
  const ONE := Complex(1.0, 0.0)

  function Add(a: Complex, b: Complex): Complex {
    Complex(a.re + b.re, a.im + b.im)
  }

  function Sub(a: Complex, b: Complex): Complex {
    Complex(a.re - b.re, a.im - b.im)
  }

  function Neg(a: Complex): Complex {
    Complex(-a.re, -a.im)
  }

  function Mul(a: Complex, b: Complex): Complex {
    Complex(a.re * b.re - a.im * b.im, a.im * b.re + a.re * b.im)
  }

  function Pow(z: Complex, n: nat): Complex {
    if n == 0 then ONE else Mul(z, Pow(z, n - 1))
  }

  lemma MulAssoc(a: Complex, b: Complex, c: Complex)
    ensures Mul(a, Mul(b, c)) == Mul(Mul(a, b), c)
  {
  }

  lemma MulComm(a: Complex, b: Complex)
    ensures Mul(a, b) == Mul(b, a)
  {
  }

  lemma MulAdd(a: Complex, b: Complex, c: Complex)
    ensures Mul(a, Add(b, c)) == Add(Mul(a, b), Mul(a, c))
  {
  }

  lemma {:induction false} PowAdd(z: Complex, a: nat, b: nat)
    ensures Pow(z, a + b) == Mul(Pow(z, a), Pow(z, b))
  {
    if a > 0 {
      PowAdd(z, a - 1, b);
      MulAssoc(z, Pow(z, a - 1), Pow(z, b));
    }
  }

  /** (z^2)^n = (z^n)^2 = z^(2n). */
  lemma {:induction false} PowSquare(z: Complex, n: nat)
    ensures Pow(Mul(z, z), n) == Mul(Pow(z, n), Pow(z, n))
    ensures Pow(Mul(z, z), n) == Pow(z, 2 * n)
  {
    hide Mul;
    if n > 0 {
      PowSquare(z, n - 1);
      var p := Pow(z, n - 1);
      MulAssoc(Mul(z, p), z, p);
      MulAssoc(z, p, z);
      MulComm(p, z);
      MulAssoc(z, z, p);
      MulAssoc(Mul(z, z), p, p);
    }
    PowAdd(z, n, n);
  }
}
