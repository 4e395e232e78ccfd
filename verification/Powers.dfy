/** Powers of two and the few facts of integer division the other modules share. */
module Powers {

  function Pow2(n: nat): (p: nat)
    ensures p >= 1
  {
    if n == 0 then 1 else 2 * Pow2(n - 1)
  }

  function Log2(n: nat): nat {
    if n <= 1 then 0 else 1 + Log2(n / 2)
  }

  lemma OddHalf(p: nat)
    requires p >= 1
    ensures (2 * p - 1) % 2 == 1 && (2 * p - 1) / 2 == p - 1
  {
  }

  lemma {:induction false} Pow2Add(a: nat, b: nat)
    ensures Pow2(a + b) == Pow2(a) * Pow2(b)
  {
    if a > 0 {
      Pow2Add(a - 1, b);
      assert 2 * (Pow2(a - 1) * Pow2(b)) == (2 * Pow2(a - 1)) * Pow2(b);
    }
  }

  lemma {:induction false} Log2OfPow2(n: nat)
    ensures Log2(Pow2(n)) == n
  {
    if n > 0 {
      Log2OfPow2(n - 1);
    }
  }

  ghost predicate IsPowerOfTwo(n: nat) {
    exists m: nat :: n == Pow2(m)
  }

  lemma LengthIsPower(n: nat)
    requires IsPowerOfTwo(n)
    ensures n == Pow2(Log2(n))
  {
    var m: nat :| n == Pow2(m);
    Log2OfPow2(m);
  }

  /** A number written as q * d + r has quotient q and remainder r. */
  lemma DivModUnique(x: nat, d: nat, q: nat, r: nat)
    requires r < d && x == q * d + r
    ensures x / d == q && x % d == r
  {
    if x / d > q {
      Scaled(x / d - q, d);
    } else if x / d < q {
      Scaled(q - x / d, d);
    }
  }

  lemma Scaled(k: nat, d: nat)
    requires k >= 1
    ensures k * d >= d
  {
  }

  /** Position p lies in a block of d entries that fits a whole number n of blocks. */
  lemma BlockFits(p: nat, d: nat, n: nat)
    requires d >= 1 && p < n * d
    ensures p / d < n
    ensures p - p % d + d <= n * d
  {
    var q := p / d;
    assert p == q * d + p % d;
    if q >= n {
      MulMono(n, q, d);
    } else {
      MulMono(q + 1, n, d);
      assert (q + 1) * d == q * d + d;
    }
  }

  lemma MulMono(a: int, b: int, d: nat)
    requires a <= b
    ensures a * d <= b * d
  {
  }

  lemma ModShift(p: nat, q: nat, d: nat)
    requires d >= 1
    ensures (p + q * d) % d == p % d && (p + q * d) / d == p / d + q
  {
    assert p == (p / d) * d + p % d;
    assert p + q * d == (p / d + q) * d + p % d;
    DivModUnique(p + q * d, d, p / d + q, p % d);
  }
}
