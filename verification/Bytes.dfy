/** Bytes, bitwise operators on naturals, and little-endian values of byte strings. */
module Bytes {
  import opened Powers

  type Byte = x: int | 0 <= x < 256

  // ----------------------------------------------------------- bitwise operators

  function BitOr(a: nat, b: nat): nat
    decreases a + b
  {
    if a == 0 && b == 0 then 0
    else (if a % 2 == 1 || b % 2 == 1 then 1 else 0) + 2 * BitOr(a / 2, b / 2)
  }

  function BitAnd(a: nat, b: nat): nat
    decreases a + b
  {
    if a == 0 && b == 0 then 0
    else (if a % 2 == 1 && b % 2 == 1 then 1 else 0) + 2 * BitAnd(a / 2, b / 2)
  }

  lemma {:induction false} OrZero(b: nat)
    ensures BitOr(0, b) == b
  {
    if b > 0 {
      OrZero(b / 2);
    }
  }

  /** One bit at a time: the operator on numbers written as 2x + b. */
  lemma OrDouble(x: nat, y: nat, b: nat, d: nat)
    requires b < 2 && d < 2
    ensures BitOr(2 * x + b, 2 * y + d) == (if b == 1 || d == 1 then 1 else 0) + 2 * BitOr(x, y)
  {
    assert (2 * x + b) / 2 == x && (2 * y + d) / 2 == y;
  }

  lemma {:induction false} AndZero(b: nat)
    ensures BitAnd(b, 0) == 0
  {
    if b > 0 {
      AndZero(b / 2);
    }
  }

  /** Setting bits above a number adds them. */
  lemma {:induction false} OrAbove(a: nat, b: nat, k: nat)
    requires a < Pow2(k)
    ensures BitOr(a, b * Pow2(k)) == a + b * Pow2(k)
    decreases k
  {
    hide BitOr;
    if k == 0 {
      OrZero(b);
    } else {
      var c := b * Pow2(k - 1);
      assert b * Pow2(k) == 2 * c;
      OrAbove(a / 2, b, k - 1);
      OrDouble(a / 2, c, a % 2, 0);
    }
  }

  lemma {:induction false} AndMask(a: nat, k: nat)
    ensures BitAnd(a, Pow2(k) - 1) == a % Pow2(k)
    decreases k
  {
    hide BitAnd;
    if k == 0 {
      AndZero(a);
    } else {
      var p := Pow2(k - 1);
      AndMask(a / 2, k - 1);
      AndOdd(a, p);
      HalveMod(a, p, Pow2(k));
    }
  }

  lemma AndOdd(a: nat, p: nat)
    requires p >= 1
    ensures BitAnd(a, 2 * p - 1) == a % 2 + 2 * BitAnd(a / 2, p - 1)
  {
    OddHalf(p);
  }

  /** a % 2p from (a / 2) % p. */
  lemma HalveMod(a: nat, p: nat, d: nat)
    requires p >= 1 && d == 2 * p
    ensures a % d == a % 2 + 2 * ((a / 2) % p)
  {
    var q, r := Parts(a / 2, p);
    assert q * d == 2 * (q * p);
    DivModUnique(a, d, q, 2 * r + a % 2);
  }

  lemma {:induction false} AndBit(a: nat, k: nat)
    ensures BitAnd(a, Pow2(k)) == if (a / Pow2(k)) % 2 == 1 then Pow2(k) else 0
    decreases k
  {
    if k == 0 {
      AndZero(a / 2);
    } else {
      AndBit(a / 2, k - 1);
      DivDiv(a, 2, Pow2(k - 1));
    }
  }

  lemma {:induction false} Pow2Mono(k: nat, n: nat)
    requires k <= n
    ensures Pow2(k) <= Pow2(n)
    decreases n
  {
    if k < n {
      Pow2Mono(k, n - 1);
    }
  }

  /** Setting all bits from k up to n keeps the bits below k. */
  lemma {:induction false} OrHigh(x: nat, k: nat, n: nat)
    requires k <= n && x < Pow2(n)
    ensures Pow2(k) <= Pow2(n)
    ensures BitOr(x, Pow2(n) - Pow2(k)) == x % Pow2(k) + (Pow2(n) - Pow2(k))
    decreases n
  {
    hide BitOr;
    if k == 0 {
      OrOnes(x, n);
    } else {
      var p, q := Pow2(k - 1), Pow2(n - 1);
      HalfBelow(x, q);
      OrHigh(x / 2, k - 1, n - 1);
      OrDouble(x / 2, q - p, x % 2, 0);
      HalveMod(x, p, Pow2(k));
    }
  }

  lemma {:induction false} OrOnes(a: nat, n: nat)
    requires a < Pow2(n)
    ensures BitOr(a, Pow2(n) - 1) == Pow2(n) - 1
    decreases n
  {
    if n == 0 {
      OrZero(0);
    } else {
      var p := Pow2(n - 1);
      assert Pow2(n) == 2 * p;
      hide Pow2, BitOr;
      HalfBelow(a, p);
      OrOnes(a / 2, n - 1);
      OrDouble(a / 2, p - 1, a % 2, 1);
    }
  }

  lemma HalfBelow(a: nat, p: nat)
    requires a < 2 * p
    ensures a / 2 < p && a == 2 * (a / 2) + a % 2
  {
  }

  // ------------------------------------------------------------ division facts

  lemma DivDiv(a: nat, p: nat, q: nat)
    requires p >= 1 && q >= 1
    ensures p * q >= 1 && a / p / q == a / (p * q)
  {
    var d, r := a / p, a % p;
    var x, s := d / q, d % q;
    assert a == d * p + r;
    assert d == x * q + s;
    Regroup(a, d, p, q, x, s, r);
    SmallRest(p, q, r, s);
    DivModUnique(a, p * q, x, s * p + r);
  }

  lemma Regroup(a: nat, d: nat, p: nat, q: nat, x: nat, s: nat, r: nat)
    requires a == d * p + r && d == x * q + s
    ensures a == x * (p * q) + (s * p + r)
  {
    assert (x * q + s) * p == x * (q * p) + s * p;
  }

  lemma SmallRest(p: nat, q: nat, r: nat, s: nat)
    requires r < p && s < q
    ensures s * p + r < p * q
  {
    MulMono(s + 1, q, p);
  }

  lemma ModMul(a: nat, b: nat, n: nat)
    requires n >= 1
    ensures ((a % n) * b) % n == (a * b) % n
  {
    var q, r := Parts(a, n);
    Regrouped(q, n, r, b);
    ModShift(r * b, q * b, n);
  }

  lemma Parts(a: nat, n: nat) returns (q: nat, r: nat)
    requires n >= 1
    ensures q == a / n && r == a % n && r < n && a == q * n + r
  {
    q, r := a / n, a % n;
  }

  lemma Regrouped(q: nat, n: nat, r: nat, b: nat)
    ensures (q * n + r) * b == r * b + (q * b) * n
  {
  }

  // ------------------------------------------------------------- byte strings

  lemma PartOfPart(s: seq<Byte>, p: nat, n: nat, k: nat, len: nat)
    requires k + len <= n && p + n <= |s|
    ensures s[p..p + n][k..k + len] == s[p + k..p + k + len]
  {
    var t := s[p..p + n];
    var a, b := t[k..k + len], s[p + k..p + k + len];
    forall i | 0 <= i < len ensures a[i] == b[i] {
      assert a[i] == t[k + i] && t[k + i] == s[p + (k + i)];
    }
  }

  // ------------------------------------------------------- little-endian values

  function Val(b: seq<Byte>): nat {
    if |b| == 0 then 0 else b[0] + 256 * Val(b[1..])
  }

  /** The same bytes with the highest one first. */
  function BigVal(b: seq<Byte>): nat {
    if |b| == 0 then 0 else 256 * BigVal(b[..|b| - 1]) + b[|b| - 1]
  }

  /** Two bytes in either order. */
  lemma ValOfTwo(x: Byte, y: Byte)
    ensures Val([x, y]) == x + 256 * y && BigVal([x, y]) == 256 * x + y
  {
    assert [x, y][1..] == [y] && [y][1..] == [];
    assert Val([y]) == y + 256 * Val([]) && Val([]) == 0;
    assert [x, y][..1] == [x] && [x][..0] == [];
    assert BigVal([x]) == 256 * BigVal([]) + x && BigVal([]) == 0;
  }

  lemma ValStep(b: seq<Byte>)
    requires |b| >= 1
    ensures Val(b) == b[0] + 256 * Val(b[1..])
  {
  }

  lemma Pow2Of8()
    ensures Pow2(8) == 256
  {
    assert Pow2(4) == 16;
  }

  lemma Pow256Step(n: nat)
    requires n >= 1
    ensures Pow2(8 * n) == 256 * Pow2(8 * (n - 1))
  {
    Pow2Of8();
    Pow2Add(8, 8 * (n - 1));
  }

  lemma {:induction false} ValConcat(a: seq<Byte>, b: seq<Byte>)
    ensures Val(a + b) == Val(a) + Pow2(8 * |a|) * Val(b)
  {
    if |a| == 0 {
      assert a + b == b;
      assert Pow2(0) == 1;
    } else {
      ValConcat(a[1..], b);
      assert (a + b)[1..] == a[1..] + b;
      Pow256Step(|a|);
      var p, v := Pow2(8 * (|a| - 1)), Val(b);
      hide Pow2;
      Distribute(p, v, Val(a[1..]));
    }
  }

  lemma Distribute(p: nat, v: nat, w: nat)
    ensures 256 * (w + p * v) == 256 * w + (256 * p) * v
  {
  }

  lemma {:induction false} ValBound(b: seq<Byte>)
    ensures Val(b) < Pow2(8 * |b|)
  {
    if |b| > 0 {
      ValBound(b[1..]);
      Pow256Step(|b|);
    }
  }

  lemma {:induction false} ValInjective(a: seq<Byte>, b: seq<Byte>)
    requires |a| == |b| && Val(a) == Val(b)
    ensures a == b
  {
    if |a| > 0 {
      assert a[0] == Val(a) % 256 && b[0] == Val(b) % 256;
      ValInjective(a[1..], b[1..]);
      assert a == [a[0]] + a[1..] && b == [b[0]] + b[1..];
    }
  }

  function Repeated(v: Byte, n: nat): (z: seq<Byte>)
    ensures |z| == n
  {
    seq(n, _ => v)
  }

  lemma {:induction false} ValRepeated(n: nat)
    ensures Val(Repeated(0, n)) == 0
    ensures Val(Repeated(255, n)) == Pow2(8 * n) - 1
  {
    if n > 0 {
      ValRepeated(n - 1);
      assert Repeated(0, n)[1..] == Repeated(0, n - 1);
      assert Repeated(255, n)[1..] == Repeated(255, n - 1);
      Pow256Step(n);
    }
  }
}
