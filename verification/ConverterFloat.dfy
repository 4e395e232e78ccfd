/** The floating-point IQ converter, over exact reals. */
module ConverterFloat {
  import opened ComplexNumbers
  import opened Queues

  const SIZE_FACTOR := 32
  const SCALE := 0.01

  // -------------------------------------------------- the stream it stands for

  /** The share of a sample that enters the average. */
  function Leak(v: real): real {
    SCALE * v
  }

  /** The running average after all of xs. */
  function Average(xs: seq<real>): real {
    if |xs| == 0 then 0.0
    else
      var avg := Average(xs[..|xs| - 1]);
      avg + Leak(xs[|xs| - 1] - avg)
  }

  /** The average the code holds when sample n arrives. */
  function AverageAt(xs: seq<real>, n: nat): real
    requires n <= |xs|
  {
    Average(xs[..n])
  }

  /** Sample n of the stream with the average removed. */
  function DcRemoved(xs: seq<real>, n: nat): real
    requires n < |xs|
  {
    xs[n] - AverageAt(xs, n)
  }

  /** The first n samples with the average removed, added up. */
  function SumRemoved(xs: seq<real>, n: nat): real
    requires n <= |xs|
  {
    if n == 0 then 0.0 else SumRemoved(xs, n - 1) + DcRemoved(xs, n - 1)
  }

  lemma AverageStep(xs: seq<real>, n: nat)
    requires n < |xs|
    ensures AverageAt(xs, 0) == 0.0
    ensures AverageAt(xs, n + 1) == AverageAt(xs, n) + 0.01 * (xs[n] - AverageAt(xs, n))
  {
    assert xs[..n + 1][..n] == xs[..n];
  }

  /** The average is a hundredth of everything that has passed: what passes averages out. */
  lemma {:induction false} AverageIsSum(xs: seq<real>, n: nat)
    requires n <= |xs|
    ensures 100.0 * AverageAt(xs, n) == SumRemoved(xs, n)
  {
    if n > 0 {
      AverageIsSum(xs, n - 1);
      AverageStep(xs, n - 1);
      hide AverageAt;
    }
  }

  function Decay(n: nat): real {
    if n == 0 then 1.0 else (99.0 / 100.0) * Decay(n - 1)
  }

  /** Of a constant input a share is left that falls by a hundredth with every sample. */
  lemma {:induction false} ConstantDecays(xs: seq<real>, v: real, n: nat)
    requires n < |xs| && forall i :: 0 <= i <= n ==> xs[i] == v
    ensures DcRemoved(xs, n) == v * Decay(n)
  {
    AverageStep(xs, n);
    if n > 0 {
      ConstantDecays(xs, v, n - 1);
      AverageStep(xs, n - 1);
      hide AverageAt;
      DecayStep(v, n);
    }
  }

  lemma DecayStep(v: real, n: nat)
    requires n > 0
    ensures v * Decay(n) == 0.99 * (v * Decay(n - 1))
  {
  }

  /** The share becomes as small as wanted. */
  lemma {:induction false} DecayBelow(n: nat)
    ensures 0.0 < Decay(n) <= 100.0 / (100.0 + n as real)
  {
    if n > 0 {
      DecayBelow(n - 1);
      var d, k := Decay(n - 1), n as real;
      assert d * (99.0 + k) <= 100.0;
      SmallerShare(d, k);
    }
  }

  lemma SmallerShare(d: real, k: real)
    requires d > 0.0 && k >= 1.0 && d * (99.0 + k) <= 100.0
    ensures (99.0 / 100.0) * d * (100.0 + k) <= 100.0
    ensures (99.0 / 100.0) * d <= 100.0 / (100.0 + k)
  {
    assert 99.0 * (100.0 + k) <= 100.0 * (99.0 + k);
    assert d * (99.0 * (100.0 + k)) <= d * (100.0 * (99.0 + k));
  }

  /** The oscillator at a quarter of the sample rate: i to the power of n + 2. */
  function Oscillator(n: nat): Complex {
    if n % 4 == 0 then Complex(-1.0, 0.0)
    else if n % 4 == 1 then Complex(0.0, -1.0)
    else if n % 4 == 2 then Complex(1.0, 0.0)
    else Complex(0.0, 1.0)
  }

  lemma {:induction false} OscillatorIsPower(n: nat)
    ensures Oscillator(n) == Pow(Complex(0.0, 1.0), n + 2)
  {
    hide Pow;
    if n == 0 {
      NoTurn();
      QuarterTurn(0, 1.0, 0.0);
      QuarterTurn(1, 0.0, 1.0);
    } else {
      OscillatorIsPower(n - 1);
      QuarterTurn(n + 1, Oscillator(n - 1).re, Oscillator(n - 1).im);
    }
  }

  lemma NoTurn()
    ensures Pow(Complex(0.0, 1.0), 0) == Complex(1.0, 0.0)
  {
  }

  lemma QuarterTurn(n: nat, a: real, b: real)
    requires Pow(Complex(0.0, 1.0), n) == Complex(a, b)
    ensures Pow(Complex(0.0, 1.0), n + 1) == Complex(-b, a)
  {
    assert Pow(Complex(0.0, 1.0), n + 1) == Mul(Complex(0.0, 1.0), Complex(a, b));
    hide Pow;
  }

  /** Sample i of the DC-free stream moved down by a quarter of the sample rate; zero
      before the start. */
  function Mixed(xs: seq<real>, i: int): Complex
    requires i < |xs|
  {
    if i < 0 then ZERO else Mul(Oscillator(i), Complex(DcRemoved(xs, i), 0.0))
  }

  /** sum of h[k] * mixed[2m - k] over k < n. */
  function Convolved(h: seq<real>, xs: seq<real>, m: nat, n: nat): Complex
    requires n <= |h| && 2 * m < |xs|
  {
    if n == 0 then ZERO
    else Add(Convolved(h, xs, m, n - 1), Mul(Complex(h[n - 1], 0.0), Mixed(xs, 2 * m - (n - 1))))
  }

  /** Apart from the centre one, the odd taps are zero. */
  predicate OddTapsZero(h: seq<real>) {
    forall k :: 0 <= k < |h| && k % 2 == 1 && k != |h| / 2 ==> h[k] == 0.0
  }

  /** A half-band kernel: odd length, and an odd tap in the centre. */
  predicate IsHalfBand(h: seq<real>) {
    |h| % 2 == 1 && |h| / 2 % 2 == 1 && OddTapsZero(h)
  }

  // ---------------------------------------------------------- the filter taps

  function Term(k: seq<real>, q: seq<real>, i: nat): real
    requires i < |k| && i < |q|
  {
    k[i] * q[i]
  }

  /** sum of k[i] * q[i] over lo <= i < hi. */
  function Dot(k: seq<real>, q: seq<real>, lo: nat, hi: nat): real
    requires hi <= |k| && hi <= |q|
    decreases hi - lo
  {
    if lo >= hi then 0.0 else Dot(k, q, lo, hi - 1) + Term(k, q, hi - 1)
  }

  lemma {:induction false} DotHead(k: seq<real>, q: seq<real>, lo: nat, hi: nat)
    requires lo < hi <= |k| && hi <= |q|
    ensures Dot(k, q, lo, hi) == Term(k, q, lo) + Dot(k, q, lo + 1, hi)
    decreases hi - lo
  {
    hide Term;
    if lo + 1 < hi {
      DotHead(k, q, lo, hi - 1);
    }
  }

  /** A tap times the sum of the two samples that share it. */
  function Pair(k: seq<real>, q: seq<real>, i: nat): real
    requires i < |k| == |q|
  {
    k[i] * (q[i] + q[|q| - 1 - i])
  }

  /** The first n products of the folded form. */
  function Folded(k: seq<real>, q: seq<real>, n: nat): real
    requires n <= |k| == |q|
  {
    if n == 0 then 0.0 else Folded(k, q, n - 1) + Pair(k, q, n - 1)
  }

  lemma {:induction false} FoldedIsDot(k: seq<real>, q: seq<real>, n: nat)
    requires |k| == |q| && 2 * n <= |k| && IsSymmetric(k)
    ensures Folded(k, q, n) + Dot(k, q, n, |k| - n) == Dot(k, q, 0, |k|)
  {
    hide Term, Pair;
    if n > 0 {
      FoldedIsDot(k, q, n - 1);
      DotHead(k, q, n - 1, |k| - n);
      PairIsTwoTerms(k, q, n - 1);
    }
  }

  lemma PairIsTwoTerms(k: seq<real>, q: seq<real>, i: nat)
    requires i < |k| == |q| && IsSymmetric(k)
    ensures Pair(k, q, i) == Term(k, q, i) + Term(k, q, |k| - 1 - i)
  {
    assert k[|k| - 1 - i] == k[i];
  }

  /** The unrolled dot product: eights, then a four, then a two. A last odd tap is not
      used. */
  method ProcessFirTaps(kernel: seq<real>, queue: seq<real>) returns (sum: real)
    requires |kernel| == |queue|
    ensures sum == Dot(kernel, queue, 0, |kernel| - |kernel| % 2)
  {
    hide Term;
    sum := 0.0;
    var at, len := 0, |kernel|;
    if len >= 8 {
      var it := len / 8;
      var i := 0;
      while i < it
        invariant 0 <= i <= it && at == 8 * i && at <= |kernel|
        invariant sum == Dot(kernel, queue, 0, at)
      {
        DotStep4(kernel, queue, at);
        DotStep4(kernel, queue, at + 4);
        sum := sum
          + (Term(kernel, queue, at)
             + Term(kernel, queue, at + 1)
             + Term(kernel, queue, at + 2)
             + Term(kernel, queue, at + 3)
             + Term(kernel, queue, at + 4)
             + Term(kernel, queue, at + 5)
             + Term(kernel, queue, at + 6)
             + Term(kernel, queue, at + 7));
        at := at + 8;
        i := i + 1;
      }
      len := len % 8;
    }
    if len >= 4 {
      DotStep4(kernel, queue, at);
      sum := sum
        + (Term(kernel, queue, at)
           + Term(kernel, queue, at + 1)
           + Term(kernel, queue, at + 2)
           + Term(kernel, queue, at + 3));
      at := at + 4;
      len := len % 4;
    }
    if len >= 2 {
      DotStep2(kernel, queue, at);
      sum := sum + (Term(kernel, queue, at) + Term(kernel, queue, at + 1));
    }
  }

  lemma DotStep2(k: seq<real>, q: seq<real>, at: nat)
    requires at + 2 <= |k| && at + 2 <= |q|
    ensures Dot(k, q, 0, at + 2) == Dot(k, q, 0, at) + (Term(k, q, at) + Term(k, q, at + 1))
  {
  }

  lemma DotStep4(k: seq<real>, q: seq<real>, at: nat)
    requires at + 4 <= |k| && at + 4 <= |q|
    ensures Dot(k, q, 0, at + 4) == Dot(k, q, 0, at)
         + (Term(k, q, at) + Term(k, q, at + 1) + Term(k, q, at + 2) + Term(k, q, at + 3))
  {
    hide Term;
    DotStep2(k, q, at);
    DotStep2(k, q, at + 2);
  }

  /** The tap counts with an unrolled folded branch. */
  predicate IsFoldedLength(len: nat) {
    len == 4 || len == 8 || len == 12 || len == 24
  }

  /** What the branches compute: the folded form for the four tap counts, else the even
      number of taps of the unrolled one. */
  function BranchSum(k: seq<real>, q: seq<real>): real
    requires |k| == |q|
  {
    if IsFoldedLength(|k|) then Folded(k, q, |k| / 2) else Dot(k, q, 0, |k| - |k| % 2)
  }

  /** The kernels whose every tap counts for itself: symmetric where the branch folds, and
      with nothing in a last odd tap. */
  predicate IsServed(k: seq<real>) {
    if IsFoldedLength(|k|) then IsSymmetric(k) else |k| % 2 == 1 ==> k[|k| - 1] == 0.0
  }

  lemma WholeFold(k: seq<real>, q: seq<real>)
    requires |k| == |q| && |k| % 2 == 0
    ensures IsSymmetric(k) ==> Folded(k, q, |k| / 2) == Dot(k, q, 0, |k|)
  {
    hide Folded;
    if IsSymmetric(k) {
      FoldedIsDot(k, q, |k| / 2);
    }
  }

  lemma ServedIsDot(k: seq<real>, q: seq<real>)
    requires |k| == |q| && IsServed(k)
    ensures BranchSum(k, q) == Dot(k, q, 0, |k|)
  {
    hide Folded, IsSymmetric;
    if IsFoldedLength(|k|) {
      WholeFold(k, q);
    }
  }

  method FirOutput4(k: seq<real>, q: seq<real>) returns (acc: real)
    requires |k| == |q| == 4
    ensures acc == Folded(k, q, 2)
    ensures IsSymmetric(k) ==> acc == Dot(k, q, 0, |k|)
  {
    hide Pair;
    acc := Pair(k, q, 0) + Pair(k, q, 1);
    FoldedStep2(k, q, 0);
    hide Folded;
    WholeFold(k, q);
  }

  method FirOutput8(k: seq<real>, q: seq<real>) returns (acc: real)
    requires |k| == |q| == 8
    ensures acc == Folded(k, q, 4)
    ensures IsSymmetric(k) ==> acc == Dot(k, q, 0, |k|)
  {
    hide Pair;
    acc := Pair(k, q, 0) + Pair(k, q, 1) + Pair(k, q, 2) + Pair(k, q, 3);
    FoldedStep2(k, q, 0);
    FoldedStep2(k, q, 2);
    hide Folded;
    WholeFold(k, q);
  }

  method FirOutput12(k: seq<real>, q: seq<real>) returns (acc: real)
    requires |k| == |q| == 12
    ensures acc == Folded(k, q, 6)
    ensures IsSymmetric(k) ==> acc == Dot(k, q, 0, |k|)
  {
    hide Pair;
    acc := Pair(k, q, 0) + Pair(k, q, 1) + Pair(k, q, 2) + Pair(k, q, 3)
         + Pair(k, q, 4) + Pair(k, q, 5);
    FoldedStep2(k, q, 0);
    FoldedStep2(k, q, 2);
    FoldedStep2(k, q, 4);
    hide Folded;
    WholeFold(k, q);
  }

  method FirOutput24(k: seq<real>, q: seq<real>) returns (acc: real)
    requires |k| == |q| == 24
    ensures acc == Folded(k, q, 12)
    ensures IsSymmetric(k) ==> acc == Dot(k, q, 0, |k|)
  {
    hide Pair;
    acc := Pair(k, q, 0) + Pair(k, q, 1) + Pair(k, q, 2) + Pair(k, q, 3)
         + Pair(k, q, 4) + Pair(k, q, 5) + Pair(k, q, 6) + Pair(k, q, 7)
         + Pair(k, q, 8) + Pair(k, q, 9) + Pair(k, q, 10) + Pair(k, q, 11);
    FoldedStep2(k, q, 0);
    FoldedStep2(k, q, 2);
    FoldedStep2(k, q, 4);
    FoldedStep2(k, q, 6);
    FoldedStep2(k, q, 8);
    FoldedStep2(k, q, 10);
    hide Folded;
    WholeFold(k, q);
  }

  /** One filter output; the branch depends on the number of taps. */
  method FirOutput(k: seq<real>, q: seq<real>) returns (acc: real)
    requires |k| == |q|
    ensures acc == if |k| in {4, 8, 12, 24} then Folded(k, q, |k| / 2) else Dot(k, q, 0, |k| - |k| % 2)
    ensures acc == BranchSum(k, q)
    ensures IsServed(k) ==> acc == Dot(k, q, 0, |k|)
  {
    hide Folded, Dot, IsSymmetric;
    if IsServed(k) {
      ServedIsDot(k, q);
    }
    if |k| == 4 {
      acc := FirOutput4(k, q);
    } else if |k| == 8 {
      acc := FirOutput8(k, q);
    } else if |k| == 12 {
      acc := FirOutput12(k, q);
    } else if |k| == 24 {
      acc := FirOutput24(k, q);
    } else {
      acc := ProcessFirTaps(k, q);
    }
  }

  // Which kernels the branches serve: one sample alone in the window shows its tap.

  function Alone(n: nat, at: nat): (q: seq<real>)
    ensures |q| == n
  {
    seq(n, i => if i == at then 1.0 else 0.0)
  }

  lemma {:induction false} DotAlone(k: seq<real>, at: nat, hi: nat)
    requires at < |k| && hi <= |k|
    ensures Dot(k, Alone(|k|, at), 0, hi) == if at < hi then k[at] else 0.0
  {
    if hi > 0 {
      DotAlone(k, at, hi - 1);
    }
  }

  lemma {:induction false} FoldedAlone(k: seq<real>, at: nat, n: nat)
    requires at < |k| && 2 * n <= |k|
    ensures Folded(k, Alone(|k|, at), n)
         == if at < n then k[at] else if |k| - 1 - at < n then k[|k| - 1 - at] else 0.0
  {
    if n > 0 {
      FoldedAlone(k, at, n - 1);
    }
  }

  /** The folded form is the dot product on every window exactly for symmetric kernels. */
  lemma FoldedExactly(k: seq<real>)
    requires |k| % 2 == 0
    ensures (forall q: seq<real> :: |q| == |k| ==> Folded(k, q, |k| / 2) == Dot(k, q, 0, |k|)) <==> IsSymmetric(k)
  {
    hide Folded, Dot;
    if IsSymmetric(k) {
      forall q: seq<real> | |q| == |k| ensures Folded(k, q, |k| / 2) == Dot(k, q, 0, |k|) {
        WholeFold(k, q);
      }
    }
    if forall q: seq<real> :: |q| == |k| ==> Folded(k, q, |k| / 2) == Dot(k, q, 0, |k|) {
      forall i | |k| / 2 <= i < |k| ensures k[i] == k[|k| - 1 - i] {
        FoldedAlone(k, i, |k| / 2);
        DotAlone(k, i, |k|);
        assert Folded(k, Alone(|k|, i), |k| / 2) == Dot(k, Alone(|k|, i), 0, |k|);
      }
      forall i | 0 <= i < |k| / 2 ensures k[i] == k[|k| - 1 - i] {
        var j := |k| - 1 - i;
        assert |k| / 2 <= j < |k| && k[j] == k[|k| - 1 - j];
      }
    }
  }

  /** The code's output is the dot product on every window exactly for these kernels. */
  lemma ServedExactly(k: seq<real>)
    ensures (forall q: seq<real> :: |q| == |k| ==> BranchSum(k, q) == Dot(k, q, 0, |k|)) <==> IsServed(k)
    ensures IsServed(k) <==> if |k| in {4, 8, 12, 24} then IsSymmetric(k) else |k| % 2 == 1 ==> k[|k| - 1] == 0.0
  {
    hide Folded, Dot, IsSymmetric;
    if IsServed(k) {
      forall q: seq<real> | |q| == |k| ensures BranchSum(k, q) == Dot(k, q, 0, |k|) {
        ServedIsDot(k, q);
      }
    }
    if forall q: seq<real> :: |q| == |k| ==> BranchSum(k, q) == Dot(k, q, 0, |k|) {
      if IsFoldedLength(|k|) {
        forall q: seq<real> | |q| == |k| ensures Folded(k, q, |k| / 2) == Dot(k, q, 0, |k|) {
          assert BranchSum(k, q) == Dot(k, q, 0, |k|);
        }
        FoldedExactly(k);
      } else if |k| % 2 == 1 {
        var q := Alone(|k|, |k| - 1);
        DotAlone(k, |k| - 1, |k|);
        DotAlone(k, |k| - 1, |k| - 1);
        assert BranchSum(k, q) == Dot(k, q, 0, |k|);
      }
    }
  }

  /** Four taps with one of them alone: the branch uses it for the mirrored sample, too. */
  lemma UnservedKernel()
    ensures !IsServed([1.0, 0.0, 0.0, 0.0])
    ensures BranchSum([1.0, 0.0, 0.0, 0.0], [0.0, 0.0, 0.0, 1.0]) == 1.0
    ensures Dot([1.0, 0.0, 0.0, 0.0], [0.0, 0.0, 0.0, 1.0], 0, 4) == 0.0
  {
    var k, q := [1.0, 0.0, 0.0, 0.0], [0.0, 0.0, 0.0, 1.0];
    assert k[0] != k[3];
    assert Folded(k, q, 1) == 1.0 && Folded(k, q, 2) == 1.0;
    assert Dot(k, q, 0, 2) == 0.0 && Dot(k, q, 0, 3) == 0.0;
  }

  lemma FoldedStep2(k: seq<real>, q: seq<real>, n: nat)
    requires n + 2 <= |k| == |q|
    ensures Folded(k, q, n + 2) == Folded(k, q, n) + Pair(k, q, n) + Pair(k, q, n + 1)
    ensures Folded(k, q, 0) == 0.0
  {
  }

  // -------------------------------------------------------- the two lanes

  /** Sample p of a block after the multiplication by the oscillator; odd samples also
      get the centre tap. */
  function Rotated(v: real, p: nat, hbc: real): real {
    if p % 4 == 0 then -v
    else if p % 4 == 1 then -v * hbc
    else if p % 4 == 2 then v
    else v * hbc
  }

  /** Sample i of the whole stream after that step, zero before the start. */
  function LaneAt(xs: seq<real>, hbc: real, i: int): real {
    if 0 <= i < |xs| then Rotated(DcRemoved(xs, i), i, hbc) else 0.0
  }

  function Lane(xs: seq<real>, hbc: real): int -> real {
    i => LaneAt(xs, hbc, i)
  }

  function TapSum(kernel: seq<real>, q: seq<real>): real {
    if |q| == |kernel| then BranchSum(kernel, q) else 0.0
  }

  function Filter(kernel: seq<real>): seq<real> -> real {
    q => TapSum(kernel, q)
  }

  /** Filter output and delayed odd sample number m as one complex value. */
  function LaneOutput(h: seq<real>, xs: seq<real>, m: nat): Complex
    requires |h| % 2 == 1
  {
    var len, lane := |h| / 2 + 1, Lane(xs, h[|h| / 2]);
    Complex(TapSum(EveryOther(h), EvenTaps(lane, m, len)), lane(2 * (m - len / 2) + 1))
  }

  // ------------------------------------------- the lanes compute the convolution

  /** Negating and scaling by the centre tap is multiplication by the oscillator. */
  lemma RotatedIsProduct(v: real, p: nat, hbc: real)
    ensures p % 2 == 0 ==> Mul(Oscillator(p), Complex(v, 0.0)) == Complex(Rotated(v, p, hbc), 0.0)
    ensures p % 2 == 1 ==>
              Mul(Complex(hbc, 0.0), Mul(Oscillator(p), Complex(v, 0.0))) == Complex(0.0, Rotated(v, p, hbc))
  {
    var z := Mul(Oscillator(p), Complex(v, 0.0));
    if p % 4 == 0 {
      assert z == Complex(-v, 0.0);
    } else if p % 4 == 1 {
      assert z == Complex(0.0, -v);
    } else if p % 4 == 2 {
      assert z == Complex(v, 0.0);
    } else {
      assert z == Complex(0.0, v);
    }
  }

  lemma MixedEven(xs: seq<real>, hbc: real, i: int)
    requires 2 * i < |xs|
    ensures Mixed(xs, 2 * i) == Complex(LaneAt(xs, hbc, 2 * i), 0.0)
  {
    hide Mul, Rotated, Oscillator;
    if i >= 0 {
      RotatedIsProduct(DcRemoved(xs, 2 * i), 2 * i, hbc);
    }
  }

  lemma MixedOdd(xs: seq<real>, hbc: real, i: int)
    requires 2 * i + 1 < |xs|
    ensures Mul(Complex(hbc, 0.0), Mixed(xs, 2 * i + 1)) == Complex(0.0, LaneAt(xs, hbc, 2 * i + 1))
  {
    hide Mul, Rotated, Oscillator, DcRemoved;
    if i >= 0 {
      OddIsOdd(i);
      RotatedIsProduct(DcRemoved(xs, 2 * i + 1), 2 * i + 1, hbc);
    } else {
      TimesZero(Complex(hbc, 0.0));
    }
  }

  lemma TimesZero(z: Complex)
    ensures Mul(z, ZERO) == ZERO
  {
  }

  lemma RealMul(a: real, b: real)
    ensures Mul(Complex(a, 0.0), Complex(b, 0.0)) == Complex(a * b, 0.0)
  {
  }

  // Below, c is the centre of h and d half the filter's taps: |h| == 2c + 1, c == 2d - 1.

  /** The filter's sum over its first j taps, and the delayed odd sample. */
  function EvenPart(h: seq<real>, xs: seq<real>, m: nat, c: nat, j: nat): real
    requires |h| == 2 * c + 1 && j <= c + 1
  {
    Dot(EveryOther(h), EvenTaps(Lane(xs, h[c]), m, c + 1), 0, j)
  }

  function OddPart(h: seq<real>, xs: seq<real>, m: nat, c: nat, d: nat): real
    requires c < |h|
  {
    LaneAt(xs, h[c], 2 * (m - d) + 1)
  }

  function EvenTerm(h: seq<real>, xs: seq<real>, m: nat, c: nat, j: nat): real
    requires |h| == 2 * c + 1 && j <= c
  {
    Term(EveryOther(h), EvenTaps(Lane(xs, h[c]), m, c + 1), j)
  }

  lemma NextEvenPart(h: seq<real>, xs: seq<real>, m: nat, c: nat, j: nat)
    requires |h| == 2 * c + 1 && j <= c
    ensures EvenPart(h, xs, m, c, 0) == 0.0
    ensures EvenPart(h, xs, m, c, j + 1) == EvenPart(h, xs, m, c, j) + EvenTerm(h, xs, m, c, j)
  {
    hide Term;
  }

  /** Tap k at its sample of the mixed stream. */
  function Tapped(h: seq<real>, xs: seq<real>, m: nat, k: nat): Complex
    requires 2 * m < |xs| && k < |h|
  {
    Mul(Complex(h[k], 0.0), Mixed(xs, 2 * m - k))
  }

  lemma EvenTap(h: seq<real>, xs: seq<real>, m: nat, c: nat, j: nat)
    requires |h| == 2 * c + 1 && 2 * m < |xs| && j <= c
    ensures Tapped(h, xs, m, 2 * j) == Complex(EvenTerm(h, xs, m, c, j), 0.0)
  {
    hide Mul, Mixed, LaneAt;
    MixedEven(xs, h[c], m - j);
    RealMul(h[2 * j], LaneAt(xs, h[c], 2 * (m - j)));
    assert 2 * (m - j) == 2 * m - 2 * j;
  }

  lemma OddTap(h: seq<real>, xs: seq<real>, m: nat, c: nat, d: nat, j: nat)
    requires OddTapsZero(h) && |h| == 2 * c + 1 && c + 1 == 2 * d && 2 * m < |xs| && j < c
    ensures Tapped(h, xs, m, 2 * j + 1) == Complex(0.0, if j + 1 == d then OddPart(h, xs, m, c, d) else 0.0)
  {
    hide Mul, Mixed, LaneAt, OddTapsZero;
    var i := 2 * m - (2 * j + 1);
    if j + 1 == d {
      MixedOdd(xs, h[c], m - d);
      assert 2 * (m - d) + 1 == i;
    } else {
      OffCentre(h, j);
      ZeroTap(Mixed(xs, i));
    }
  }

  lemma OffCentre(h: seq<real>, j: nat)
    requires OddTapsZero(h) && 2 * j + 1 < |h| && 2 * j + 1 != |h| / 2
    ensures h[2 * j + 1] == 0.0
  {
    OddIsOdd(j);
  }

  lemma ZeroTap(z: Complex)
    ensures Mul(Complex(0.0, 0.0), z) == ZERO
  {
  }

  lemma NextTwoTaps(h: seq<real>, xs: seq<real>, m: nat, j: nat)
    requires 2 * m < |xs| && 2 * j + 1 < |h|
    ensures Convolved(h, xs, m, 2 * j + 2)
         == Add(Add(Convolved(h, xs, m, 2 * j), Tapped(h, xs, m, 2 * j)), Tapped(h, xs, m, 2 * j + 1))
  {
    hide Tapped, Add;
    LastTap(h, xs, m, 2 * j);
    LastTap(h, xs, m, 2 * j + 1);
    hide Convolved;
  }

  lemma LastTap(h: seq<real>, xs: seq<real>, m: nat, k: nat)
    requires 2 * m < |xs| && k < |h|
    ensures Convolved(h, xs, m, k + 1) == Add(Convolved(h, xs, m, k), Tapped(h, xs, m, k))
  {
    hide Mul, Mixed, Add;
  }

  lemma NothingConvolved(h: seq<real>, xs: seq<real>, m: nat, c: nat)
    requires |h| == 2 * c + 1 && 2 * m < |xs|
    ensures Convolved(h, xs, m, 2 * 0) == Complex(0.0, 0.0) && EvenPart(h, xs, m, c, 0) == 0.0
  {
  }

  lemma AddTwo(z: Complex, e: real, o: real)
    ensures Add(Add(z, Complex(e, 0.0)), Complex(0.0, o)) == Complex(z.re + e, z.im + o)
  {
  }

  lemma {:induction false} PartialConvolution(h: seq<real>, xs: seq<real>, m: nat, c: nat, d: nat, j: nat)
    requires OddTapsZero(h) && |h| == 2 * c + 1 && c + 1 == 2 * d && 2 * m < |xs| && j <= c
    ensures Convolved(h, xs, m, 2 * j)
         == Complex(EvenPart(h, xs, m, c, j), if j >= d then OddPart(h, xs, m, c, d) else 0.0)
  {
    hide *;
    if j == 0 {
      NothingConvolved(h, xs, m, c);
    } else {
      var i := j - 1;
      assert 2 * i + 2 == 2 * j;
      PartialConvolution(h, xs, m, c, d, i);
      NextTwoTaps(h, xs, m, i);
      EvenTap(h, xs, m, c, i);
      OddTap(h, xs, m, c, d, i);
      NextEvenPart(h, xs, m, c, i);
      AddTwo(Convolved(h, xs, m, 2 * i), EvenTerm(h, xs, m, c, i), if j == d then OddPart(h, xs, m, c, d) else 0.0);
    }
  }

  /** Filtering the even lane with every other tap and delaying the odd lane by half the
      kernel is the whole complex convolution, two samples at a time. */
  lemma LanesAreConvolution(h: seq<real>, xs: seq<real>, m: nat)
    requires Convolves(h) && 2 * m < |xs|
    ensures LaneOutput(h, xs, m) == Convolved(h, xs, m, |h|)
  {
    hide *;
    var c, d := MiddleOf(h);
    LaneOutputIs(h, xs, m, c, d);
    WholeConvolution(h, xs, m, c, d);
  }

  /** The kernels for which the two lanes are a convolution. */
  predicate Convolves(h: seq<real>) {
    IsHalfBand(h) && IsServed(EveryOther(h))
  }

  lemma MiddleOf(h: seq<real>) returns (c: nat, d: nat)
    requires Convolves(h)
    ensures |h| == 2 * c + 1 && c == |h| / 2 && c + 1 == 2 * d && OddTapsZero(h) && IsServed(EveryOther(h))
  {
    hide OddTapsZero, IsServed, EveryOther;
    c := |h| / 2;
    d := (c + 1) / 2;
  }

  lemma LaneOutputIs(h: seq<real>, xs: seq<real>, m: nat, c: nat, d: nat)
    requires |h| == 2 * c + 1 && c + 1 == 2 * d && IsServed(EveryOther(h))
    ensures LaneOutput(h, xs, m) == Complex(EvenPart(h, xs, m, c, c + 1), OddPart(h, xs, m, c, d))
  {
    hide LaneAt, EvenTaps, EveryOther, BranchSum, IsServed, Dot;
    ServedIsDot(EveryOther(h), EvenTaps(Lane(xs, h[c]), m, c + 1));
  }

  lemma WholeConvolution(h: seq<real>, xs: seq<real>, m: nat, c: nat, d: nat)
    requires OddTapsZero(h) && |h| == 2 * c + 1 && c + 1 == 2 * d && 2 * m < |xs|
    ensures Convolved(h, xs, m, |h|) == Complex(EvenPart(h, xs, m, c, c + 1), OddPart(h, xs, m, c, d))
  {
    hide Tapped, OddTapsZero, EvenPart, OddPart, EvenTerm, Convolved;
    PartialConvolution(h, xs, m, c, d, c);
    EvenTap(h, xs, m, c, c);
    LastTap(h, xs, m, 2 * c);
    NextEvenPart(h, xs, m, c, c);
  }

  // ------------------------------------------------------------- the converter

  /** Block x, arriving after the stream s, with the average removed from its first n
      samples. */
  function DcBlockUpTo(s: seq<real>, x: seq<real>, n: nat): (y: seq<real>)
    ensures |y| == |x|
  {
    seq(|x|, p requires 0 <= p < |x| => if p < n then DcRemoved(s + x, |s| + p) else x[p])
  }

  function DcBlock(s: seq<real>, x: seq<real>): (y: seq<real>)
    ensures |y| == |x|
  {
    DcBlockUpTo(s, x, |x|)
  }

  lemma WholeBlock(s: seq<real>, x: seq<real>)
    ensures DcBlock(s, x) == DcBlockUpTo(s, x, |x|)
  {
  }

  lemma DcStart(s: seq<real>, x: seq<real>)
    ensures DcBlockUpTo(s, x, 0) == x
    ensures AverageAt(s + x, |s|) == Average(s)
    ensures AverageAt(s + x, |s| + |x|) == Average(s + x)
  {
    assert (s + x)[..|s|] == s && (s + x)[..|s| + |x|] == s + x;
  }

  lemma DcStep(s: seq<real>, x: seq<real>, n: nat)
    requires n < |x|
    ensures DcBlockUpTo(s, x, n)[n] == x[n]
    ensures var xs, avg := s + x, AverageAt(s + x, |s| + n);
            && DcBlockUpTo(s, x, n + 1) == DcBlockUpTo(s, x, n)[n := x[n] - avg]
            && AverageAt(xs, |s| + n + 1) == avg + Leak(x[n] - avg)
  {
    var xs := s + x;
    assert xs[..|s| + n + 1][..|s| + n] == xs[..|s| + n];
    var next, updated := DcBlockUpTo(s, x, n + 1), DcBlockUpTo(s, x, n)[n := x[n] - AverageAt(xs, |s| + n)];
    forall p | 0 <= p < |x| ensures next[p] == updated[p] {
      assert p == n ==> DcRemoved(xs, |s| + p) == updated[p];
    }
  }

  /** The loop turns whole groups of four; up to three samples at the end stay. */
  function RotatedBlock(x: seq<real>, hbc: real): (y: seq<real>)
    ensures |y| == |x|
  {
    seq(|x|, p requires 0 <= p < |x| => if p < |x| - |x| % 4 then Rotated(x[p], p, hbc) else x[p])
  }

  /** x with its first n groups of four turned. */
  function RotatedUpTo(x: seq<real>, hbc: real, n: nat): (y: seq<real>)
    ensures |y| == |x|
  {
    seq(|x|, p requires 0 <= p < |x| => if p < 4 * n then Rotated(x[p], p, hbc) else x[p])
  }

  lemma RotationStart(x: seq<real>, hbc: real)
    ensures RotatedUpTo(x, hbc, 0) == x && RotatedUpTo(x, hbc, |x| / 4) == RotatedBlock(x, hbc)
  {
    hide Rotated;
    assert 4 * (|x| / 4) == |x| - |x| % 4;
  }

  /** Four samples turned; the third stays as it is. */
  function GroupTurned(y: seq<real>, hbc: real, j: nat): (z: seq<real>)
    requires j + 3 < |y|
    ensures |z| == |y|
    ensures z[j] == -y[j] && z[j + 1] == -y[j + 1] * hbc && z[j + 2] == y[j + 2] && z[j + 3] == y[j + 3] * hbc
    ensures forall p :: 0 <= p < |y| && !(j <= p < j + 4) ==> z[p] == y[p]
  {
    y[j := -y[j]][j + 1 := -y[j + 1] * hbc][j + 3 := y[j + 3] * hbc]
  }

  lemma RotatedGroup(y: seq<real>, hbc: real, j: nat)
    requires j % 4 == 0 && j + 3 < |y|
    ensures forall p :: j <= p < j + 4 ==> GroupTurned(y, hbc, j)[p] == Rotated(y[p], p, hbc)
  {
    forall p | j <= p < j + 4 ensures GroupTurned(y, hbc, j)[p] == Rotated(y[p], p, hbc) {
      if p == j {
        assert p % 4 == 0;
      } else if p == j + 1 {
        assert p % 4 == 1;
      } else if p == j + 2 {
        assert p % 4 == 2;
      } else {
        assert p == j + 3 && p % 4 == 3;
      }
    }
  }

  lemma RotationStep(x: seq<real>, hbc: real, n: nat)
    requires 4 * n + 3 < |x|
    ensures var y, j := RotatedUpTo(x, hbc, n), 4 * n;
            RotatedUpTo(x, hbc, n + 1) == GroupTurned(y, hbc, j)
  {
    hide Rotated, GroupTurned;
    var y, z, j := RotatedUpTo(x, hbc, n), RotatedUpTo(x, hbc, n + 1), 4 * n;
    var turned := GroupTurned(y, hbc, j);
    RotatedGroup(y, hbc, j);
    forall p | 0 <= p < |x| ensures z[p] == turned[p] {
      if j <= p < j + 4 {
        assert y[p] == x[p] && z[p] == Rotated(x[p], p, hbc);
      }
    }
    assert z == turned;
  }

  /** Whole groups of four are multiplied by the oscillator, the odd samples by the centre tap,
      too; what is behind them stays. */
  lemma RotatedEntry(x: seq<real>, hbc: real, p: nat)
    requires p < |x|
    ensures var y, z := RotatedBlock(x, hbc)[p], Mul(Oscillator(p), Complex(x[p], 0.0));
            if p >= 4 * (|x| / 4) then y == x[p]
            else if p % 2 == 0 then z == Complex(y, 0.0)
            else Mul(Complex(hbc, 0.0), z) == Complex(0.0, y)
  {
    RotatedIsProduct(x[p], p, hbc);
    hide Rotated, Oscillator, Mul;
  }

  lemma LaneGrows(s: seq<real>, x: seq<real>, hbc: real, i: int)
    requires i < |s|
    ensures LaneAt(s + x, hbc, i) == LaneAt(s, hbc, i)
  {
    hide Rotated;
    if i >= 0 {
      assert (s + x)[..i] == s[..i];
    }
  }

  /** The stream behind the DC filter and the oscillator. */
  function MixedStream(xs: seq<real>, hbc: real): (y: seq<real>)
    ensures |y| == |xs|
  {
    seq(|xs|, i requires 0 <= i < |xs| => LaneAt(xs, hbc, i))
  }

  /** Blocks of whole groups of four keep the oscillator's phase. */
  lemma PhaseKept(s: seq<real>, x: seq<real>, hbc: real)
    requires |s| % 4 == 0 && |x| % 4 == 0
    ensures MixedStream(s, hbc) + RotatedBlock(DcBlock(s, x), hbc) == MixedStream(s + x, hbc)
  {
    var a, y, b := MixedStream(s, hbc), RotatedBlock(DcBlock(s, x), hbc), MixedStream(s + x, hbc);
    forall i | 0 <= i < |b| ensures (a + y)[i] == b[i] {
      if i < |s| {
        LaneGrows(s, x, hbc, i);
      } else {
        SamePhase(|s|, i - |s|);
      }
      hide DcRemoved;
    }
  }

  lemma SamePhase(m: nat, p: nat)
    requires m % 4 == 0
    ensures (m + p) % 4 == p % 4
  {
  }

  /** A recorded signal, zero before and behind. */
  function Signal(y: seq<real>): int -> real {
    i => if 0 <= i < |y| then y[i] else 0.0
  }

  lemma SignalContinues(a: seq<real>, y: seq<real>, m: nat)
    requires |a| == 2 * m
    ensures Continues(Signal(a), Signal(a + y), m, y)
  {
  }

  lemma SignalOfStream(xs: seq<real>, hbc: real)
    ensures forall i :: Signal(MixedStream(xs, hbc))(i) == Lane(xs, hbc)(i)
  {
    hide Rotated, DcRemoved;
  }

  lemma QuietState(queue: seq<real>, line: seq<real>, n: nat)
    requires 1 <= n <= |queue| && forall j :: 0 <= j < |queue| ==> queue[j] == 0.0
    requires forall j :: 0 <= j < |line| ==> line[j] == 0.0
    ensures Window(queue, 0, n) == EvenTaps(Signal([]), -1, n - 1)
    ensures Ring(line, 0) == OddPast(Signal([]), 0, |line|)
  {
    assert Ring(line, 0) == line;
    hide Ring;
  }

  /** Average, window and ring stand for a stream of which mixed is what came behind the
      oscillator. */
  ghost predicate Stands(hbc: real, len: nat, stream: seq<real>, mixed: seq<real>, pairs: nat, phased: bool,
                         avg: real, w: seq<real>, r: seq<real>)
    requires len >= 1
  {
    && |stream| == |mixed| == 2 * pairs
    && avg == Average(stream)
    && w == EvenTaps(Signal(mixed), pairs - 1, len - 1)
    && r == OddPast(Signal(mixed), pairs, len / 2)
    && (phased ==> |stream| % 4 == 0 && mixed == MixedStream(stream, hbc))
  }

  lemma QuietStands(hbc: real, len: nat, queue: seq<real>, line: seq<real>)
    requires 1 <= len <= |queue| && |line| == len / 2 && forall j :: 0 <= j < |queue| ==> queue[j] == 0.0
    requires forall j :: 0 <= j < |line| ==> line[j] == 0.0
    ensures Stands(hbc, len, [], [], 0, true, 0.0, Window(queue, 0, len), Ring(line, 0))
  {
    hide Window, Ring, EvenTaps, OddPast, Signal;
    QuietState(queue, line, len);
  }

  /** After one more block they stand for the longer stream, and the block holds its outputs. */
  lemma NextStands(h: seq<real>, s: seq<real>, m: seq<real>, p: nat, phased: bool, avg: real,
                   w: seq<real>, r: seq<real>, x: seq<real>)
    requires |h| % 2 == 1 && |x| % 2 == 0
    requires Stands(h[|h| / 2], |h| / 2 + 1, s, m, p, phased, avg, w, r)
    ensures var hbc, len, f, b := h[|h| / 2], |h| / 2 + 1, Filter(EveryOther(h)), |x| / 2;
            var y := RotatedBlock(DcBlock(s, x), hbc);
            var out := BlockOutput(f, w, r, y);
            && Stands(hbc, len, s + x, m + y, p + b, phased && |x| % 4 == 0, Average(s + x),
                      WindowAfter(w, y, b), NextRing(f, w, r, y))
            && Delivers(f, Signal(m + y), p, len, len / 2, out)
            && (phased && |x| % 4 == 0 && Convolves(h) ==> DeliversConvolution(h, s + x, p, out))
  {
    hide BlockOutput, WindowAfter, NextRing, DcBlock, RotatedBlock, EvenTaps, OddPast, EveryOther, Average, Delivers,
         DeliversConvolution, Filter, Signal, MixedStream, Continues, Convolves;
    var hbc, len, f, b := h[|h| / 2], |h| / 2 + 1, Filter(EveryOther(h)), |x| / 2;
    var y := RotatedBlock(DcBlock(s, x), hbc);
    SignalContinues(m, y, p);
    StateCarries(f, Signal(m), Signal(m + y), y, p, b, len, len / 2);
    BlockDelivered(f, Signal(m), Signal(m + y), y, p, b, len, len / 2);
    if phased && |x| % 4 == 0 {
      PhaseKept(s, x, hbc);
      BlockSize(f, w, r, y);
      ConvolutionDelivered(h, s + x, p, BlockOutput(f, w, r, y), m + y);
    }
  }

  lemma BlockSize(f: seq<real> -> real, w: seq<real>, r: seq<real>, y: seq<real>)
    ensures |BlockOutput(f, w, r, y)| == |y|
  {
  }

  class IqConverterFloat {
    var avg: real
    const hbc: real
    const len: nat
    var firIndex: nat
    var delayIndex: nat
    const firKernel: array<real>
    const firQueue: array<real>
    const delayLine: array<real>

    /** The kernel given at creation, every sample since the last reset, and what the filter
        and the delay line have seen of them; phased says that all blocks so far were whole
        groups of four. */
    ghost const taps: seq<real>
    ghost var stream: seq<real>
    ghost var mixed: seq<real>
    ghost var pairs: nat
    ghost var phased: bool

    ghost predicate Shape()
      reads this, firKernel, firQueue, delayLine
    {
      && |taps| % 2 == 1 && len == |taps| / 2 + 1 && len >= 2
      && firKernel.Length == len && firQueue.Length == len * SIZE_FACTOR && delayLine.Length == len / 2
      && firKernel != firQueue && firKernel != delayLine && firQueue != delayLine
      && firKernel[..] == EveryOther(taps) && hbc == taps[|taps| / 2]
      && firIndex <= len * (SIZE_FACTOR - 1) && delayIndex < delayLine.Length
    }

    ghost predicate Valid()
      reads this, firKernel, firQueue, delayLine
    {
      && Shape()
      && Stands(hbc, len, stream, mixed, pairs, phased, avg,
                Window(firQueue[..], firIndex, len), Ring(delayLine[..], delayIndex))
    }

    constructor (hbKernel: seq<real>)
      requires |hbKernel| % 2 == 1 && |hbKernel| >= 3
      ensures Valid() && taps == hbKernel && stream == [] && phased
      ensures fresh(firKernel) && fresh(firQueue) && fresh(delayLine)
    {
      taps := hbKernel;
      len := |hbKernel| / 2 + 1;
      hbc := hbKernel[|hbKernel| / 2];
      var kernel := new real[|hbKernel| / 2 + 1](i requires 0 <= i < |hbKernel| / 2 + 1 => hbKernel[2 * i]);
      firKernel := kernel;
      firQueue := new real[(|hbKernel| / 2 + 1) * SIZE_FACTOR];
      delayLine := new real[(|hbKernel| / 2 + 1) / 2];
      avg, firIndex, delayIndex, stream, mixed, pairs, phased := 0.0, 0, 0, [], [], 0, true;
      new;
      assert firKernel[..] == EveryOther(taps);
      Reset();
    }

    method Reset()
      requires Shape()
      modifies this, firQueue, delayLine
      ensures Valid() && stream == [] && phased
    {
      hide Stands, Window, Ring, EveryOther;
      avg := 0.0;
      firIndex := 0;
      delayIndex := 0;
      stream, mixed, pairs, phased := [], [], 0, true;
      forall i | 0 <= i < delayLine.Length {
        delayLine[i] := 0.0;
      }
      forall i | 0 <= i < firQueue.Length {
        firQueue[i] := 0.0;
      }
      QuietStands(hbc, len, firQueue[..], delayLine[..]);
      assert firKernel[..] == old(firKernel[..]);
    }

    /** One sample: the average comes off, and a share of what is left goes into it. */
    static method RemoveDcOnce(samples: array<real>, i: nat, avg: real) returns (next: real)
      requires i < samples.Length
      modifies samples
      ensures samples[..] == old(samples[..])[i := old(samples[i]) - avg]
      ensures next == avg + Leak(old(samples[i]) - avg)
    {
      samples[i] := samples[i] - avg;
      next := avg + Leak(samples[i]);
    }

    method RemoveDc(samples: array<real>, ghost s: seq<real>)
      requires avg == Average(s)
      modifies this`avg, samples
      ensures avg == Average(s + old(samples[..]))
      ensures samples[..] == DcBlock(s, old(samples[..]))
    {
      hide *;
      ghost var x := samples[..];
      DcStart(s, x);
      ghost var xs, at := s + x, |s|;
      var mean, i := avg, 0;
      while i < samples.Length
        invariant 0 <= i <= |x| && at == |s| + i
        invariant mean == AverageAt(xs, at)
        invariant samples[..] == DcBlockUpTo(s, x, i)
      {
        DcStep(s, x, i);
        mean := RemoveDcOnce(samples, i, mean);
        i, at := i + 1, at + 1;
      }
      avg := mean;
      WholeBlock(s, x);
    }

    method RotateGroup(samples: array<real>, j: nat)
      requires j + 3 < samples.Length
      modifies samples
      ensures samples[..] == GroupTurned(old(samples[..]), hbc, j)
    {
      ghost var y := samples[..];
      samples[j + 0] := -samples[j + 0];
      samples[j + 1] := -samples[j + 1] * hbc;
      samples[j + 3] := samples[j + 3] * hbc;
      assert samples[j + 1] == -y[j + 1] * hbc && samples[j + 3] == y[j + 3] * hbc;
      ghost var z := GroupTurned(y, hbc, j);
      assert forall p :: 0 <= p < |y| ==> samples[p] == z[p];
    }

    method Rotate(samples: array<real>)
      modifies samples
      ensures samples[..] == RotatedBlock(old(samples[..]), hbc)
    {
      ghost var x := samples[..];
      RotationStart(x, hbc);
      hide RotatedUpTo, RotatedBlock, GroupTurned;
      var i := 0;
      while i < samples.Length / 4
        invariant 0 <= i <= samples.Length / 4
        invariant samples[..] == RotatedUpTo(x, hbc, i)
      {
        RotationStep(x, hbc, i);
        RotateGroup(samples, 4 * i);
        i := i + 1;
      }
    }

    /** One even sample through the queue. */
    method FirStep(samples: array<real>, i: nat)
      requires Shape() && i < samples.Length
      requires samples != firKernel && samples != firQueue && samples != delayLine
      modifies this`firIndex, firQueue, samples
      ensures Shape() && firKernel[..] == old(firKernel[..])
      ensures var q := [old(samples[i])] + old(Window(firQueue[..], firIndex, len));
              && samples[..] == old(samples[..])[i := Filter(firKernel[..])(q)]
              && Window(firQueue[..], firIndex, len) == q[..len - 1]
    {
      hide BranchSum, IsServed, EveryOther, Window;
      ghost var before := firQueue[..];
      ghost var q := [samples[i]] + Window(before, firIndex, len);
      WindowPush(before, firIndex, len, samples[i]);
      firQueue[firIndex] := samples[i];
      assert firQueue[..] == before[firIndex := samples[i]];
      assert firQueue[firIndex..firIndex + len] == firQueue[..][firIndex..firIndex + len];
      var acc := FirOutput(firKernel[..], firQueue[firIndex..firIndex + len]);
      samples[i] := acc;
      firIndex := Advance(firQueue, firIndex, len, SIZE_FACTOR);
    }

    method FirInterleaved(samples: array<real>)
      requires Shape() && samples.Length % 2 == 0
      requires samples != firKernel && samples != firQueue && samples != delayLine
      modifies this`firIndex, firQueue, samples
      ensures Shape()
      ensures var w, x := old(Window(firQueue[..], firIndex, len)), old(samples[..]);
              && samples[..] == FilteredBlock(Filter(firKernel[..]), w, x, |x| / 2)
              && Window(firQueue[..], firIndex, len) == WindowAfter(w, x, |x| / 2)
    {
      hide Filter, FilteredBlock, WindowAfter, Taps, Window, EveryOther;
      ghost var w, x, f := Window(firQueue[..], firIndex, len), samples[..], Filter(firKernel[..]);
      FilterStart(f, w, x);
      var i := 0;
      ghost var t: nat := 0;
      while i < samples.Length
        invariant i == 2 * t <= |x| && Shape() && Filter(firKernel[..]) == f
        invariant samples[..] == FilteredBlock(f, w, x, t)
        invariant Window(firQueue[..], firIndex, len) == WindowAfter(w, x, t)
      {
        FilterStep(f, w, x, t);
        FirStep(samples, i);
        i := i + 2;
        t := t + 1;
      }
    }

    method TranslateFs4(samples: array<real>)
      requires Shape() && samples.Length % 2 == 0
      requires samples != firKernel && samples != firQueue && samples != delayLine
      modifies this`firIndex, this`delayIndex, firQueue, delayLine, samples
      ensures Shape()
      ensures var w, r := old(Window(firQueue[..], firIndex, len)), old(Ring(delayLine[..], delayIndex));
              var f, y := Filter(EveryOther(taps)), RotatedBlock(old(samples[..]), hbc);
              && samples[..] == BlockOutput(f, w, r, y)
              && Window(firQueue[..], firIndex, len) == WindowAfter(w, y, |y| / 2)
              && Ring(delayLine[..], delayIndex) == NextRing(f, w, r, y)
    {
      hide Filter, FilteredBlock, DelayedBlock, WindowAfter, DelayedRing, RotatedBlock, Window, Ring, EveryOther;
      Rotate(samples);
      FirInterleaved(samples);
      delayIndex := DelayInterleaved(delayLine, delayIndex, samples);
    }

    /** One block. Its outputs are those of the whole signal, whatever the split into blocks;
        and with whole groups of four, output m is the m-th value of the convolution. */
    method Process(samples: array<real>)
      requires Valid() && samples.Length % 2 == 0
      requires samples != firKernel && samples != firQueue && samples != delayLine
      modifies this, firQueue, delayLine, samples
      ensures Valid() && stream == old(stream) + old(samples[..])
      ensures mixed == old(mixed) + RotatedBlock(DcBlock(old(stream), old(samples[..])), hbc)
      ensures phased == (old(phased) && samples.Length % 4 == 0)
      ensures Delivers(Filter(EveryOther(taps)), Signal(mixed), old(pairs), len, len / 2, samples[..])
      ensures phased && Convolves(taps) ==> DeliversConvolution(taps, stream, old(pairs), samples[..])
    {
      hide BlockOutput, WindowAfter, NextRing, DcBlock, RotatedBlock, Window, Ring, EveryOther, Average, Delivers,
           DeliversConvolution, Filter, Signal, Convolves, Stands, Valid;
      ghost var s, x, m, p := stream, samples[..], mixed, pairs;
      OpenState();
      NextStands(taps, s, m, p, phased, avg, Window(firQueue[..], firIndex, len), Ring(delayLine[..], delayIndex), x);
      RemoveDc(samples, s);
      TranslateFs4(samples);
      stream, mixed, pairs := s + x, m + RotatedBlock(DcBlock(s, x), hbc), p + |x| / 2;
      phased := phased && |x| % 4 == 0;
      CloseState();
    }

    lemma OpenState()
      requires Valid()
      ensures Shape() && len >= 2 && firIndex + len <= firQueue.Length && delayIndex < delayLine.Length
      ensures Stands(hbc, len, stream, mixed, pairs, phased, avg,
                     Window(firQueue[..], firIndex, len), Ring(delayLine[..], delayIndex))
      ensures |taps| % 2 == 1 && len == |taps| / 2 + 1 && hbc == taps[|taps| / 2] && avg == Average(stream)
    {
      hide EveryOther, Average, EvenTaps, OddPast, Signal, MixedStream, Window, Ring;
    }

    lemma CloseState()
      requires Shape() && len >= 1 && firIndex + len <= firQueue.Length && delayIndex < delayLine.Length
      requires Stands(hbc, len, stream, mixed, pairs, phased, avg,
                      Window(firQueue[..], firIndex, len), Ring(delayLine[..], delayIndex))
      ensures Valid()
    {
    }
  }

  /** y holds the convolution of the mixed stream xs from its sample number 2m on. */
  ghost predicate DeliversConvolution(h: seq<real>, xs: seq<real>, m: nat, y: seq<real>) {
    && |y| % 2 == 0 && |xs| == 2 * m + |y|
    && forall t: nat {:trigger OutputPair(y, t)} :: 2 * t < |y| ==>
         Complex(OutputPair(y, t).0, OutputPair(y, t).1) == Convolved(h, xs, m + t, |h|)
  }

  lemma ConvolutionDelivered(h: seq<real>, xs: seq<real>, m: nat, y: seq<real>, mixed: seq<real>)
    requires |h| % 2 == 1 && |xs| == 2 * m + |y| && mixed == MixedStream(xs, h[|h| / 2])
    requires Delivers(Filter(EveryOther(h)), Signal(mixed), m, |h| / 2 + 1, (|h| / 2 + 1) / 2, y)
    ensures Convolves(h) ==> DeliversConvolution(h, xs, m, y)
  {
    hide *;
    if Convolves(h) {
      SignalOfStream(xs, h[|h| / 2]);
      SameSignal(Filter(EveryOther(h)), Signal(mixed), Lane(xs, h[|h| / 2]), m, |h| / 2 + 1, (|h| / 2 + 1) / 2, y);
      LaneDelivered(h, xs, m, y);
    }
  }

  lemma LaneDelivered(h: seq<real>, xs: seq<real>, m: nat, y: seq<real>)
    requires |h| % 2 == 1 && Convolves(h) && |xs| == 2 * m + |y|
    requires Delivers(Filter(EveryOther(h)), Lane(xs, h[|h| / 2]), m, |h| / 2 + 1, (|h| / 2 + 1) / 2, y)
    ensures DeliversConvolution(h, xs, m, y)
  {
    hide OutputPair, Convolved, Convolves, EvenTaps, TapSum, EveryOther, LaneAt;
    forall t: nat {:trigger OutputPair(y, t)} | 2 * t < |y|
      ensures Complex(OutputPair(y, t).0, OutputPair(y, t).1) == Convolved(h, xs, m + t, |h|)
    {
      LanesAreConvolution(h, xs, m + t);
    }
  }

  // ----------------------------------------------------------- the default kernel

  const LOWER_HALF: seq<real> := [
    -0.000998606272947510, 0.0, 0.001695637278417295, 0.0, -0.003054430179754289, 0.0, 0.005055504379767936, 0.0,
    -0.007901319195893647, 0.0, 0.011873357051047719, 0.0, -0.017411159379930066, 0.0, 0.025304817427568772, 0.0,
    -0.037225225204559217, 0.0, 0.057533286997004301, 0.0, -0.102327462004259350, 0.0, 0.317034472508947400]

  const UPPER_HALF: seq<real> := [
    0.317034472508947400, 0.0, -0.102327462004259350, 0.0, 0.057533286997004301, 0.0, -0.037225225204559217, 0.0,
    0.025304817427568772, 0.0, -0.017411159379930066, 0.0, 0.011873357051047719, 0.0, -0.007901319195893647, 0.0,
    0.005055504379767936, 0.0, -0.003054430179754289, 0.0, 0.001695637278417295, 0.0, -0.000998606272947510]

  const HB_KERNEL_FLOAT: seq<real> := LOWER_HALF + [0.500000000000000000] + UPPER_HALF

  /** The default kernel is one for which Process delivers the convolution. */
  lemma DefaultKernel()
    ensures |HB_KERNEL_FLOAT| == 47 && IsHalfBand(HB_KERNEL_FLOAT) && IsSymmetric(HB_KERNEL_FLOAT)
    ensures Convolves(HB_KERNEL_FLOAT) && HB_KERNEL_FLOAT[23] == 0.5
  {
    var h := HB_KERNEL_FLOAT;
    forall k | 0 <= k < 23 ensures LOWER_HALF[k] == UPPER_HALF[22 - k] && (k % 2 == 1 ==> LOWER_HALF[k] == 0.0) {
    }
    forall k | 0 <= k < 47 ensures h[k] == h[46 - k] && (k % 2 == 1 && k != 23 ==> h[k] == 0.0) {
      if k < 23 {
        assert h[k] == LOWER_HALF[k] && h[46 - k] == UPPER_HALF[22 - k];
      } else if k > 23 {
        assert h[k] == UPPER_HALF[k - 24] && h[46 - k] == LOWER_HALF[46 - k];
      }
    }
    SymmetricEven(h);
  }

  lemma SymmetricEven(h: seq<real>)
    requires |h| % 2 == 1 && IsSymmetric(h)
    ensures IsSymmetric(EveryOther(h))
  {
    var k := EveryOther(h);
    forall i | 0 <= i < |k| ensures k[i] == k[|k| - 1 - i] {
      assert k[i] == h[2 * i] && h[2 * i] == h[|h| - 1 - 2 * i];
      assert |h| - 1 - 2 * i == 2 * (|k| - 1 - i);
    }
  }
}
