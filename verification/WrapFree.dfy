/** When the 16-bit converter computes what its exact arithmetic means: no conversion or
    sum ever wraps, on any stream, exactly for amplitudes up to 16383. */
module WrapFree {
  import opened Queues
  import opened ConverterInt16
  import opened Powers

  const LOWER_HALF: seq<int> := [
    -33, 0, 56, 0, -100, 0, 166, 0, -259, 0, 389, 0, -571, 0, 829, 0, -1220, 0, 1885, 0, -3353, 0, 10389]

  const UPPER_HALF: seq<int> := [
    10389, 0, -3353, 0, 1885, 0, -1220, 0, 829, 0, -571, 0, 389, 0, -259, 0, 166, 0, -100, 0, 56, 0, -33]

  const HB_KERNEL_INT16: seq<int> := LOWER_HALF + [16384] + UPPER_HALF

  const RISING_TAPS: seq<int> := [-33, 56, -100, 166, -259, 389, -571, 829, -1220, 1885, -3353, 10389]

  const FALLING_TAPS: seq<int> := [10389, -3353, 1885, -1220, 829, -571, 389, -259, 166, -100, 56, -33]

  /** The default kernel's even taps, the ones the filter keeps. */
  const EVEN_TAPS: seq<int> := RISING_TAPS + FALLING_TAPS

  lemma EvenTapsOfKernel()
    ensures |HB_KERNEL_INT16| == 47 && EveryOther(HB_KERNEL_INT16) == EVEN_TAPS
  {
    forall i | 0 <= i < 24 ensures HB_KERNEL_INT16[2 * i] == EVEN_TAPS[i] {
      if i < 12 {
        LowerTap(i);
      } else {
        UpperTap(i - 12);
      }
    }
  }

  lemma LowerTap(i: nat)
    requires i < 12
    ensures LOWER_HALF[2 * i] == RISING_TAPS[i]
  {
  }

  lemma UpperTap(i: nat)
    requires i < 12
    ensures UPPER_HALF[2 * i] == FALLING_TAPS[i]
  {
  }

  // ------------------------------------------------------- exact computation

  function OutAt(xs: seq<int>, i: int): int
    requires i < |xs|
  {
    StateAfter(true, xs, i + 1).y
  }

  function ExactRotated(v: int, p: nat): int {
    if p % 4 == 0 then -v
    else if p % 4 == 1 then -v / 2
    else if p % 4 == 2 then v
    else v / 2
  }

  function ExactLaneAt(xs: seq<int>, i: int): int {
    if 0 <= i < |xs| then ExactRotated(OutAt(xs, i), i) else 0
  }

  function ExactLane(xs: seq<int>): int -> int {
    i => ExactLaneAt(xs, i)
  }

  /** sum of k[i] * q[i] over lo <= i < hi. */
  function Dot(k: seq<int>, q: seq<int>, lo: nat, hi: nat): int
    requires hi <= |k| && hi <= |q|
    decreases hi - lo
  {
    if lo >= hi then 0 else Dot(k, q, lo, hi - 1) + Product(k, q, hi - 1)
  }

  /** Every intermediate value of the filter fits its C type. */
  predicate FilterFits(k: seq<int>, q: seq<int>) {
    && |q| == |k|
    && (forall n :: 0 <= n <= |k| ==> InInt32(Dot(k, q, 0, n)))
    && (forall n :: 0 <= n < |k| ==> InInt32(Product(k, q, n)))
    && InInt16(Shift15(Dot(k, q, 0, |k|)))
  }

  /** Every intermediate value of the DC blocker and the oscillator fits its C type. */
  predicate LaneFits(xs: seq<int>) {
    forall n :: 0 <= n < |xs| ==> SampleFits(xs, n)
  }

  predicate SampleFits(xs: seq<int>, n: nat)
    requires n < |xs|
  {
    DcFits(StateAfter(true, xs, n), xs[n]) && InInt16(-OutAt(xs, n))
  }

  /** Nothing wraps while the stream xs goes through the converter with filter taps k. */
  ghost predicate NoWrap(k: seq<int>, xs: seq<int>) {
    && LaneFits(xs)
    && forall m: nat :: 2 * m < |xs| ==> FilterFits(k, EvenTaps(ExactLane(xs), m, |k|))
  }

  // --------------------------------------- without wrap the code is the exact filter

  lemma {:induction false} StatesExact(xs: seq<int>, n: nat)
    requires n <= |xs| && LaneFits(xs)
    ensures StateAfter(false, xs, n) == StateAfter(true, xs, n)
  {
    if n > 0 {
      StatesExact(xs, n - 1);
      StateStep(true, xs, n - 1);
      StateStep(false, xs, n - 1);
      assert SampleFits(xs, n - 1);
      DcStepExact(StateAfter(true, xs, n - 1), xs[n - 1]);
    }
  }

  lemma LaneExact(xs: seq<int>, i: int)
    requires LaneFits(xs)
    ensures LaneAt(xs, i) == ExactLaneAt(xs, i)
  {
    if 0 <= i < |xs| {
      StatesExact(xs, i + 1);
      hide StateAfter, DcFits;
      var v := OutAt(xs, i);
      assert SampleFits(xs, i);
      StateInRange(xs, i);
    }
  }

  lemma StateInRange(xs: seq<int>, i: nat)
    requires LaneFits(xs) && i < |xs|
    ensures InInt16(OutAt(xs, i))
  {
    assert SampleFits(xs, i);
    StateStep(true, xs, i);
  }

  lemma {:induction false} SumExact(k: seq<int>, q: seq<int>, n: nat)
    requires FilterFits(k, q) && n <= |k|
    ensures WrappedSum(k, q, n) == Dot(k, q, 0, n)
  {
    hide Product;
    if n > 0 {
      SumExact(k, q, n - 1);
      assert InInt32(Dot(k, q, 0, n));
    }
  }

  /** Without wrap each output of the code is the exact convolution, rounded down. */
  lemma NoWrapIsExact(k: seq<int>, xs: seq<int>, m: nat)
    requires NoWrap(k, xs) && 2 * m < |xs|
    ensures FilterOutput(k, EvenTaps(Lane(xs), m, |k|)) == Shift15(Dot(k, EvenTaps(ExactLane(xs), m, |k|), 0, |k|))
    ensures forall i :: Lane(xs)(i) == ExactLane(xs)(i)
  {
    forall i ensures Lane(xs)(i) == ExactLane(xs)(i) {
      LaneExact(xs, i);
    }
    var q := EvenTaps(ExactLane(xs), m, |k|);
    assert EvenTaps(Lane(xs), m, |k|) == q;
    SumExact(k, q, |k|);
  }

  /** With wrap-around the sum still has the low 32 bits of the exact one. */
  lemma {:induction false} SumModulo(k: seq<int>, q: seq<int>, n: nat)
    requires n <= |k| && n <= |q|
    ensures (Dot(k, q, 0, n) - WrappedSum(k, q, n)) % 0x1_0000_0000 == 0
  {
    hide ToInt32, Product;
    if n > 0 {
      SumModulo(k, q, n - 1);
      var x := WrappedSum(k, q, n - 1) + Product(k, q, n - 1);
      WrapsAround(x);
      SameLowBits(Dot(k, q, 0, n - 1), WrappedSum(k, q, n - 1), Product(k, q, n - 1), ToInt32(x));
    }
  }

  lemma SameLowBits(a: int, b: int, p: int, w: int)
    requires (a - b) % 0x1_0000_0000 == 0 && (b + p - w) % 0x1_0000_0000 == 0
    ensures (a + p - w) % 0x1_0000_0000 == 0
  {
  }

  // ------------------------------------------------ the half-band convolution

  /** The oscillator i^(n + 2) at a quarter of the sample rate, real and imaginary part. */
  function Turn(n: nat): (int, int) {
    if n % 4 == 0 then (-1, 0) else if n % 4 == 1 then (0, -1) else if n % 4 == 2 then (1, 0) else (0, 1)
  }

  /** Sample i of the DC-free stream times the oscillator; zero before the start. */
  function MixedAt(xs: seq<int>, i: int): (int, int)
    requires i < |xs|
  {
    if i < 0 then (0, 0) else (Turn(i).0 * OutAt(xs, i), Turn(i).1 * OutAt(xs, i))
  }

  /** sum of h[k] * mixed[2m - k] over k < n. */
  function Convolved(h: seq<int>, xs: seq<int>, m: nat, n: nat): (int, int)
    requires n <= |h| && 2 * m < |xs|
  {
    if n == 0 then (0, 0)
    else
      var before, z := Convolved(h, xs, m, n - 1), MixedAt(xs, 2 * m - (n - 1));
      (before.0 + h[n - 1] * z.0, before.1 + h[n - 1] * z.1)
  }

  /** Odd taps vanish but for the one in the middle, which is one half. */
  predicate IsHalfBand(h: seq<int>) {
    && |h| % 2 == 1 && |h| / 2 % 2 == 1 && h[|h| / 2] == 16384
    && forall k :: 0 <= k < |h| && k % 2 == 1 && k != |h| / 2 ==> h[k] == 0
  }

  lemma MixedEven(xs: seq<int>, i: int)
    requires 2 * i < |xs|
    ensures MixedAt(xs, 2 * i) == (ExactLaneAt(xs, 2 * i), 0)
  {
    hide OutAt;
    if i >= 0 {
      EvenTurn(i, OutAt(xs, 2 * i));
      hide Turn, ExactRotated;
    }
  }

  lemma EvenTurn(i: nat, v: int)
    ensures (Turn(2 * i).0 * v, Turn(2 * i).1 * v) == (ExactRotated(v, 2 * i), 0)
  {
  }

  lemma OddTurn(i: nat, v: int)
    ensures Turn(2 * i + 1).0 * v == 0 && (Turn(2 * i + 1).1 * v) / 2 == ExactRotated(v, 2 * i + 1)
  {
  }

  lemma MixedOdd(xs: seq<int>, i: int)
    requires 2 * i + 1 < |xs|
    ensures MixedAt(xs, 2 * i + 1).0 == 0 && MixedAt(xs, 2 * i + 1).1 / 2 == ExactLaneAt(xs, 2 * i + 1)
  {
    hide OutAt;
    if i >= 0 {
      OddTurn(i, OutAt(xs, 2 * i + 1));
      hide Turn, ExactRotated;
    }
  }

  /** Two taps more. */
  lemma NextTwoTaps(h: seq<int>, xs: seq<int>, m: nat, j: nat)
    requires 2 * m < |xs| && 2 * j + 1 < |h|
    ensures var before, after := Convolved(h, xs, m, 2 * j), Convolved(h, xs, m, 2 * j + 2);
            && after.0 == before.0 + h[2 * j] * ExactLaneAt(xs, 2 * (m - j))
            && after.1 == before.1 + h[2 * j + 1] * MixedAt(xs, 2 * m - (2 * j + 1)).1
  {
    MixedEven(xs, m - j);
    MixedOdd(xs, m - j - 1);
    assert 2 * (m - j - 1) + 1 == 2 * m - (2 * j + 1);
    hide MixedAt, ExactLaneAt;
    assert Convolved(h, xs, m, 2 * j + 2).0
        == Convolved(h, xs, m, 2 * j + 1).0 + h[2 * j + 1] * MixedAt(xs, 2 * m - (2 * j + 1)).0;
  }

  lemma LastTap(h: seq<int>, xs: seq<int>, m: nat, c: nat)
    requires 2 * m < |xs| && |h| == 2 * c + 1
    ensures var before, after := Convolved(h, xs, m, 2 * c), Convolved(h, xs, m, |h|);
            after.0 == before.0 + h[2 * c] * ExactLaneAt(xs, 2 * (m - c)) && after.1 == before.1
  {
    MixedEven(xs, m - c);
    assert 2 * (m - c) == 2 * m - 2 * c;
    hide MixedAt, ExactLaneAt;
  }

  /** One term of the filter's sum. */
  lemma NextTerm(h: seq<int>, xs: seq<int>, m: nat, c: nat, j: nat)
    requires |h| == 2 * c + 1 && j <= c
    ensures var k, q := EveryOther(h), EvenTaps(ExactLane(xs), m, c + 1);
            Dot(k, q, 0, 0) == 0 && Dot(k, q, 0, j + 1) == Dot(k, q, 0, j) + h[2 * j] * ExactLaneAt(xs, 2 * (m - j))
  {
    hide ExactLaneAt;
  }

  /** With c the middle: the even taps so far, and the one in the middle once it has come. */
  lemma {:induction false} PartialConvolution(h: seq<int>, xs: seq<int>, m: nat, c: nat, j: nat)
    requires IsHalfBand(h) && |h| == 2 * c + 1 && 2 * m < |xs| && j <= c
    ensures Convolved(h, xs, m, 2 * j).0 == Dot(EveryOther(h), EvenTaps(ExactLane(xs), m, c + 1), 0, j)
    ensures Convolved(h, xs, m, 2 * j).1 == if 2 * j > c then 16384 * MixedAt(xs, 2 * m - c).1 else 0
  {
    hide *;
    if j > 0 {
      PartialConvolution(h, xs, m, c, j - 1);
      NextTwoTaps(h, xs, m, j - 1);
      NextTerm(h, xs, m, c, j - 1);
      OddTapOf(h, c, j - 1);
    } else {
      NothingYet(h, xs, m);
      NextTerm(h, xs, m, c, 0);
    }
  }

  lemma NothingYet(h: seq<int>, xs: seq<int>, m: nat)
    requires 2 * m < |xs|
    ensures Convolved(h, xs, m, 0) == (0, 0)
  {
  }

  lemma OddTapOf(h: seq<int>, c: nat, j: nat)
    requires IsHalfBand(h) && |h| == 2 * c + 1 && j < c
    ensures c % 2 == 1 && h[2 * j + 1] == if 2 * j + 1 == c then 16384 else 0
  {
  }

  /** The two lanes, decimated by two, are the complex convolution with all the taps: filter
      output and delayed sample are its parts in units of 2^15, rounded down. */
  lemma LanesAreConvolution(h: seq<int>, xs: seq<int>, m: nat)
    requires IsHalfBand(h) && NoWrap(EveryOther(h), xs) && 2 * m < |xs|
    ensures var z, len := Convolved(h, xs, m, |h|), |h| / 2 + 1;
            && FilterOutput(EveryOther(h), EvenTaps(Lane(xs), m, len)) == z.0 / 0x8000
            && Lane(xs)(2 * (m - len / 2) + 1) == z.1 / 0x8000
  {
    hide *;
    var c := MiddleOf(h);
    NoWrapIsExact(EveryOther(h), xs, m);
    PartialConvolution(h, xs, m, c, c);
    LastTap(h, xs, m, c);
    NextTerm(h, xs, m, c, c);
    MiddleSample(xs, m, c);
    Shifted(Dot(EveryOther(h), EvenTaps(ExactLane(xs), m, c + 1), 0, c + 1));
    HalfOfHalf(MixedAt(xs, 2 * m - c).1);
  }

  lemma MiddleOf(h: seq<int>) returns (c: nat)
    requires IsHalfBand(h)
    ensures |h| == 2 * c + 1 && c == |h| / 2 && c % 2 == 1
  {
    c := |h| / 2;
  }

  lemma MiddleSample(xs: seq<int>, m: nat, c: nat)
    requires c % 2 == 1 && 2 * m < |xs|
    ensures MixedAt(xs, 2 * m - c).1 / 2 == ExactLane(xs)(2 * (m - (c + 1) / 2) + 1)
  {
    MixedOdd(xs, m - (c + 1) / 2);
    assert 2 * (m - (c + 1) / 2) + 1 == 2 * m - c;
    hide MixedAt, ExactLaneAt;
  }

  lemma Shifted(x: int)
    ensures Shift15(x) == x / 0x8000
  {
  }

  lemma HalfOfHalf(v: int)
    ensures 16384 * v / 0x8000 == v / 2
  {
  }

  /** So the blocks of a stream hold the values of the convolution, one after the other. */
  lemma ConvolutionDelivered(h: seq<int>, xs: seq<int>, m: nat, y: seq<int>, t: nat)
    requires IsHalfBand(h) && NoWrap(EveryOther(h), xs) && |xs| == 2 * m + |y| && 2 * t < |y|
    requires Delivers(Filter(EveryOther(h)), Lane(xs), m, |h| / 2 + 1, (|h| / 2 + 1) / 2, y)
    ensures |y| % 2 == 0
    ensures var z := Convolved(h, xs, m + t, |h|); y[2 * t] == z.0 / 0x8000 && y[2 * t + 1] == z.1 / 0x8000
  {
    hide NoWrap, Convolved, FilterOutput, Lane;
    LanesAreConvolution(h, xs, m + t);
    assert OutputPair(y, t).0 == Filter(EveryOther(h))(EvenTaps(Lane(xs), m + t, |h| / 2 + 1));
  }

  lemma DefaultHalfBand()
    ensures IsHalfBand(HB_KERNEL_INT16)
  {
    var h := HB_KERNEL_INT16;
    forall k | 0 <= k < |h| && k % 2 == 1 && k != |h| / 2 ensures h[k] == 0 {
      assert k < 23 ==> h[k] == LOWER_HALF[k];
      assert k > 23 ==> h[k] == UPPER_HALF[k - 24];
    }
  }

  // -------------------------------------------------- amplitudes up to 16383

  const LIMIT := 16383

  lemma {:induction false} InvariantHolds(xs: seq<int>, n: nat, bound: nat)
    requires n <= |xs| && Bounded(xs, bound)
    ensures DcInvariant(StateAfter(true, xs, n), bound)
  {
    if n > 0 {
      InvariantHolds(xs, n - 1, bound);
      StateStep(true, xs, n - 1);
      hide DcExact, StateAfter, DcInvariant;
      DcInvariantKept(StateAfter(true, xs, n - 1), xs[n - 1], bound);
    }
  }

  /** However long the stream, the sum of the blocker's outputs stays within a bound that
      depends on the amplitude alone. */
  lemma AccumulatedOutput(xs: seq<int>, bound: nat)
    requires Bounded(xs, bound)
    ensures -(96968 * bound + 0x7fff) <= 668 * SumY(QUIET, xs) <= 96968 * bound + 0x7fff
  {
    Conservation(QUIET, xs);
    InvariantHolds(xs, |xs|, bound);
    assert xs[..|xs|] == xs;
    hide SumY;
    assert StateAfter(true, xs, |xs|) == DcRun(true, QUIET, xs);
  }

  lemma LanesFit(xs: seq<int>)
    requires Bounded(xs, LIMIT)
    ensures LaneFits(xs)
  {
    forall n | 0 <= n < |xs| ensures SampleFits(xs, n) {
      InvariantHolds(xs, n, LIMIT);
      InvariantHolds(xs, n + 1, LIMIT);
      hide StateAfter, DcFits, DcInvariant;
      DcInvariantKept(StateAfter(true, xs, n), xs[n], LIMIT);
      DcInvariantKept(StateAfter(true, xs, n + 1), 0, LIMIT);
    }
  }

  /** Input and output of the blocker at sample i, both zero before the start. */
  function InAt(xs: seq<int>, i: int): int
    requires i < |xs|
  {
    StateAfter(true, xs, i + 1).x
  }

  lemma WithinLimit(xs: seq<int>, i: int)
    requires Bounded(xs, LIMIT) && i < |xs|
    ensures -LIMIT <= InAt(xs, i) <= LIMIT && -2 * LIMIT <= OutAt(xs, i) <= 2 * LIMIT
  {
    if i >= 0 {
      InvariantHolds(xs, i + 1, LIMIT);
      hide StateAfter;
      DcInvariantKept(StateAfter(true, xs, i + 1), 0, LIMIT);
    }
  }

  /** What the blocker adds to its input changes slowly. */
  lemma {:induction false} SlowDrift(xs: seq<int>, a: int, b: int)
    requires Bounded(xs, LIMIT) && b <= a < |xs|
    ensures var change := (OutAt(xs, a) - InAt(xs, a)) - (OutAt(xs, b) - InAt(xs, b));
            -669 * (a - b) <= change <= 669 * (a - b)
    decreases a - b
  {
    if b < a {
      SlowDrift(xs, a - 1, b);
      if a >= 0 {
        InvariantHolds(xs, a, LIMIT);
        StateStep(true, xs, a);
        hide StateAfter, DcExact;
        DcInvariantKept(StateAfter(true, xs, a), xs[a], LIMIT);
      }
    }
  }

  lemma EvenLaneValue(xs: seq<int>, i: int)
    requires i < |xs| && i % 2 == 0
    ensures ExactLaneAt(xs, i) == if i % 4 == 0 then -OutAt(xs, i) else OutAt(xs, i)
  {
    hide ExactRotated, StateAfter;
    if i >= 0 {
      EvenRotated(OutAt(xs, i), i);
    } else {
      BeforeStart(xs, i + 1);
    }
  }

  lemma EvenRotated(v: int, p: nat)
    requires p % 2 == 0
    ensures ExactRotated(v, p) == if p % 4 == 0 then -v else v
  {
  }

  lemma BeforeStart(xs: seq<int>, n: int)
    requires n <= 0
    ensures StateAfter(true, xs, n).y == 0
  {
  }

  /** Two samples under the same folded tap have opposite signs after the oscillator, so
      only their difference counts. */
  lemma PairBound(xs: seq<int>, m: nat, j: nat)
    requires Bounded(xs, LIMIT) && 2 * m < |xs| && j < 12
    ensures var pair := ExactLaneAt(xs, 2 * (m - j)) + ExactLaneAt(xs, 2 * (m - (23 - j)));
            -PairLimit(j) <= pair <= PairLimit(j)
  {
    hide ExactLaneAt, OutAt, InAt, Bounded;
    var a, b := PairPlaces(m, j);
    EvenLaneValue(xs, a);
    EvenLaneValue(xs, b);
    WithinLimit(xs, a);
    WithinLimit(xs, b);
    SlowDrift(xs, a, b);
  }

  lemma PairPlaces(m: nat, j: nat) returns (a: int, b: int)
    requires j < 12
    ensures a == 2 * (m - j) && b == 2 * (m - (23 - j)) && a - b == 46 - 4 * j
    ensures a % 2 == 0 && b % 2 == 0 && (a % 4 == 0 <==> b % 4 != 0)
  {
    a, b := 2 * (m - j), 2 * (m - (23 - j));
  }

  function PairLimit(j: nat): int
    requires j < 12
  {
    2 * LIMIT + 669 * (46 - 4 * j)
  }

  function Abs(x: int): int {
    if x < 0 then -x else x
  }

  /** Bound on what the folded taps j and 23 - j contribute. */
  function Weight(k: seq<int>, j: nat): int
    requires |k| == 24 && j < 12
  {
    Abs(k[j]) * PairLimit(j)
  }

  /** Bound on the part of the sum between the folded taps j and 23 - j. */
  function InnerLimit(k: seq<int>, j: nat): int
    requires |k| == 24 && j <= 12
    decreases 12 - j
  {
    if j == 12 then 0 else Weight(k, j) + InnerLimit(k, j + 1)
  }

  lemma ScaledBound(k: int, v: int, limit: int)
    requires -limit <= v <= limit
    ensures -(Abs(k) * limit) <= k * v <= Abs(k) * limit
  {
    if k >= 0 {
      MulMono(v, limit, k);
      MulMono(-limit, v, k);
    } else {
      MulMono(v, limit, -k);
      MulMono(-limit, v, -k);
      assert (-k) * v == -(k * v);
    }
  }

  lemma {:induction false} DotHead(k: seq<int>, q: seq<int>, lo: nat, hi: nat)
    requires lo < hi <= |k| && hi <= |q|
    ensures Dot(k, q, lo, hi) == Product(k, q, lo) + Dot(k, q, lo + 1, hi)
    decreases hi - lo
  {
    hide Product;
    if lo + 1 < hi {
      DotHead(k, q, lo, hi - 1);
    }
  }

  lemma {:induction false} FoldedBound(k: seq<int>, xs: seq<int>, m: nat, q: seq<int>, j: nat)
    requires Bounded(xs, LIMIT) && 2 * m < |xs| && j <= 12
    requires |k| == 24 && IsSymmetric(k) && q == EvenTaps(ExactLane(xs), m, 24)
    ensures -InnerLimit(k, j) <= Dot(k, q, j, 24 - j) <= InnerLimit(k, j)
    decreases 12 - j
  {
    if j < 12 {
      FoldedBound(k, xs, m, q, j + 1);
      WeightBound(k, xs, m, q, j);
      hide *;
      PeelBoth(k, q, j);
      InnerLimitStep(k, j);
    }
  }

  lemma PeelBoth(k: seq<int>, q: seq<int>, j: nat)
    requires j < 12 && |k| == |q| == 24
    ensures Dot(k, q, j, 24 - j) == Dot(k, q, j + 1, 24 - (j + 1)) + (Product(k, q, j) + Product(k, q, 23 - j))
  {
    DotHead(k, q, j, 23 - j);
    hide Product;
  }

  lemma InnerLimitStep(k: seq<int>, j: nat)
    requires |k| == 24 && j < 12
    ensures InnerLimit(k, j) == Weight(k, j) + InnerLimit(k, j + 1)
  {
    hide Weight;
  }

  lemma WeightBound(k: seq<int>, xs: seq<int>, m: nat, q: seq<int>, j: nat)
    requires Bounded(xs, LIMIT) && 2 * m < |xs| && j < 12
    requires |k| == 24 && IsSymmetric(k) && q == EvenTaps(ExactLane(xs), m, 24)
    ensures -Weight(k, j) <= Product(k, q, j) + Product(k, q, 23 - j) <= Weight(k, j)
  {
    var pair := ExactLaneAt(xs, 2 * (m - j)) + ExactLaneAt(xs, 2 * (m - (23 - j)));
    PairBound(xs, m, j);
    TwoProducts(k, xs, m, q, j);
    ScaledBound(k[j], pair, PairLimit(j));
    hide ExactLaneAt, PairLimit, Abs, Product, EvenTaps, IsSymmetric;
  }

  lemma TwoProducts(k: seq<int>, xs: seq<int>, m: nat, q: seq<int>, j: nat)
    requires j < 12 && |k| == 24 && IsSymmetric(k) && q == EvenTaps(ExactLane(xs), m, 24)
    ensures Product(k, q, j) + Product(k, q, 23 - j)
         == k[j] * (ExactLaneAt(xs, 2 * (m - j)) + ExactLaneAt(xs, 2 * (m - (23 - j))))
  {
    hide ExactLaneAt;
    var a, b := ExactLaneAt(xs, 2 * (m - j)), ExactLaneAt(xs, 2 * (m - (23 - j)));
    assert k[23 - j] == k[j];
    assert k[j] * a + k[j] * b == k[j] * (a + b);
  }

  function AbsSum(k: seq<int>, n: nat): int
    requires n <= |k|
  {
    if n == 0 then 0 else AbsSum(k, n - 1) + Abs(k[n - 1])
  }

  lemma {:induction false} AbsSumGrows(k: seq<int>, n: nat)
    requires n <= |k|
    ensures AbsSum(k, n) <= AbsSum(k, |k|)
    decreases |k| - n
  {
    if n < |k| {
      AbsSumGrows(k, n + 1);
    }
  }

  lemma DefaultTaps()
    ensures |EVEN_TAPS| == 24 && IsSymmetric(EVEN_TAPS)
    ensures forall j :: 0 <= j < 24 ==> Abs(EVEN_TAPS[j]) <= 10389
  {
  }

  lemma DefaultInnerLimit()
    ensures |EVEN_TAPS| == 24 && InnerLimit(EVEN_TAPS, 0) < 0x4000_0000
  {
    var k := EVEN_TAPS;
    assert InnerLimit(k, 11) == 354306456;
    assert InnerLimit(k, 10) == 477629796;
    assert InnerLimit(k, 9) == 552004356;
    assert InnerLimit(k, 8) == 603405396;
    assert InnerLimit(k, 7) == 640551228;
    assert InnerLimit(k, 6) == 667664592;
    assert InnerLimit(k, 5) == 687176832;
    assert InnerLimit(k, 4) == 700861356;
    assert InnerLimit(k, 3) == 710076348;
    assert InnerLimit(k, 2) == 715895148;
    assert InnerLimit(k, 1) == 719303532;
    assert InnerLimit(k, 0) == 721400352;
  }

  lemma DefaultAbsSum()
    ensures |EVEN_TAPS| == 24 && AbsSum(EVEN_TAPS, 24) == 38500
  {
    var k := EVEN_TAPS;
    assert AbsSum(k, 1) == 33;
    assert AbsSum(k, 2) == 89;
    assert AbsSum(k, 3) == 189;
    assert AbsSum(k, 4) == 355;
    assert AbsSum(k, 5) == 614;
    assert AbsSum(k, 6) == 1003;
    assert AbsSum(k, 7) == 1574;
    assert AbsSum(k, 8) == 2403;
    assert AbsSum(k, 9) == 3623;
    assert AbsSum(k, 10) == 5508;
    assert AbsSum(k, 11) == 8861;
    assert AbsSum(k, 12) == 19250;
    assert AbsSum(k, 13) == 29639;
    assert AbsSum(k, 14) == 32992;
    assert AbsSum(k, 15) == 34877;
    assert AbsSum(k, 16) == 36097;
    assert AbsSum(k, 17) == 36926;
    assert AbsSum(k, 18) == 37497;
    assert AbsSum(k, 19) == 37886;
    assert AbsSum(k, 20) == 38145;
    assert AbsSum(k, 21) == 38311;
    assert AbsSum(k, 22) == 38411;
    assert AbsSum(k, 23) == 38467;
    assert AbsSum(k, 24) == 38500;
  }

  lemma LaneBound(xs: seq<int>, m: nat, n: nat)
    requires Bounded(xs, LIMIT) && 2 * m < |xs| && n < 24
    ensures var q := EvenTaps(ExactLane(xs), m, 24); -2 * LIMIT <= q[n] <= 2 * LIMIT
  {
    EvenLaneValue(xs, 2 * (m - n));
    WithinLimit(xs, 2 * (m - n));
    hide OutAt, InAt;
  }

  lemma ProductBound(k: seq<int>, xs: seq<int>, m: nat, q: seq<int>, n: nat)
    requires Bounded(xs, LIMIT) && 2 * m < |xs| && n < 24
    requires |k| == 24 && q == EvenTaps(ExactLane(xs), m, 24)
    ensures -(Abs(k[n]) * (2 * LIMIT)) <= Product(k, q, n) <= Abs(k[n]) * (2 * LIMIT)
  {
    LaneBound(xs, m, n);
    ScaledBound(k[n], q[n], 2 * LIMIT);
  }

  lemma {:induction false} PrefixBound(k: seq<int>, xs: seq<int>, m: nat, q: seq<int>, n: nat)
    requires Bounded(xs, LIMIT) && 2 * m < |xs| && n <= 24
    requires |k| == 24 && q == EvenTaps(ExactLane(xs), m, 24)
    ensures -(AbsSum(k, n) * (2 * LIMIT)) <= Dot(k, q, 0, n) <= AbsSum(k, n) * (2 * LIMIT)
  {
    hide Product, EvenTaps, Abs;
    if n > 0 {
      PrefixBound(k, xs, m, q, n - 1);
      ProductBound(k, xs, m, q, n - 1);
    }
  }

  /** Any symmetric kernel of 24 even taps with these two sums is safe. */
  lemma FiltersFit(k: seq<int>, xs: seq<int>, m: nat)
    requires Bounded(xs, LIMIT) && 2 * m < |xs|
    requires |k| == 24 && IsSymmetric(k) && forall j :: 0 <= j < 24 ==> Abs(k[j]) <= 10389
    requires AbsSum(k, 24) == 38500 && InnerLimit(k, 0) < 0x4000_0000
    ensures FilterFits(k, EvenTaps(ExactLane(xs), m, 24))
  {
    var q := EvenTaps(ExactLane(xs), m, 24);
    hide Dot, Product, AbsSum, InnerLimit, EvenTaps, IsSymmetric, Abs;
    forall n | 0 <= n <= 24 ensures InInt32(Dot(k, q, 0, n)) {
      PrefixBound(k, xs, m, q, n);
      AbsSumGrows(k, n);
    }
    forall n | 0 <= n < 24 ensures InInt32(Product(k, q, n)) {
      ProductBound(k, xs, m, q, n);
    }
    FoldedBound(k, xs, m, q, 0);
  }

  /** With the default kernel nothing ever wraps, on no stream of any length, exactly when
      the samples stay within 16383. */
  lemma NoWrapThreshold(bound: nat)
    ensures (forall xs: seq<int> :: Bounded(xs, bound) ==> NoWrap(EVEN_TAPS, xs)) <==> bound <= LIMIT
  {
    if bound <= LIMIT {
      DefaultTaps();
      DefaultInnerLimit();
      DefaultAbsSum();
      hide FilterFits, LaneFits, InnerLimit, AbsSum, IsSymmetric, EvenTaps;
      forall xs: seq<int> | Bounded(xs, bound) ensures NoWrap(EVEN_TAPS, xs) {
        assert Bounded(xs, LIMIT);
        LanesFit(xs);
        forall m: nat | 2 * m < |xs| ensures FilterFits(EVEN_TAPS, EvenTaps(ExactLane(xs), m, 24)) {
          FiltersFit(EVEN_TAPS, xs, m);
        }
      }
    } else {
      FullSwingWraps();
      assert Bounded(FULL_SWING, bound);
    }
  }

  const FULL_SWING: seq<int> := [-16384, 16384, 0, 0]

  /** One step from -16384 to 16384 is too much for the difference of two samples. */
  lemma FullSwingWraps()
    ensures !NoWrap(EVEN_TAPS, FULL_SWING)
  {
    StateStep(true, FULL_SWING, 0);
    assert FULL_SWING[1] == 16384;
    assert !SampleFits(FULL_SWING, 1);
  }
}
