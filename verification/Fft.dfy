/** The in-place radix-2 transform of the IQ balancer. */
module Fft {
  import opened Powers
  import opened ComplexNumbers

  // ---------------------------------------------------------------- reference

  /** sum of x[t] * w^(t*k) for from <= t < |x|. */
  ghost function DftFrom(x: seq<Complex>, w: Complex, k: nat, from: nat): Complex
    requires from <= |x|
    decreases |x| - from
  {
    if from == |x| then ZERO
    else Add(Mul(x[from], Pow(w, from * k)), DftFrom(x, w, k, from + 1))
  }

  /** Bin k of the discrete Fourier transform of x, for a root of unity w of order |x|. */
  ghost function Dft(x: seq<Complex>, w: Complex, k: nat): Complex {
    DftFrom(x, w, k, 0)
  }

  /** roots[l] stands for cos(pi/2^(l-1)) - i*sin(pi/2^(l-1)), the value the code asks
      of the mathematical library for stage l; all that is used of it is the half-angle
      relation. */
  ghost predicate AreTwiddles(roots: seq<Complex>, stages: nat) {
    && |roots| > stages
    && roots[0] == ONE
    && (stages >= 1 ==> roots[1] == Neg(ONE))
    && forall l :: 2 <= l <= stages ==> Mul(roots[l], roots[l]) == roots[l - 1]
  }

  // ------------------------------------------------------ even and odd halves

  function Evens(x: seq<Complex>): (e: seq<Complex>)
    ensures |e| == |x| / 2
  {
    seq(|x| / 2, (i: nat) requires i < |x| / 2 => x[2 * i])
  }

  function Odds(x: seq<Complex>): (o: seq<Complex>)
    ensures |o| == |x| / 2
  {
    seq(|x| / 2, (i: nat) requires i < |x| / 2 => x[2 * i + 1])
  }

  /** The polynomial with coefficients x at z, by Horner's rule. */
  ghost function Horner(x: seq<Complex>, z: Complex): Complex {
    if |x| == 0 then ZERO else Add(x[0], Mul(z, Horner(x[1..], z)))
  }

  lemma {:induction false} DftIsHorner(x: seq<Complex>, w: Complex, k: nat, from: nat)
    requires from <= |x|
    ensures DftFrom(x, w, k, from) == Mul(Pow(w, from * k), Horner(x[from..], Pow(w, k)))
    decreases |x| - from
  {
    if from < |x| {
      var z, p := Pow(w, k), Pow(w, from * k);
      var rest := Horner(x[from + 1..], z);
      DftIsHorner(x, w, k, from + 1);
      assert Pow(w, (from + 1) * k) == Mul(p, z) by {
        assert (from + 1) * k == from * k + k;
        PowAdd(w, from * k, k);
      }
      assert x[from..][1..] == x[from + 1..];
      FactorOut(p, x[from], z, rest);
    }
  }

  lemma FactorOut(p: Complex, a: Complex, z: Complex, rest: Complex)
    ensures Add(Mul(a, p), Mul(Mul(p, z), rest)) == Mul(p, Add(a, Mul(z, rest)))
  {
    MulComm(a, p);
    MulAssoc(p, z, rest);
    MulAdd(p, a, Mul(z, rest));
  }

  lemma {:induction false} HornerSplit(x: seq<Complex>, z: Complex)
    requires |x| % 2 == 0
    ensures Horner(x, z) == Add(Horner(Evens(x), Mul(z, z)), Mul(z, Horner(Odds(x), Mul(z, z))))
    decreases |x|
  {
    if |x| == 0 {
    } else {
      var rest := x[2..];
      HornerSplit(rest, z);
      assert Evens(x)[1..] == Evens(rest);
      assert Odds(x)[1..] == Odds(rest);
      assert x[1..][1..] == rest;
      var e, o := Horner(Evens(rest), Mul(z, z)), Horner(Odds(rest), Mul(z, z));
      assert Horner(x, z) == Add(x[0], Mul(z, Horner(x[1..], z)));
      assert Horner(x[1..], z) == Add(x[1], Mul(z, Horner(rest, z)));
      SplitStep(x[0], x[1], z, e, o);
    }
  }

  lemma SplitStep(a: Complex, b: Complex, z: Complex, e: Complex, o: Complex)
    ensures Add(a, Mul(z, Add(b, Mul(z, Add(e, Mul(z, o))))))
         == Add(Add(a, Mul(Mul(z, z), e)), Mul(z, Add(b, Mul(Mul(z, z), o))))
  {
    var zz := Mul(z, z);
    MulAdd(z, e, Mul(z, o));
    MulAssoc(z, z, o);
    MulAdd(z, b, Add(Mul(z, e), Mul(zz, o)));
    MulAdd(z, Mul(z, e), Mul(zz, o));
    MulAssoc(z, z, e);
    MulAdd(z, b, Mul(zz, o));
  }

  // ------------------------------------------------- splitting the transform

  lemma {:induction false} HalfTurn(roots: seq<Complex>, stages: nat, l: nat)
    requires AreTwiddles(roots, stages) && 1 <= l <= stages
    ensures Pow(roots[l], Pow2(l - 1)) == Neg(ONE)
  {
    if l == 1 {
      assert Pow(roots[1], 1) == Mul(roots[1], Pow(roots[1], 0));
    } else {
      HalfTurn(roots, stages, l - 1);
      PowSquare(roots[l], Pow2(l - 2));
    }
  }

  /** A transform of length 2h is two transforms of length h, combined. */
  lemma DftSplit(x: seq<Complex>, roots: seq<Complex>, m: nat, k: nat)
    requires m >= 1 && |x| == Pow2(m) && AreTwiddles(roots, m) && k < Pow2(m - 1)
    ensures var w, w2 := roots[m], roots[m - 1];
            var e, o := Dft(Evens(x), w2, k), Dft(Odds(x), w2, k);
            && Dft(x, w, k) == Add(e, Mul(Pow(w, k), o))
            && Dft(x, w, k + Pow2(m - 1)) == Sub(e, Mul(Pow(w, k), o))
  {
    hide *;
    TwiddleCount(roots, m);
    var h, w, w2 := Pow2(m - 1), roots[m], roots[m - 1];
    var z := Pow(w, k);
    EvenLength(x, m);
    DftAt(x, w, k);
    DftAt(x, w, k + h);
    DftAt(Evens(x), w2, k);
    DftAt(Odds(x), w2, k);
    HornerSplit(x, z);
    HornerSplit(x, Pow(w, k + h));
    HalfTurn(roots, m, m);
    PowAdd(w, k, h);
    MulNegOne(z);
    MulNeg(z, z);
    MulNeg(z, Horner(Odds(x), Mul(z, z)));
    SquaredTwiddle(roots, m, k);
    AddNeg(Horner(Evens(x), Mul(z, z)), Mul(z, Horner(Odds(x), Mul(z, z))));
  }

  lemma TwiddleCount(roots: seq<Complex>, m: nat)
    requires AreTwiddles(roots, m)
    ensures |roots| > m
  {
  }

  lemma EvenLength(x: seq<Complex>, m: nat)
    requires m >= 1 && |x| == Pow2(m)
    ensures |x| % 2 == 0
  {
  }

  lemma AddNeg(a: Complex, b: Complex)
    ensures Add(a, Neg(b)) == Sub(a, b)
  {
  }

  lemma SquaredTwiddle(roots: seq<Complex>, m: nat, k: nat)
    requires m >= 1 && AreTwiddles(roots, m) && k < Pow2(m - 1)
    ensures Pow(roots[m - 1], k) == Mul(Pow(roots[m], k), Pow(roots[m], k))
  {
    if m >= 2 {
      PowSquare(roots[m], k);
    }
  }

  lemma MulNegOne(z: Complex)
    ensures Mul(z, Neg(ONE)) == Neg(z)
  {
  }

  lemma MulNeg(z: Complex, a: Complex)
    ensures Mul(Neg(z), a) == Neg(Mul(z, a))
    ensures Mul(Neg(z), Neg(a)) == Mul(z, a)
  {
  }

  lemma DftAt(x: seq<Complex>, w: Complex, k: nat)
    ensures Dft(x, w, k) == Horner(x, Pow(w, k))
  {
    DftIsHorner(x, w, k, 0);
    assert x[0..] == x;
    assert 0 * k == 0;
  }

  // ------------------------------------------------------------ bit reversal

  /** The m low bits of i in reverse order. */
  function Rev(m: nat, i: nat): (r: nat)
    requires i < Pow2(m)
    ensures r < Pow2(m)
  {
    if m == 0 then 0
    else (if i % 2 == 1 then Pow2(m - 1) else 0) + Rev(m - 1, i / 2)
  }

  /** Reversal read from the other end: the top bit of i becomes the lowest. */
  lemma {:induction false} RevTopBit(m: nat, i: nat)
    requires m >= 1 && i < Pow2(m)
    ensures var h := Pow2(m - 1);
            Rev(m, i) == if i < h then 2 * Rev(m - 1, i) else 2 * Rev(m - 1, i - h) + 1
  {
    if m >= 2 {
      var h, q := Pow2(m - 1), Pow2(m - 2);
      assert h == 2 * q;
      RevTopBit(m - 1, i / 2);
      var j := if i < h then i else i - h;
      assert j / 2 == (if i / 2 < q then i / 2 else i / 2 - q) && j % 2 == i % 2;
      assert Rev(m - 1, j) == (if j % 2 == 1 then q else 0) + Rev(m - 2, j / 2);
    }
  }

  lemma {:induction false} RevInvolutive(m: nat, i: nat)
    requires i < Pow2(m)
    ensures Rev(m, Rev(m, i)) == i
  {
    if m >= 1 {
      RevInvolutive(m - 1, i / 2);
      RevTopBit(m, Rev(m, i));
    }
  }

  lemma {:induction false} RevEnds(m: nat)
    ensures Rev(m, 0) == 0
    ensures Rev(m, Pow2(m) - 1) == Pow2(m) - 1
    ensures m >= 1 ==> Pow2(m) >= 2 && Rev(m, 1) == Pow2(m - 1)
  {
    if m >= 1 {
      RevEnds(m - 1);
      var p := Pow2(m - 1);
      assert Pow2(m) == 2 * p;
      RevStep(m, 0);
      RevStep(m, 1);
      RevStep(m, 2 * p - 1);
      OddHalf(p);
      hide Rev, Pow2;
    }
  }

  lemma RevStep(m: nat, i: nat)
    requires m >= 1 && i < Pow2(m)
    ensures i / 2 < Pow2(m - 1)
    ensures Rev(m, i) == (if i % 2 == 1 then Pow2(m - 1) else 0) + Rev(m - 1, i / 2)
  {
  }

  /** x in bit-reversed order: the even entries, reordered, then the odd ones. */
  ghost function BitReversed(x: seq<Complex>, m: nat): (y: seq<Complex>)
    requires |x| == Pow2(m)
    ensures |y| == |x|
    decreases m
  {
    if m == 0 then x else BitReversed(Evens(x), m - 1) + BitReversed(Odds(x), m - 1)
  }

  lemma {:induction false} BitReversedAt(x: seq<Complex>, m: nat, i: nat)
    requires |x| == Pow2(m) && i < Pow2(m)
    ensures BitReversed(x, m)[i] == x[Rev(m, i)]
    decreases m
  {
    if m >= 1 {
      var h := Pow2(m - 1);
      RevTopBit(m, i);
      if i < h {
        BitReversedAt(Evens(x), m - 1, i);
      } else {
        BitReversedAt(Odds(x), m - 1, i - h);
      }
    }
  }

  // ----------------------------------------------------- butterflies as values

  /** The place of position p inside its block of le entries. */
  function Offset(p: nat, le: nat): (k: nat)
    requires le >= 1
    ensures k < le && k <= p
  {
    p % le
  }

  ghost predicate InBlock(size: nat, h: nat, p: nat) {
    h >= 1 && p < size && p - Offset(p, 2 * h) + 2 * h <= size
  }

  lemma StageBlock(p: nat, l: nat, m: nat)
    requires 1 <= l <= m && p < Pow2(m)
    ensures InBlock(Pow2(m), Pow2(l - 1), p)
  {
    assert 2 * Pow2(l - 1) == Pow2(l);
    hide Pow2;
    Pow2Add(m - l, l);
    BlockFits(p, Pow2(l), Pow2(m - l));
  }

  /** What a stage with blocks of 2h entries leaves at position p. */
  ghost function Butterfly(s: seq<Complex>, h: nat, w: Complex, p: nat): Complex
    requires InBlock(|s|, h, p)
  {
    hide Offset;
    var k := Offset(p, 2 * h);
    if k < h then Add(s[p], Mul(Pow(w, k), s[p + h]))
    else Sub(s[p - h], Mul(Pow(w, k - h), s[p]))
  }

  ghost function Stage(s: seq<Complex>, m: nat, l: nat, w: Complex): (t: seq<Complex>)
    requires 1 <= l <= m && |s| == Pow2(m)
    ensures |t| == |s|
    ensures forall p {:trigger t[p]} :: 0 <= p < |s| ==>
              InBlock(|s|, Pow2(l - 1), p) && t[p] == Butterfly(s, Pow2(l - 1), w, p)
  {
    hide InBlock, Butterfly;
    forall p: nat {:trigger InBlock(|s|, Pow2(l - 1), p)} | p < |s| ensures InBlock(|s|, Pow2(l - 1), p) {
      StageBlock(p, l, m);
    }
    seq(|s|, p requires 0 <= p < |s| && InBlock(|s|, Pow2(l - 1), p) => Butterfly(s, Pow2(l - 1), w, p))
  }

  ghost function Stages(s: seq<Complex>, m: nat, roots: seq<Complex>, l: nat): (t: seq<Complex>)
    requires l <= m && |s| == Pow2(m) && |roots| > l
    ensures |t| == |s|
  {
    if l == 0 then s else Stage(Stages(s, m, roots, l - 1), m, l, roots[l])
  }

  /** Stages up to l < m work on the two halves of the buffer separately. */
  lemma {:induction false} StagesSplit(a: seq<Complex>, b: seq<Complex>, m: nat, roots: seq<Complex>, l: nat)
    requires l <= m && |a| == |b| == Pow2(m) && |roots| > l
    ensures Stages(a + b, m + 1, roots, l) == Stages(a, m, roots, l) + Stages(b, m, roots, l)
  {
    hide Stage;
    if l > 0 {
      StagesSplit(a, b, m, roots, l - 1);
      hide Stages;
      StagesSplitStep(a, b, m, roots, l);
    }
  }

  lemma StagesSplitStep(a: seq<Complex>, b: seq<Complex>, m: nat, roots: seq<Complex>, l: nat)
    requires 1 <= l <= m && |a| == |b| == Pow2(m) && |roots| > l
    requires Stages(a + b, m + 1, roots, l - 1) == Stages(a, m, roots, l - 1) + Stages(b, m, roots, l - 1)
    ensures Stages(a + b, m + 1, roots, l) == Stages(a, m, roots, l) + Stages(b, m, roots, l)
  {
    hide Stage, Stages;
    StagesStep(a, m, roots, l);
    StagesStep(b, m, roots, l);
    StagesStep(a + b, m + 1, roots, l);
    StageSplit(Stages(a, m, roots, l - 1), Stages(b, m, roots, l - 1), m, l, roots[l]);
  }

  lemma StagesStep(s: seq<Complex>, m: nat, roots: seq<Complex>, l: nat)
    requires l <= m && |s| == Pow2(m) && |roots| > l
    ensures Stages(s, m, roots, l)
         == if l == 0 then s else Stage(Stages(s, m, roots, l - 1), m, l, roots[l])
  {
    hide Stage;
  }

  lemma StageSplit(a: seq<Complex>, b: seq<Complex>, m: nat, l: nat, w: Complex)
    requires 1 <= l <= m && |a| == |b| == Pow2(m)
    ensures Stage(a + b, m + 1, l, w) == Stage(a, m, l, w) + Stage(b, m, l, w)
  {
    hide Butterfly, InBlock;
    var both, left, right := Stage(a + b, m + 1, l, w), Stage(a, m, l, w), Stage(b, m, l, w);
    Pow2Add(m - l, l);
    forall p | 0 <= p < |both| ensures both[p] == (left + right)[p] {
      StageBlock(p, l, m + 1);
      if p < |a| {
        StageBlock(p, l, m);
      } else {
        StageBlock(p - |a|, l, m);
      }
      ButterflySplit(a, b, Pow2(m - l), Pow2(l - 1), w, p);
    }
  }

  lemma ButterflySplit(a: seq<Complex>, b: seq<Complex>, q: nat, h: nat, w: Complex, p: nat)
    requires |a| == |b| == q * (2 * h) && InBlock(|a + b|, h, p)
    requires p < |a| ==> InBlock(|a|, h, p)
    requires p >= |a| ==> InBlock(|b|, h, p - |a|)
    ensures Butterfly(a + b, h, w, p)
         == if p < |a| then Butterfly(a, h, w, p) else Butterfly(b, h, w, p - |a|)
  {
    hide Mul, Add, Sub, Pow, Offset;
    if p >= |a| {
      assert Offset(p, 2 * h) == Offset(p - |a|, 2 * h) by {
        OffsetShift(p - |a|, q, 2 * h);
      }
    }
  }

  lemma OffsetShift(p: nat, q: nat, le: nat)
    requires le >= 1
    ensures Offset(p + q * le, le) == Offset(p, le)
  {
    ModShift(p, q, le);
  }

  /** All stages on the bit-reversed input give the transform. */
  lemma {:induction false} StagesComputeDft(x: seq<Complex>, m: nat, roots: seq<Complex>, k: nat)
    requires |x| == Pow2(m) && AreTwiddles(roots, m) && k < |x|
    ensures Stages(BitReversed(x, m), m, roots, m)[k] == Dft(x, roots[m], k)
    decreases m
  {
    hide Mul, Add, Sub, Pow, Stage, Dft;
    if m == 0 {
      DftOfOne(x, roots[0]);
    } else {
      hide AreTwiddles, Stages;
      var h := Pow2(m - 1);
      var e, o := BitReversed(Evens(x), m - 1), BitReversed(Odds(x), m - 1);
      var k' := if k < h then k else k - h;
      FewerTwiddles(roots, m);
      StagesComputeDft(Evens(x), m - 1, roots, k');
      StagesComputeDft(Odds(x), m - 1, roots, k');
      TopStage(e, o, m, roots);
      Combine(x, m, roots, k, Stages(e, m - 1, roots, m - 1), Stages(o, m - 1, roots, m - 1));
    }
  }

  lemma FewerTwiddles(roots: seq<Complex>, m: nat)
    requires m >= 1 && AreTwiddles(roots, m)
    ensures |roots| > m && AreTwiddles(roots, m - 1)
  {
  }

  lemma TopStage(e: seq<Complex>, o: seq<Complex>, m: nat, roots: seq<Complex>)
    requires m >= 1 && |roots| > m && |e| == |o| == Pow2(m - 1)
    ensures Stages(e + o, m, roots, m)
         == Stage(Stages(e, m - 1, roots, m - 1) + Stages(o, m - 1, roots, m - 1), m, m, roots[m])
  {
    hide Stage;
    StagesSplit(e, o, m - 1, roots, m - 1);
  }

  lemma Combine(x: seq<Complex>, m: nat, roots: seq<Complex>, k: nat, e: seq<Complex>, o: seq<Complex>)
    requires m >= 1 && |x| == Pow2(m) && AreTwiddles(roots, m) && k < |x|
    requires |e| == |o| == Pow2(m - 1)
    requires var k' := if k < Pow2(m - 1) then k else k - Pow2(m - 1);
             e[k'] == Dft(Evens(x), roots[m - 1], k') && o[k'] == Dft(Odds(x), roots[m - 1], k')
    ensures Stage(e + o, m, m, roots[m])[k] == Dft(x, roots[m], k)
  {
    hide Mul, Add, Sub, Pow, Stage, Dft;
    LastStage(e, o, m, roots[m], k);
    DftSplit(x, roots, m, if k < Pow2(m - 1) then k else k - Pow2(m - 1));
  }

  lemma LastStage(e: seq<Complex>, o: seq<Complex>, m: nat, w: Complex, k: nat)
    requires m >= 1 && |e| == |o| == Pow2(m - 1) && k < Pow2(m)
    ensures var h := Pow2(m - 1);
            Stage(e + o, m, m, w)[k] == if k < h then Add(e[k], Mul(Pow(w, k), o[k]))
                                        else Sub(e[k - h], Mul(Pow(w, k - h), o[k - h]))
  {
    hide Mul, Add, Sub, Pow, Offset;
    assert Offset(k, Pow2(m)) == k by {
      OffsetSmall(k, Pow2(m));
    }
  }

  lemma OffsetSmall(p: nat, le: nat)
    requires p < le
    ensures Offset(p, le) == p
  {
  }

  lemma DftOfOne(x: seq<Complex>, w: Complex)
    requires |x| == 1
    ensures Dft(x, w, 0) == x[0]
  {
    DftAt(x, w, 0);
  }

  // ---------------------------------------------------------- the loops in place

  /** x with every pair of mutually reversed positions below i already exchanged. */
  ghost predicate Reordered(cur: seq<Complex>, x: seq<Complex>, m: nat, i: nat)
    requires |cur| == |x| == Pow2(m)
  {
    forall t {:trigger cur[t]} :: 0 <= t < |x| ==>
      cur[t] == x[if t < i || Rev(m, t) < i then Rev(m, t) else t]
  }

  method BitReversal(buffer: array<Complex>, ghost m: nat)
    requires buffer.Length == Pow2(m)
    modifies buffer
    ensures buffer[..] == BitReversed(old(buffer[..]), m)
  {
    var nm1, nd2 := buffer.Length - 1, buffer.Length / 2;
    ghost var x := buffer[..];
    RevEnds(m);
    ReorderStart(x, m);
    var i, j := 1, nd2;
    while i < nm1
      invariant 1 <= i && (i <= nm1 || m == 0)
      invariant m > 0 ==> i < Pow2(m) && j == Rev(m, i)
      invariant Reordered(buffer[..], x, m, i)
    {
      ghost var before := buffer[..];
      if i < j {
        buffer[i], buffer[j] := buffer[j], buffer[i];
      }
      ReorderStep(before, buffer[..], x, m, i);
      j := NextReversed(m, nd2, i, j);
      i := i + 1;
    }
    ReorderDone(buffer[..], x, m, i);
  }

  lemma ReorderStart(x: seq<Complex>, m: nat)
    requires |x| == Pow2(m)
    ensures Reordered(x, x, m, 1)
  {
    RevEnds(m);
    forall t | 0 <= t < |x| && Rev(m, t) < 1 ensures t == 0 {
      RevInvolutive(m, t);
    }
  }

  lemma ReorderStep(before: seq<Complex>, after: seq<Complex>, x: seq<Complex>, m: nat, i: nat)
    requires |before| == |after| == |x| == Pow2(m) && i < |x|
    requires Reordered(before, x, m, i)
    requires var j := Rev(m, i);
             after == if i < j then before[i := before[j]][j := before[i]] else before
    ensures Reordered(after, x, m, i + 1)
  {
    hide Rev, Pow2;
    forall t: nat {:trigger after[t]} | t < |x|
      ensures after[t] == x[if t < i + 1 || Rev(m, t) < i + 1 then Rev(m, t) else t]
    {
      ReorderEntry(before, after, x, m, i, t);
    }
  }

  lemma ReorderEntry(before: seq<Complex>, after: seq<Complex>, x: seq<Complex>, m: nat, i: nat, t: nat)
    requires |before| == |after| == |x| == Pow2(m) && i < |x| && t < |x|
    requires Reordered(before, x, m, i)
    requires var j := Rev(m, i);
             after == if i < j then before[i := before[j]][j := before[i]] else before
    ensures after[t] == x[if t < i + 1 || Rev(m, t) < i + 1 then Rev(m, t) else t]
  {
    hide Rev, Pow2;
    RevInvolutive(m, i);
    RevInvolutive(m, t);
    var j := Rev(m, i);
    assert before[i] == x[if i < i || j < i then j else i];
    assert before[j] == x[if j < i || Rev(m, j) < i then Rev(m, j) else j];
    assert before[t] == x[if t < i || Rev(m, t) < i then Rev(m, t) else t];
    hide Reordered;
  }

  lemma ReorderDone(cur: seq<Complex>, x: seq<Complex>, m: nat, i: nat)
    requires |cur| == |x| == Pow2(m) && Reordered(cur, x, m, i) && i + 1 >= |x|
    ensures cur == BitReversed(x, m)
  {
    hide Rev;
    forall t | 0 <= t < |x| ensures cur[t] == BitReversed(x, m)[t] {
      BitReversedAt(x, m, t);
      RevEnds(m);
    }
  }

  /** The carry loop: one step of counting with the bits reversed. */
  method NextReversed(ghost m: nat, nd2: nat, ghost i: nat, j0: nat) returns (j: nat)
    requires m >= 1 && nd2 == Pow2(m - 1) && i + 1 < Pow2(m) && j0 == Rev(m, i)
    ensures j == Rev(m, i + 1)
  {
    j := j0;
    var k := nd2;
    ghost var p: nat, c: nat := m, i;
    while k <= j
      invariant p >= 1 && k == Pow2(p - 1) && c + 1 < Pow2(p)
      invariant j == Rev(p, c) && Rev(p, c + 1) == Rev(m, i + 1)
      decreases p
    {
      assert c % 2 == 1 && (c + 1) / 2 == c / 2 + 1;
      assert p >= 2 by {
        assert Pow2(1) == 2;
      }
      j := j - k;
      k := k / 2;
      p, c := p - 1, c / 2;
    }
    assert c % 2 == 0 && (c + 1) / 2 == c / 2;
    j := j + k;
  }

  /** Position p has been written once butterfly number k of block b is next. */
  ghost predicate Visited(p: nat, h: nat, k: nat, b: nat)
    requires h >= 1
  {
    var o := Offset(p, 2 * h);
    var c := if o < h then o else o - h;
    c < k || (c == k && p / (2 * h) < b)
  }

  ghost predicate EntryDone(cur: seq<Complex>, s: seq<Complex>, h: nat, w: Complex, k: nat, b: nat, p: nat)
    requires h >= 1 && p < |cur| == |s|
  {
    InBlock(|s|, h, p) && cur[p] == if Visited(p, h, k, b) then Butterfly(s, h, w, p) else s[p]
  }

  ghost predicate Progress(cur: seq<Complex>, s: seq<Complex>, h: nat, w: Complex, k: nat, b: nat) {
    && |cur| == |s| && h >= 1
    && forall p: nat :: p < |s| ==> EntryDone(cur, s, h, w, k, b, p)
  }

  lemma VisitedStep(p: nat, h: nat, k: nat, b: nat, i: nat)
    requires h >= 1 && k < h && i == b * (2 * h) + k
    ensures Offset(i, 2 * h) == k && Offset(i + h, 2 * h) == k + h
    ensures !Visited(i, h, k, b) && Visited(i, h, k, b + 1)
    ensures !Visited(i + h, h, k, b) && Visited(i + h, h, k, b + 1)
    ensures p != i && p != i + h ==> Visited(p, h, k, b) == Visited(p, h, k, b + 1)
  {
    DivModUnique(i, 2 * h, b, k);
    DivModUnique(i + h, 2 * h, b, k + h);
    if p / (2 * h) == b {
      assert p == (p / (2 * h)) * (2 * h) + p % (2 * h);
    }
  }

  lemma NothingVisited(s: seq<Complex>, m: nat, l: nat, w: Complex)
    requires 1 <= l <= m && |s| == Pow2(m)
    ensures Progress(s, s, Pow2(l - 1), w, 0, 0)
  {
    hide InBlock, Butterfly;
    var h := Pow2(l - 1);
    forall p: nat | p < |s| ensures EntryDone(s, s, h, w, 0, 0, p) {
      StageBlock(p, l, m);
    }
  }

  lemma AllVisited(cur: seq<Complex>, s: seq<Complex>, m: nat, l: nat, w: Complex)
    requires 1 <= l <= m && |s| == Pow2(m) && Progress(cur, s, Pow2(l - 1), w, Pow2(l - 1), 0)
    ensures cur == Stage(s, m, l, w)
  {
    hide InBlock, Butterfly, Offset;
    forall p: nat | p < |s| ensures cur[p] == Stage(s, m, l, w)[p] {
      assert EntryDone(cur, s, Pow2(l - 1), w, Pow2(l - 1), 0, p);
    }
  }

  lemma NextBlockFits(b: nat, blocks: nat, le: nat)
    requires b < blocks
    ensures b * le + le <= blocks * le
  {
    MulMono(b + 1, blocks, le);
    assert (b + 1) * le == b * le + le;
  }

  lemma LastBlock(b: nat, blocks: nat, le: nat, k: nat)
    requires b <= blocks && b * le + k < blocks * le
    ensures b < blocks && b * le + le <= blocks * le
  {
    if b < blocks {
      NextBlockFits(b, blocks, le);
    }
  }

  lemma NextPower(w: Complex, k: nat)
    ensures Mul(Pow(w, k), w) == Pow(w, k + 1)
  {
    MulComm(Pow(w, k), w);
  }

  lemma ProgressStep(before: seq<Complex>, after: seq<Complex>, s: seq<Complex>, h: nat, w: Complex,
                     k: nat, b: nat, i: nat)
    requires Progress(before, s, h, w, k, b)
    requires k < h && i == b * (2 * h) + k && i + h < |s|
    requires var t := Mul(Pow(w, k), before[i + h]);
             after == before[i + h := Sub(before[i], t)][i := Add(before[i], t)]
    ensures Progress(after, s, h, w, k, b + 1)
  {
    hide Mul, Add, Sub, Pow, Visited, Offset, InBlock;
    assert EntryDone(before, s, h, w, k, b, i) && EntryDone(before, s, h, w, k, b, i + h);
    VisitedStep(i, h, k, b, i);
    ButterflyPair(s, h, w, k, i);
    var b' := b + 1;
    forall p: nat | p < |s| ensures EntryDone(after, s, h, w, k, b', p) {
      assert EntryDone(before, s, h, w, k, b, p);
      VisitedStep(p, h, k, b, i);
    }
  }

  lemma ButterflyPair(s: seq<Complex>, h: nat, w: Complex, k: nat, i: nat)
    requires InBlock(|s|, h, i) && InBlock(|s|, h, i + h)
    requires k < h && Offset(i, 2 * h) == k && Offset(i + h, 2 * h) == k + h
    ensures var t := Mul(Pow(w, k), s[i + h]);
            Butterfly(s, h, w, i) == Add(s[i], t) && Butterfly(s, h, w, i + h) == Sub(s[i], t)
  {
    hide Mul, Add, Sub, Pow, Offset;
  }

  lemma RowDone(cur: seq<Complex>, s: seq<Complex>, h: nat, w: Complex, k: nat, blocks: nat)
    requires Progress(cur, s, h, w, k, blocks) && |s| == blocks * (2 * h)
    ensures Progress(cur, s, h, w, k + 1, 0)
  {
    var k' := k + 1;
    forall p: nat | p < |s| ensures EntryDone(cur, s, h, w, k', 0, p) {
      assert EntryDone(cur, s, h, w, k, blocks, p);
      RowVisited(p, h, k, blocks);
      hide InBlock, Butterfly, Visited;
    }
  }

  lemma RowVisited(p: nat, h: nat, k: nat, blocks: nat)
    requires h >= 1 && p < blocks * (2 * h)
    ensures Visited(p, h, k, blocks) == Visited(p, h, k + 1, 0)
  {
    BlockFits(p, 2 * h, blocks);
    hide Offset;
  }

  method ButterflyStage(buffer: array<Complex>, ghost m: nat, l: nat, r: Complex)
    requires 1 <= l <= m && buffer.Length == Pow2(m)
    modifies buffer
    ensures buffer[..] == Stage(old(buffer[..]), m, l, r)
  {
    hide Butterfly, InBlock, Visited, Progress, Stage, Add, Sub;
    var nm1 := buffer.Length - 1;
    var le := Pow2(l);
    var le2 := le / 2;
    ghost var s := buffer[..];
    ghost var blocks := Pow2(m - l);
    Pow2Add(m - l, l);
    hide Pow2;
    NothingVisited(s, m, l, r);
    var u := ONE;
    assert u == Pow(r, 0);
    hide Pow, Mul;
    var j := 1;
    while j <= le2
      invariant 1 <= j <= le2 + 1
      invariant u == Pow(r, j - 1)
      invariant Progress(buffer[..], s, le2, r, j - 1, 0)
    {
      var jm1 := j - 1;
      var i := jm1;
      ghost var b := 0;
      while i <= nm1
        invariant b <= blocks && i == b * le + jm1
        invariant Progress(buffer[..], s, le2, r, jm1, b)
        decreases blocks - b
      {
        LastBlock(b, blocks, le, jm1);
        var ip := i + le2;
        var t := Mul(u, buffer[ip]);
        ghost var before := buffer[..];
        buffer[ip] := Sub(buffer[i], t);
        buffer[i] := Add(buffer[i], t);
        ProgressStep(before, buffer[..], s, le2, r, jm1, b, i);
        assert (b + 1) * le == b * le + le;
        i := i + le;
        b := b + 1;
      }
      if b < blocks {
        NextBlockFits(b, blocks, le);
      }
      RowDone(buffer[..], s, le2, r, jm1, blocks);
      NextPower(r, jm1);
      u := Mul(u, r);
      j := j + 1;
    }
    AllVisited(buffer[..], s, m, l, r);
  }

  /** Entry p once the first i entries have changed places with their partners. */
  ghost function HalfSwapped(x: seq<Complex>, h: nat, i: nat, p: nat): Complex
    requires i <= h && 2 * h <= |x| && p < |x|
  {
    x[if p < i then h + p else if h <= p < h + i then p - h else p]
  }

  method SwapHalves(buffer: array<Complex>)
    requires buffer.Length == 1 || buffer.Length % 2 == 0
    modifies buffer
    ensures buffer[..] == old(buffer[buffer.Length / 2..]) + old(buffer[..buffer.Length / 2])
  {
    var nd2 := buffer.Length / 2;
    ghost var x := buffer[..];
    var i := 0;
    while i < nd2
      invariant 0 <= i <= nd2
      invariant forall p :: 0 <= p < buffer.Length ==> buffer[p] == HalfSwapped(x, nd2, i, p)
    {
      var j := nd2 + i;
      var t := buffer[i];
      buffer[i] := buffer[j];
      buffer[j] := t;
      i := i + 1;
    }
    assert forall p :: 0 <= p < buffer.Length ==> buffer[p] == (x[nd2..] + x[..nd2])[p];
  }

  /** The bin that the half swap moves to position k. */
  ghost function CentredBin(k: nat, n: nat): (bin: nat)
    requires k < n
    ensures bin < n
  {
    (k + n / 2) % n
  }

  method StageCount(length: nat) returns (m: nat)
    ensures m == Log2(length)
  {
    m := 0;
    var i := length;
    while i > 1
      invariant m + Log2(i) == Log2(length)
    {
      m := m + 1;
      i := i / 2;
    }
  }

  /** Bin k of the transform ends up at position k + n/2 (mod n): zero frequency in the
      middle. The stage roots are what the calls of cos and sin return. */
  method Fft(buffer: array<Complex>, roots: seq<Complex>)
    requires IsPowerOfTwo(buffer.Length)
    requires AreTwiddles(roots, Log2(buffer.Length))
    modifies buffer
    ensures forall k :: 0 <= k < buffer.Length ==>
              buffer[k] == Dft(old(buffer[..]), roots[Log2(buffer.Length)], CentredBin(k, buffer.Length))
  {
    ghost var x := buffer[..];
    LengthIsPower(buffer.Length);
    var m := StageCount(buffer.Length);
    hide Log2, IsPowerOfTwo;
    BitReversal(buffer, m);
    ghost var y := BitReversed(x, m);
    hide Dft, BitReversed, Stage, AreTwiddles;
    var l := 1;
    while l <= m
      invariant 1 <= l <= m + 1
      invariant buffer[..] == Stages(y, m, roots, l - 1)
    {
      ButterflyStage(buffer, m, l, roots[l]);
      l := l + 1;
    }
    ghost var z := buffer[..];
    SwapHalves(buffer);
    forall k | 0 <= k < buffer.Length ensures buffer[k] == Dft(x, roots[m], CentredBin(k, buffer.Length)) {
      CentredDft(x, m, roots, z, k);
    }
  }

  lemma CentredDft(x: seq<Complex>, m: nat, roots: seq<Complex>, z: seq<Complex>, k: nat)
    requires |x| == Pow2(m) && AreTwiddles(roots, m) && k < |x|
    requires z == Stages(BitReversed(x, m), m, roots, m)
    ensures (z[|x| / 2..] + z[..|x| / 2])[k] == Dft(x, roots[m], CentredBin(k, |x|))
  {
    var bin := CentredBin(k, |x|);
    StagesComputeDft(x, m, roots, bin);
    SwappedAt(z, m, k);
  }

  lemma SwappedAt(z: seq<Complex>, m: nat, k: nat)
    requires |z| == Pow2(m) && k < |z|
    ensures (z[|z| / 2..] + z[..|z| / 2])[k] == z[CentredBin(k, |z|)]
  {
    CentredBinAt(k, m);
    hide *;
  }

  lemma CentredBinAt(k: nat, m: nat)
    requires k < Pow2(m)
    ensures var n := Pow2(m); CentredBin(k, n) == if k < n - n / 2 then k + n / 2 else k - (n - n / 2)
  {
    var n := Pow2(m);
    var far := n - n / 2;
    if k < far {
      DivModUnique(k + n / 2, n, 0, k + n / 2);
    } else {
      DivModUnique(k + n / 2, n, 1, k - far);
    }
  }
}
