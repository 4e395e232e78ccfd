/** The 16-bit IQ converter, with every C conversion written out. */
module ConverterInt16 {
  import opened Queues

  const SIZE_FACTOR := 16
  const POLE := 32100

  // --------------------------------------------------------- machine integers

  predicate InInt16(x: int) {
    -0x8000 <= x < 0x8000
  }

  predicate InInt32(x: int) {
    -0x8000_0000 <= x < 0x8000_0000
  }

  /** Conversion to a 16-bit integer: the representable value equal modulo 2^16. */
  function ToInt16(x: int): (y: int)
    ensures InInt16(y) && (InInt16(x) ==> y == x)
  {
    (x + 0x8000) % 0x1_0000 - 0x8000
  }

  function ToInt32(x: int): (y: int)
    ensures InInt32(y) && (InInt32(x) ==> y == x)
  {
    (x + 0x8000_0000) % 0x1_0000_0000 - 0x8000_0000
  }

  /** The arithmetic right shift by 15; / rounds down. */
  /** Values outside the range keep their low bits. */
  lemma WrapsAround(x: int)
    ensures (x - ToInt16(x)) % 0x1_0000 == 0 && (x - ToInt32(x)) % 0x1_0000_0000 == 0
  {
    hide *;
    var q, r := (x + 0x8000) / 0x1_0000, (x + 0x8000_0000) / 0x1_0000_0000;
    WrappedBy(x, q, r);
    WholeTurns(q, r);
  }

  lemma WrappedBy(x: int, q: int, r: int)
    requires q == (x + 0x8000) / 0x1_0000 && r == (x + 0x8000_0000) / 0x1_0000_0000
    ensures x - ToInt16(x) == 0x1_0000 * q && x - ToInt32(x) == 0x1_0000_0000 * r
  {
  }

  lemma WholeTurns(q: int, r: int)
    ensures (0x1_0000 * q) % 0x1_0000 == 0 && (0x1_0000_0000 * r) % 0x1_0000_0000 == 0
  {
  }

  function Shift15(x: int): int {
    x / 0x8000
  }

  // ----------------------------------------------------------- the DC blocker

  datatype DcState = DcState(x: int, y: int, e: int)

  const QUIET := DcState(0, 0, 0)

  /** One step as the code computes it. */
  function DcStep(s: DcState, x: int): DcState {
    var w := ToInt16(x - s.x);
    var u := ToInt32(s.e + s.y * POLE);
    var q := ToInt16(Shift15(u));
    DcState(x, ToInt16(w + q), ToInt32(u - q * 0x8000))
  }

  /** The same step on unbounded integers: y' = x' - x + (e + POLE * y) / 2^15 with the
      remainder of the division carried as e'. */
  function DcExact(s: DcState, x: int): DcState {
    var u := s.e + s.y * POLE;
    DcState(x, x - s.x + Shift15(u), u - Shift15(u) * 0x8000)
  }

  predicate DcFits(s: DcState, x: int) {
    var u := s.e + s.y * POLE;
    && InInt16(x - s.x) && InInt32(u) && InInt16(Shift15(u)) && InInt16(x - s.x + Shift15(u))
  }

  lemma DcStepExact(s: DcState, x: int)
    requires DcFits(s, x)
    ensures DcStep(s, x) == DcExact(s, x)
  {
  }

  /** The state after a run of samples; exact selects unbounded integers. */
  function DcRun(exact: bool, s: DcState, xs: seq<int>): DcState {
    if |xs| == 0 then s
    else
      var t, x := DcRun(exact, s, xs[..|xs| - 1]), xs[|xs| - 1];
      if exact then DcExact(t, x) else DcStep(t, x)
  }

  function SumY(s: DcState, xs: seq<int>): int {
    if |xs| == 0 then 0 else SumY(s, xs[..|xs| - 1]) + DcRun(true, s, xs).y
  }

  /** What the blocker lets through, added up over any run of samples, depends on the two
      ends of the run only; no error accumulates. */
  lemma {:induction false} Conservation(s: DcState, xs: seq<int>)
    ensures var t := DcRun(true, s, xs);
            668 * SumY(s, xs) == 0x8000 * (t.x - s.x) + POLE * (s.y - t.y) + s.e - t.e
  {
    if |xs| > 0 {
      Conservation(s, xs[..|xs| - 1]);
    }
  }

  predicate Bounded(xs: seq<int>, bound: int) {
    forall i :: 0 <= i < |xs| ==> -bound <= xs[i] <= bound
  }

  /** Holds in every state reached with inputs within the bound: y - x + e/2^15 is an
      average of earlier inputs and remainders, so it never leaves their range. */
  predicate DcInvariant(s: DcState, bound: int) {
    && -bound <= s.x <= bound
    && 0 <= s.e < 0x8000
    && -0x8000 * bound <= 0x8000 * (s.y - s.x) + s.e <= 0x8000 * bound + 0x7fff
  }

  lemma DcInvariantKept(s: DcState, x: int, bound: int)
    requires 0 <= bound && DcInvariant(s, bound) && -bound <= x <= bound
    ensures DcInvariant(DcExact(s, x), bound)
    ensures -2 * bound <= s.y <= 2 * bound
    ensures bound <= 16383 ==> DcFits(s, x)
    ensures bound <= 16383 ==>
              var t := DcExact(s, x); -669 <= (t.y - t.x) - (s.y - s.x) <= 669
  {
  }

  // ------------------------------------------------ filter and oscillator

  /** The accumulation loop: products and sums reduced to 32 bits. */
  function WrappedSum(k: seq<int>, q: seq<int>, n: nat): int
    requires n <= |k| && n <= |q|
  {
    if n == 0 then 0 else ToInt32(WrappedSum(k, q, n - 1) + Product(k, q, n - 1))
  }

  function Product(k: seq<int>, q: seq<int>, i: nat): int
    requires i < |k| && i < |q|
  {
    k[i] * q[i]
  }

  function FilterOutput(k: seq<int>, q: seq<int>): int {
    if |q| == |k| then ToInt16(Shift15(WrappedSum(k, q, |k|))) else 0
  }

  function Filter(k: seq<int>): seq<int> -> int {
    q => FilterOutput(k, q)
  }

  /** Sample p of a block after the oscillator; halving rounds down. */
  function Rotated(v: int, p: nat): int {
    if p % 4 == 0 then ToInt16(-v)
    else if p % 4 == 1 then ToInt16(-v / 2)
    else if p % 4 == 2 then v
    else ToInt16(v / 2)
  }

  /** The blocker's state after the first n samples of a stream. */
  function StateAfter(exact: bool, xs: seq<int>, n: int): DcState
    requires n <= |xs|
  {
    if n <= 0 then QUIET else DcRun(exact, QUIET, xs[..n])
  }

  function LaneAt(xs: seq<int>, i: int): int {
    if 0 <= i < |xs| then Rotated(StateAfter(false, xs, i + 1).y, i) else 0
  }

  function Lane(xs: seq<int>): int -> int {
    i => LaneAt(xs, i)
  }

  // ------------------------------------------------------------ blocks as values

  /** The state after the first n samples of block x, from state s on. */
  function BlockState(s: DcState, x: seq<int>, n: nat): DcState
    requires n <= |x|
  {
    DcRun(false, s, x[..n])
  }

  /** Block x with the DC removed from its first n samples, from state s on. */
  function DcBlock(s: DcState, x: seq<int>, n: nat): (y: seq<int>)
    ensures |y| == |x|
  {
    seq(|x|, p requires 0 <= p < |x| => if p < n then BlockState(s, x, p + 1).y else x[p])
  }

  lemma DcBlockStart(s: DcState, x: seq<int>)
    ensures DcBlock(s, x, 0) == x && BlockState(s, x, 0) == s && BlockState(s, x, |x|) == DcRun(false, s, x)
  {
    assert x[..|x|] == x;
  }

  lemma DcBlockStep(s: DcState, x: seq<int>, n: nat)
    requires n < |x|
    ensures DcBlock(s, x, n)[n] == x[n]
    ensures BlockState(s, x, n + 1) == DcStep(BlockState(s, x, n), x[n])
    ensures DcBlock(s, x, n + 1) == DcBlock(s, x, n)[n := BlockState(s, x, n + 1).y]
  {
    assert x[..n + 1][..n] == x[..n];
    hide DcStep;
  }

  lemma {:induction false} DcRunConcat(exact: bool, s: DcState, a: seq<int>, b: seq<int>)
    ensures DcRun(exact, s, a + b) == DcRun(exact, DcRun(exact, s, a), b)
  {
    hide DcStep, DcExact;
    if |b| == 0 {
      assert a + b == a;
    } else {
      DcRunConcat(exact, s, a, b[..|b| - 1]);
      assert (a + b)[..|a + b| - 1] == a + b[..|b| - 1];
    }
  }

  lemma StateStep(exact: bool, xs: seq<int>, n: nat)
    requires n < |xs|
    ensures var t := StateAfter(exact, xs, n);
            StateAfter(exact, xs, n + 1) == if exact then DcExact(t, xs[n]) else DcStep(t, xs[n])
  {
    var upTo := xs[..n + 1];
    assert upTo[..|upTo| - 1] == xs[..n] && upTo[|upTo| - 1] == xs[n];
    assert StateAfter(exact, xs, n) == DcRun(exact, QUIET, xs[..n]);
  }

  /** A block's states are those of the stream it continues. */
  lemma BlockStateInStream(s: seq<int>, x: seq<int>, n: nat)
    requires n <= |x|
    ensures BlockState(DcRun(false, QUIET, s), x, n) == DcRun(false, QUIET, (s + x)[..|s| + n])
  {
    DcRunConcat(false, QUIET, s, x[..n]);
    assert (s + x)[..|s| + n] == s + x[..n];
  }

  function RotatedBlock(x: seq<int>): (y: seq<int>)
    ensures |y| == |x|
  {
    seq(|x|, p requires 0 <= p < |x| => Rotated(x[p], p))
  }

  lemma LaneGrows(s: seq<int>, x: seq<int>, i: int)
    requires i < |s|
    ensures LaneAt(s + x, i) == LaneAt(s, i)
  {
    hide Rotated, DcStep;
    if i >= 0 {
      assert (s + x)[..i + 1] == s[..i + 1];
    }
  }

  lemma BlockEntry(dc: DcState, x: seq<int>, p: nat)
    requires p < |x|
    ensures RotatedBlock(DcBlock(dc, x, |x|))[p] == Rotated(BlockState(dc, x, p + 1).y, p)
  {
    hide Rotated, BlockState;
  }

  lemma BlockContinues(s: seq<int>, x: seq<int>, m: nat)
    requires |s| == 2 * m && m % 2 == 0
    ensures Continues(Lane(s), Lane(s + x), m, RotatedBlock(DcBlock(DcRun(false, QUIET, s), x, |x|)))
  {
    hide Rotated, BlockState, DcRun, LaneAt, RotatedBlock, DcBlock;
    var y := RotatedBlock(DcBlock(DcRun(false, QUIET, s), x, |x|));
    forall i | i < 2 * m ensures Lane(s)(i) == Lane(s + x)(i) {
      LaneGrows(s, x, i);
    }
    forall p | 0 <= p < |y| ensures y[p] == Lane(s + x)(2 * m + p) {
      BlockLaneAt(s, x, m, p);
      BlockEntry(DcRun(false, QUIET, s), x, p);
    }
  }

  lemma BlockLaneAt(s: seq<int>, x: seq<int>, m: nat, p: nat)
    requires |s| == 2 * m && m % 2 == 0 && p < |x|
    ensures Rotated(BlockState(DcRun(false, QUIET, s), x, p + 1).y, p) == LaneAt(s + x, 2 * m + p)
  {
    BlockStateInStream(s, x, p + 1);
    SamePhase(BlockState(DcRun(false, QUIET, s), x, p + 1).y, m, p);
    hide Rotated, BlockState, DcRun;
  }

  lemma SamePhase(v: int, m: nat, p: nat)
    requires m % 2 == 0
    ensures Rotated(v, 2 * m + p) == Rotated(v, p)
  {
    assert (2 * m + p) % 4 == p % 4;
    hide ToInt16;
  }

  lemma QuietState(queue: seq<int>, line: seq<int>, n: nat)
    requires 1 <= n <= |queue| && forall j :: 0 <= j < n ==> queue[j] == 0
    requires forall j :: 0 <= j < |line| ==> line[j] == 0
    ensures Window(queue, 0, n) == EvenTaps(Lane([]), -1, n - 1)
    ensures Ring(line, 0) == OddPast(Lane([]), 0, |line|)
  {
    assert Ring(line, 0) == line;
    hide Ring;
  }

  // ------------------------------------------------------------- the converter

  /** x with its first n groups of four turned. */
  function RotatedUpTo(x: seq<int>, n: nat): (y: seq<int>)
    ensures |y| == |x|
  {
    seq(|x|, p requires 0 <= p < |x| => if p < 4 * n then Rotated(x[p], p) else x[p])
  }

  lemma RotationStart(x: seq<int>)
    ensures RotatedUpTo(x, 0) == x
    ensures |x| % 4 == 0 ==> RotatedUpTo(x, |x| / 4) == RotatedBlock(x)
  {
    hide Rotated;
    if |x| % 4 == 0 {
      assert 4 * (|x| / 4) == |x|;
    }
  }

  /** Four samples turned; the third stays as it is. */
  function GroupTurned(y: seq<int>, j: nat): (z: seq<int>)
    requires j + 3 < |y|
    ensures |z| == |y|
    ensures z[j] == ToInt16(-y[j]) && z[j + 1] == ToInt16(-y[j + 1] / 2)
    ensures z[j + 2] == y[j + 2] && z[j + 3] == ToInt16(y[j + 3] / 2)
    ensures forall p :: 0 <= p < |y| && !(j <= p < j + 4) ==> z[p] == y[p]
  {
    hide ToInt16;
    y[j := ToInt16(-y[j])][j + 1 := ToInt16(-y[j + 1] / 2)][j + 3 := ToInt16(y[j + 3] / 2)]
  }

  lemma RotationStep(x: seq<int>, n: nat)
    requires 4 * n + 3 < |x|
    ensures RotatedUpTo(x, n + 1) == GroupTurned(RotatedUpTo(x, n), 4 * n)
  {
    hide ToInt16;
    var y, z, j := RotatedUpTo(x, n), RotatedUpTo(x, n + 1), 4 * n;
    var turned := GroupTurned(y, j);
    GroupOfFour(n);
    assert y[j] == x[j] && y[j + 1] == x[j + 1] && y[j + 2] == x[j + 2] && y[j + 3] == x[j + 3];
    assert z[j] == Rotated(x[j], j) == turned[j];
    assert z[j + 1] == Rotated(x[j + 1], j + 1) == turned[j + 1];
    assert z[j + 2] == Rotated(x[j + 2], j + 2) == turned[j + 2];
    assert z[j + 3] == Rotated(x[j + 3], j + 3) == turned[j + 3];
    hide Rotated, GroupTurned;
    forall p | 0 <= p < |x| ensures z[p] == turned[p] {
    }
    assert z == turned;
  }

  /** A step that fits keeps the balance of input, output and error. */
  lemma BalancedStep(s: DcState, x: int)
    ensures DcFits(s, x) ==>
              var t := DcStep(s, x);
              t.x == x && 0x8000 * t.y + t.e == 0x8000 * (x - s.x) + s.e + POLE * s.y && 0 <= t.e < 0x8000
  {
    hide DcStep, ToInt16, ToInt32;
    if DcFits(s, x) {
      DcStepExact(s, x);
      var u := s.e + POLE * s.y;
      assert u == 0x8000 * (u / 0x8000) + u % 0x8000;
    }
  }

  /** Filter state, window and ring stand for a stream. */
  ghost predicate Stands(len: nat, stream: seq<int>, pairs: nat, dc: DcState, w: seq<int>, r: seq<int>)
    requires len >= 1
  {
    && |stream| == 2 * pairs && pairs % 2 == 0
    && dc == DcRun(false, QUIET, stream)
    && w == EvenTaps(Lane(stream), pairs - 1, len - 1)
    && r == OddPast(Lane(stream), pairs, len / 2)
  }

  lemma QuietStands(len: nat, queue: seq<int>, line: seq<int>)
    requires 1 <= len <= |queue| && |line| == len / 2 && forall j :: 0 <= j < len ==> queue[j] == 0
    requires forall j :: 0 <= j < |line| ==> line[j] == 0
    ensures Stands(len, [], 0, QUIET, Window(queue, 0, len), Ring(line, 0))
  {
    hide Window, Ring, EvenTaps, OddPast, Lane;
    QuietState(queue, line, len);
  }

  /** The state stands for the empty stream only if the delay line holds nothing. */
  lemma QuietLine(len: nat, w: seq<int>, line: seq<int>)
    requires len >= 1 && Stands(len, [], 0, QUIET, w, Ring(line, 0))
    ensures forall j :: 0 <= j < |line| ==> line[j] == 0
  {
    assert Ring(line, 0) == line;
    forall j | 0 <= j < |line| ensures line[j] == 0 {
      assert OddPast(Lane([]), 0, len / 2)[j] == 0;
    }
  }

  /** A delay line of which the first half of the bytes is cleared; with an odd number of
      entries that takes the low byte of the middle one. */
  function HalfCleared(line: seq<int>): (r: seq<int>)
    ensures |r| == |line|
  {
    seq(|line|, j requires 0 <= j < |line| =>
      if j < |line| / 2 then 0
      else if j == |line| / 2 && |line| % 2 == 1 then line[j] - line[j] % 256
      else line[j])
  }

  /** The rest of such a line was clear before. */
  predicate RestQuiet(line: seq<int>) {
    && (forall j :: (|line| + 1) / 2 <= j < |line| ==> line[j] == 0)
    && (|line| % 2 == 1 ==> 0 <= line[|line| / 2] < 256)
  }

  lemma HalfClearedQuiet(line: seq<int>)
    ensures (forall j :: 0 <= j < |line| ==> HalfCleared(line)[j] == 0) <==> RestQuiet(line)
  {
    var r, half := HalfCleared(line), |line| / 2;
    if RestQuiet(line) {
      forall j | 0 <= j < |line| ensures r[j] == 0 {
      }
    }
    if forall j :: 0 <= j < |line| ==> r[j] == 0 {
      forall j | (|line| + 1) / 2 <= j < |line| ensures line[j] == 0 {
        assert r[j] == line[j];
      }
      if |line| % 2 == 1 {
        assert r[half] == line[half] - line[half] % 256;
      }
    }
  }

  /** After one more block they stand for the longer stream, and the block holds its outputs. */
  lemma NextStands(h: seq<int>, s: seq<int>, p: nat, dc: DcState, w: seq<int>, r: seq<int>, x: seq<int>)
    requires |h| % 2 == 1 && |x| % 4 == 0 && Stands(|h| / 2 + 1, s, p, dc, w, r)
    ensures var len, f, b := |h| / 2 + 1, Filter(EveryOther(h)), |x| / 2;
            var y := RotatedBlock(DcBlock(dc, x, |x|));
            && Stands(len, s + x, p + b, DcRun(false, dc, x), WindowAfter(w, y, b), NextRing(f, w, r, y))
            && Delivers(f, Lane(s + x), p, len, len / 2, BlockOutput(f, w, r, y))
  {
    hide BlockOutput, WindowAfter, NextRing, DcBlock, RotatedBlock, EvenTaps, OddPast, EveryOther, DcRun, Delivers,
         Filter, Lane, Continues;
    var len, f, b := |h| / 2 + 1, Filter(EveryOther(h)), |x| / 2;
    var y := RotatedBlock(DcBlock(dc, x, |x|));
    assert |x| == 2 * b && b % 2 == 0;
    BlockContinues(s, x, p);
    StateCarries(f, Lane(s), Lane(s + x), y, p, b, len, len / 2);
    BlockDelivered(f, Lane(s), Lane(s + x), y, p, b, len, len / 2);
    DcRunConcat(false, QUIET, s, x);
  }

  /** memset of as many bytes as the line has entries. */
  method ClearHalf(line: array<int>)
    modifies line
    ensures line[..] == HalfCleared(old(line[..]))
  {
    var half := line.Length / 2;
    if line.Length % 2 == 1 {
      line[half] := line[half] - line[half] % 256;
    }
    forall i | 0 <= i < half {
      line[i] := 0;
    }
  }

  class IqConverterInt16 {
    const len: nat
    var firIndex: nat
    var delayIndex: nat
    var oldX: int
    var oldY: int
    var oldE: int
    const firKernel: array<int>
    const firQueue: array<int>
    const delayLine: array<int>

    /** The kernel given at creation, and every sample since the last reset. */
    ghost const taps: seq<int>
    ghost var stream: seq<int>
    ghost var pairs: nat

    ghost predicate Shape()
      reads this, firKernel, firQueue, delayLine
    {
      && |taps| % 2 == 1 && len == |taps| / 2 + 1 && len >= 2
      && firKernel.Length == len && firQueue.Length == len * SIZE_FACTOR && delayLine.Length == len / 2
      && firKernel != firQueue && firKernel != delayLine && firQueue != delayLine
      && firKernel[..] == EveryOther(taps)
      && firIndex <= len * (SIZE_FACTOR - 1) && delayIndex < delayLine.Length
    }

    ghost predicate Valid()
      reads this, firKernel, firQueue, delayLine
    {
      && Shape()
      && Stands(len, stream, pairs, DcState(oldX, oldY, oldE),
                Window(firQueue[..], firIndex, len), Ring(delayLine[..], delayIndex))
    }

    constructor (hbKernel: seq<int>)
      requires |hbKernel| % 2 == 1 && |hbKernel| >= 3
      ensures Valid() && taps == hbKernel && stream == []
      ensures fresh(firKernel) && fresh(firQueue) && fresh(delayLine)
    {
      taps := hbKernel;
      len := |hbKernel| / 2 + 1;
      firKernel := new int[|hbKernel| / 2 + 1](i requires 0 <= i < |hbKernel| / 2 + 1 => hbKernel[i * 2]);
      firQueue := new int[(|hbKernel| / 2 + 1) * SIZE_FACTOR];
      delayLine := new int[(|hbKernel| / 2 + 1) / 2];
      oldX, oldY, oldE, firIndex, delayIndex, stream, pairs := 0, 0, 0, 0, 0, [], 0;
      new;
      assert firKernel[..] == EveryOther(taps);
      Reset();
    }

    /** Only the lower half of the queue is cleared: its length is given in units of the
        16-bit samples, the entries have 32 bits. The state is a fresh one all the same. */
    method Reset()
      requires Shape()
      modifies this, firQueue, delayLine
      ensures Valid() && stream == []
    {
      hide Stands, Window, Ring, EveryOther;
      firIndex := 0;
      delayIndex := 0;
      oldX := 0;
      oldY := 0;
      oldE := 0;
      stream, pairs := [], 0;
      forall i | 0 <= i < delayLine.Length {
        delayLine[i] := 0;
      }
      forall i | 0 <= i < firQueue.Length / 2 {
        firQueue[i] := 0;
      }
      QuietStands(len, firQueue[..], delayLine[..]);
      assert firKernel[..] == old(firKernel[..]);
    }

    /** libairspy's reset clears half of the delay line only. What it leaves is a fresh state
        exactly if the other half was clear already. */
    method ResetInLibairspy()
      requires Shape()
      modifies this, firQueue, delayLine
      ensures Shape() && stream == [] && delayLine[..] == HalfCleared(old(delayLine[..]))
      ensures Valid() <==> RestQuiet(old(delayLine[..]))
    {
      hide Stands, Window, Ring, EveryOther, HalfCleared, RestQuiet;
      ghost var line := delayLine[..];
      firIndex := 0;
      delayIndex := 0;
      oldX := 0;
      oldY := 0;
      oldE := 0;
      stream, pairs := [], 0;
      ClearHalf(delayLine);
      forall i | 0 <= i < firQueue.Length / 2 {
        firQueue[i] := 0;
      }
      assert firKernel[..] == old(firKernel[..]);
      HalfClearedQuiet(line);
      if RestQuiet(line) {
        QuietStands(len, firQueue[..], delayLine[..]);
      }
      if Valid() {
        QuietLine(len, Window(firQueue[..], firIndex, len), delayLine[..]);
      }
    }

    /** One sample: the output and the error are the difference of the inputs, the old error
        and the old output times the pole, as one number of 15 binary places. */
    static method RemoveDcOnce(oldX: int, oldY: int, oldE: int, x: int) returns (x': int, y': int, e': int)
      ensures DcState(x', y', e') == DcStep(DcState(oldX, oldY, oldE), x)
      ensures DcFits(DcState(oldX, oldY, oldE), x) ==>
                x' == x && 0x8000 * y' + e' == 0x8000 * (x - oldX) + oldE + 32100 * oldY && 0 <= e' < 0x8000
    {
      var w := ToInt16(x - oldX);
      var u := ToInt32(oldE + oldY * POLE);
      var s := ToInt16(Shift15(u));
      var y := ToInt16(w + s);
      x', y', e' := x, y, ToInt32(u - s * 0x8000);
      BalancedStep(DcState(oldX, oldY, oldE), x);
      hide ToInt16, ToInt32, Shift15, DcFits;
    }

    method RemoveDc(samples: array<int>)
      modifies this`oldX, this`oldY, this`oldE, samples
      ensures var s := old(DcState(oldX, oldY, oldE));
              && DcState(oldX, oldY, oldE) == DcRun(false, s, old(samples[..]))
              && samples[..] == DcBlock(s, old(samples[..]), samples.Length)
    {
      ghost var s, v := DcState(oldX, oldY, oldE), samples[..];
      DcBlockStart(s, v);
      hide DcRun, BlockState, DcBlock, DcStep;
      var x0, y0, e0 := oldX, oldY, oldE;
      var i := 0;
      while i < samples.Length
        invariant 0 <= i <= |v|
        invariant DcState(x0, y0, e0) == BlockState(s, v, i)
        invariant samples[..] == DcBlock(s, v, i)
      {
        DcBlockStep(s, v, i);
        x0, y0, e0 := RemoveDcOnce(x0, y0, e0, samples[i]);
        samples[i] := y0;
        i := i + 1;
      }
      oldX := x0;
      oldY := y0;
      oldE := e0;
    }

    method RotateGroup(samples: array<int>, j: nat)
      requires j + 3 < samples.Length
      modifies samples
      ensures samples[..] == GroupTurned(old(samples[..]), j)
    {
      hide ToInt16;
      ghost var y := samples[..];
      samples[j + 0] := ToInt16(-samples[j + 0]);
      samples[j + 1] := ToInt16(-samples[j + 1] / 2);
      samples[j + 3] := ToInt16(samples[j + 3] / 2);
      ghost var z := GroupTurned(y, j);
      assert forall p :: 0 <= p < |y| ==> samples[p] == z[p];
    }

    method Rotate(samples: array<int>)
      requires samples.Length % 4 == 0
      modifies samples
      ensures samples[..] == RotatedBlock(old(samples[..]))
    {
      ghost var x := samples[..];
      RotationStart(x);
      hide RotatedUpTo, RotatedBlock, GroupTurned;
      var i := 0;
      ghost var t: nat := 0;
      while i < samples.Length
        invariant i == 4 * t <= samples.Length
        invariant samples[..] == RotatedUpTo(x, t)
      {
        RotationStep(x, t);
        RotateGroup(samples, i);
        i := i + 4;
        t := t + 1;
      }
      assert t == |x| / 4;
    }

    /** The inner loop: the taps times the newest samples in the queue. */
    method Accumulate() returns (acc: int)
      requires Shape()
      ensures acc == WrappedSum(firKernel[..], firQueue[firIndex..firIndex + len], len)
    {
      hide ToInt32, EveryOther;
      ghost var k, q := firKernel[..], firQueue[firIndex..firIndex + len];
      acc := 0;
      var j := 0;
      while j < len
        invariant 0 <= j <= len && acc == WrappedSum(k, q, j)
      {
        acc := ToInt32(acc + firKernel[j] * firQueue[firIndex + j]);
        j := j + 1;
      }
    }

    /** One even sample through the queue. */
    method FirStep(samples: array<int>, i: nat)
      requires Shape() && i < samples.Length
      requires samples != firKernel && samples != firQueue && samples != delayLine
      modifies this`firIndex, firQueue, samples
      ensures Shape() && firKernel[..] == old(firKernel[..])
      ensures var q := [old(samples[i])] + old(Window(firQueue[..], firIndex, len));
              && samples[..] == old(samples[..])[i := Filter(firKernel[..])(q)]
              && Window(firQueue[..], firIndex, len) == q[..len - 1]
    {
      hide WrappedSum, EveryOther, ToInt16, Window;
      ghost var before := firQueue[..];
      ghost var q := [samples[i]] + Window(before, firIndex, len);
      WindowPush(before, firIndex, len, samples[i]);
      firQueue[firIndex] := samples[i];
      assert firQueue[..] == before[firIndex := samples[i]];
      assert firQueue[firIndex..firIndex + len] == firQueue[..][firIndex..firIndex + len];
      var acc := Accumulate();
      firIndex := Advance(firQueue, firIndex, len, SIZE_FACTOR);
      samples[i] := ToInt16(Shift15(acc));
    }

    method FirInterleaved(samples: array<int>)
      requires Shape() && samples.Length % 2 == 0
      requires samples != firKernel && samples != firQueue && samples != delayLine
      modifies this`firIndex, firQueue, samples
      ensures Shape()
      ensures var w, x := old(Window(firQueue[..], firIndex, len)), old(samples[..]);
              && samples[..] == FilteredBlock(Filter(firKernel[..]), w, x, |x| / 2)
              && Window(firQueue[..], firIndex, len) == WindowAfter(w, x, |x| / 2)
    {
      hide Filter, FilteredBlock, WindowAfter, Taps, Window, EveryOther;
      ghost var w, x, f := Window(firQueue[..], firIndex, len), samples[..], Filter(firKernel[..]);
      FilterStart(f, w, x);
      var i := 0;
      ghost var t: nat := 0;
      while i < samples.Length
        invariant i == 2 * t <= |x| && Shape() && Filter(firKernel[..]) == f
        invariant samples[..] == FilteredBlock(f, w, x, t)
        invariant Window(firQueue[..], firIndex, len) == WindowAfter(w, x, t)
      {
        FilterStep(f, w, x, t);
        FirStep(samples, i);
        i := i + 2;
        t := t + 1;
      }
    }

    method TranslateFs4(samples: array<int>)
      requires Shape() && samples.Length % 4 == 0
      requires samples != firKernel && samples != firQueue && samples != delayLine
      modifies this`firIndex, this`delayIndex, firQueue, delayLine, samples
      ensures Shape()
      ensures var w, r := old(Window(firQueue[..], firIndex, len)), old(Ring(delayLine[..], delayIndex));
              var f, y := Filter(EveryOther(taps)), RotatedBlock(old(samples[..]));
              && samples[..] == BlockOutput(f, w, r, y)
              && Window(firQueue[..], firIndex, len) == WindowAfter(w, y, |y| / 2)
              && Ring(delayLine[..], delayIndex) == NextRing(f, w, r, y)
    {
      hide Filter, FilteredBlock, DelayedBlock, WindowAfter, DelayedRing, RotatedBlock, Window, Ring, EveryOther;
      Rotate(samples);
      FirInterleaved(samples);
      delayIndex := DelayInterleaved(delayLine, delayIndex, samples);
    }

    /** One block of the stream, whatever the split into blocks. */
    method Process(samples: array<int>)
      requires Valid() && samples.Length % 4 == 0
      requires samples != firKernel && samples != firQueue && samples != delayLine
      modifies this, firQueue, delayLine, samples
      ensures Valid() && stream == old(stream) + old(samples[..])
      ensures Delivers(Filter(EveryOther(taps)), Lane(stream), old(pairs), len, delayLine.Length, samples[..])
    {
      hide BlockOutput, WindowAfter, NextRing, DcBlock, RotatedBlock, Window, Ring, EveryOther, DcRun, Delivers, Filter,
           Lane, Stands, Valid;
      ghost var s, x, p := stream, samples[..], pairs;
      OpenState();
      NextStands(taps, s, p, DcState(oldX, oldY, oldE), Window(firQueue[..], firIndex, len),
                 Ring(delayLine[..], delayIndex), x);
      RemoveDc(samples);
      TranslateFs4(samples);
      stream, pairs := s + x, p + |x| / 2;
      CloseState();
    }

    lemma OpenState()
      requires Valid()
      ensures Shape() && len >= 2 && firIndex + len <= firQueue.Length && delayIndex < delayLine.Length
      ensures Stands(len, stream, pairs, DcState(oldX, oldY, oldE),
                     Window(firQueue[..], firIndex, len), Ring(delayLine[..], delayIndex))
      ensures |taps| % 2 == 1 && len == |taps| / 2 + 1
    {
      hide EveryOther, Stands, Window, Ring;
    }

    lemma CloseState()
      requires Shape() && len >= 1 && firIndex + len <= firQueue.Length && delayIndex < delayLine.Length
      requires Stands(len, stream, pairs, DcState(oldX, oldY, oldE),
                      Window(firQueue[..], firIndex, len), Ring(delayLine[..], delayIndex))
      ensures Valid()
    {
    }
  }
}
