/** What both IQ converters share: a queue written towards lower indices for the even
    samples, a short delay ring for the odd ones, and how blocks of samples go through
    them. The two C files repeat this code for their own sample type. */
module Queues {

  /** Sample i of the even lane of block x; negative i reaches into the window w of
      earlier samples, newest first. */
  function LaneTap<T>(w: seq<T>, x: seq<T>, i: int): T
    requires -|w| <= i && 2 * i < |x|
  {
    if i >= 0 then x[2 * i] else w[-1 - i]
  }

  /** The even-lane samples up to number t, newest first, as many as a filter of |w| + 1
      taps sees. */
  function Taps<T>(w: seq<T>, x: seq<T>, t: nat): (q: seq<T>)
    requires 2 * t < |x|
    ensures |q| == |w| + 1
  {
    seq(|w| + 1, j requires 0 <= j < |w| + 1 => LaneTap(w, x, t - j))
  }

  /** The window once the first t even samples of block x have passed. */
  function WindowAfter<T>(w: seq<T>, x: seq<T>, t: nat): (v: seq<T>)
    requires 2 * t <= |x| + 1
    ensures |v| == |w|
  {
    seq(|w|, j requires 0 <= j < |w| => LaneTap(w, x, t - 1 - j))
  }

  /** Block x with its first t even entries replaced by the filter's output. */
  function FilteredBlock<T>(filter: seq<T> -> T, w: seq<T>, x: seq<T>, t: nat): (y: seq<T>)
    requires 2 * t <= |x| + 1
    ensures |y| == |x|
    ensures forall p :: 0 <= p < |x| ==>
              y[p] == if p % 2 == 0 && p < 2 * t then filter(Taps(w, x, p / 2)) else x[p]
  {
    seq(|x|, p requires 0 <= p < |x| => if p % 2 == 0 && p < 2 * t then filter(Taps(w, x, p / 2)) else x[p])
  }

  lemma FilterStart<T>(filter: seq<T> -> T, w: seq<T>, x: seq<T>)
    ensures WindowAfter(w, x, 0) == w && FilteredBlock(filter, w, x, 0) == x
  {
  }

  lemma FilterStep<T>(filter: seq<T> -> T, w: seq<T>, x: seq<T>, t: nat)
    requires 2 * t < |x|
    ensures FilteredBlock(filter, w, x, t)[2 * t] == x[2 * t]
    ensures Taps(w, x, t) == [x[2 * t]] + WindowAfter(w, x, t)
    ensures WindowAfter(w, x, t + 1) == Taps(w, x, t)[..|w|]
    ensures FilteredBlock(filter, w, x, t + 1) == FilteredBlock(filter, w, x, t)[2 * t := filter(Taps(w, x, t))]
  {
    var q, pushed := Taps(w, x, t), [x[2 * t]] + WindowAfter(w, x, t);
    forall j | 0 <= j < |q| ensures q[j] == pushed[j] {
      assert q[j] == LaneTap(w, x, t - j);
      if j > 0 {
        assert t - 1 - (j - 1) == t - j;
        assert pushed[j] == WindowAfter(w, x, t)[j - 1] == LaneTap(w, x, t - j);
      }
    }
  }

  /** The n - 1 samples behind the queue's write position, newest first. */
  function Window<T>(queue: seq<T>, index: nat, n: nat): (w: seq<T>)
    requires n >= 1 && index + n <= |queue|
    ensures |w| == n - 1
  {
    queue[index + 1..index + n]
  }

  lemma WindowPush<T>(queue: seq<T>, index: nat, n: nat, v: T)
    requires n >= 1 && index + n <= |queue|
    ensures queue[index := v][index..index + n] == [v] + Window(queue, index, n)
  {
  }

  /** Make room for the next sample: one entry down, or, from the bottom, to the top
      with the window copied along. The window of n - 1 samples stays the same. */
  method Advance<T>(queue: array<T>, index: nat, n: nat, factor: nat) returns (next: nat)
    requires n >= 1 && factor >= 2 && queue.Length == n * factor
    requires index <= n * (factor - 1)
    modifies queue
    ensures next <= n * (factor - 1)
    ensures next + n <= queue.Length && index + n <= queue.Length
    ensures Window(queue[..], next, n) == old(queue[index..index + n - 1])
  {
    assert n * factor == n * (factor - 1) + n;
    assert n * (factor - 1) >= n;
    if index == 0 {
      next := n * (factor - 1);
      forall j | 0 <= j < n - 1 {
        queue[next + 1 + j] := queue[j];
      }
    } else {
      next := index - 1;
    }
  }

  /** The delay ring, oldest entry first. */
  function Ring<T>(line: seq<T>, index: nat): (r: seq<T>)
    requires index <= |line|
    ensures |r| == |line|
  {
    line[index..] + line[..index]
  }

  /** One sample through the ring: the oldest comes out, the new one goes in. */
  method DelayStep<T>(line: array<T>, index0: nat, samples: array<T>, i: nat) returns (index: nat)
    requires index0 < line.Length && i < samples.Length && line != samples
    modifies line, samples
    ensures index < line.Length
    ensures Ring(line[..], index) == old(Ring(line[..], index0)[1..] + [samples[i]])
    ensures samples[..] == old(samples[..][i := Ring(line[..], index0)[0]])
  {
    RingPush(line[..], index0, samples[i]);
    hide Ring;
    index := index0;
    var res := line[index];
    line[index] := samples[i];
    samples[i] := res;
    index := index + 1;
    if index >= line.Length {
      index := 0;
    }
  }

  /** Delay the odd lane by the ring's length. */
  method DelayInterleaved<T>(line: array<T>, index0: nat, samples: array<T>) returns (index: nat)
    requires index0 < line.Length && samples.Length % 2 == 0 && line != samples
    modifies line, samples
    ensures index < line.Length
    ensures var r, x := old(Ring(line[..], index0)), old(samples[..]);
            && samples[..] == DelayedBlock(r, x, |x| / 2)
            && Ring(line[..], index) == DelayedRing(r, x, |x| / 2)
  {
    ghost var r, x := Ring(line[..], index0), samples[..];
    index := index0;
    var i := 0;
    DelayStart(r, x);
    hide *;
    ghost var t: nat := 0;
    while i < samples.Length
      invariant i == 2 * t <= |x| && index < line.Length
      invariant samples[..] == DelayedBlock(r, x, t)
      invariant Ring(line[..], index) == DelayedRing(r, x, t)
    {
      DelayedRingPush(r, x, t);
      DelayedBlockStep(r, x, t);
      index := DelayStep(line, index, samples, i + 1);
      i := i + 2;
      t := t + 1;
    }
  }

  /** Odd-lane sample t of block x, |r| samples late; r holds the ones before the block. */
  function Delayed<T>(r: seq<T>, x: seq<T>, t: nat): T
    requires t < |r| || 2 * (t - |r|) + 1 < |x|
  {
    if t < |r| then r[t] else x[2 * (t - |r|) + 1]
  }

  /** What the ring holds once t odd samples of block x have passed. */
  function DelayedRing<T>(r: seq<T>, x: seq<T>, t: nat): (s: seq<T>)
    requires 2 * t <= |x|
    ensures |s| == |r|
  {
    seq(|r|, j requires 0 <= j < |r| => Delayed(r, x, t + j))
  }

  lemma DelayedRingPush<T>(r: seq<T>, x: seq<T>, t: nat)
    requires 2 * t + 1 < |x| && |r| >= 1
    ensures DelayedRing(r, x, t)[0] == Delayed(r, x, t)
    ensures DelayedRing(r, x, t + 1) == DelayedRing(r, x, t)[1..] + [x[2 * t + 1]]
  {
    assert Delayed(r, x, t + |r|) == x[2 * t + 1];
    var next, shifted := DelayedRing(r, x, t + 1), DelayedRing(r, x, t)[1..] + [x[2 * t + 1]];
    forall j | 0 <= j < |r| ensures next[j] == shifted[j] {
      assert next[j] == Delayed(r, x, t + 1 + j);
    }
  }

  /** Block x with its first t odd entries delayed. */
  function DelayedBlock<T>(r: seq<T>, x: seq<T>, t: nat): (y: seq<T>)
    requires 2 * t <= |x|
    ensures |y| == |x|
    ensures forall p :: 0 <= p < |x| ==> y[p] == if p % 2 == 1 && p < 2 * t then Delayed(r, x, p / 2) else x[p]
  {
    seq(|x|, p requires 0 <= p < |x| => if p % 2 == 1 && p < 2 * t then Delayed(r, x, p / 2) else x[p])
  }

  lemma DelayStart<T>(r: seq<T>, x: seq<T>)
    ensures DelayedRing(r, x, 0) == r && DelayedBlock(r, x, 0) == x
  {
  }

  lemma DelayedBlockStep<T>(r: seq<T>, x: seq<T>, t: nat)
    requires 2 * t + 1 < |x|
    ensures DelayedBlock(r, x, t)[2 * t + 1] == x[2 * t + 1]
    ensures DelayedBlock(r, x, t + 1) == DelayedBlock(r, x, t)[2 * t + 1 := Delayed(r, x, t)]
  {
  }

  lemma RingPush<T>(line: seq<T>, index: nat, v: T)
    requires index < |line|
    ensures Ring(line, index)[0] == line[index]
    ensures var next := if index + 1 >= |line| then 0 else index + 1;
            Ring(line[index := v], next) == Ring(line, index)[1..] + [v]
  {
  }

  /** The taps the filter keeps: of a half-band kernel the others are zero but for the centre. */
  function EveryOther<T>(h: seq<T>): (k: seq<T>)
    requires |h| % 2 == 1
    ensures |k| == |h| / 2 + 1
  {
    seq(|h| / 2 + 1, i requires 0 <= i < |h| / 2 + 1 => h[2 * i])
  }

  predicate IsSymmetric<T(==)>(h: seq<T>) {
    forall k :: 0 <= k < |h| ==> h[k] == h[|h| - 1 - k]
  }

  // ------------------------------------------------- blocks of one long signal

  /** The n newest even samples of a signal up to number m, newest first. */
  function EvenTaps<T>(lane: int -> T, m: int, n: nat): (q: seq<T>)
    ensures |q| == n
  {
    seq(n, j requires 0 <= j < n => lane(2 * (m - j)))
  }

  /** The n odd samples before number m, oldest first. */
  function OddPast<T>(lane: int -> T, m: int, n: nat): (r: seq<T>)
    ensures |r| == n
  {
    seq(n, j requires 0 <= j < n => lane(2 * (m - n + j) + 1))
  }

  /** A block through filter and ring: w and r are the window and ring before it. */
  function BlockOutput<T>(filter: seq<T> -> T, w: seq<T>, r: seq<T>, y: seq<T>): (out: seq<T>)
    ensures |out| == |y|
  {
    DelayedBlock(r, FilteredBlock(filter, w, y, |y| / 2), |y| / 2)
  }

  function NextRing<T>(filter: seq<T> -> T, w: seq<T>, r: seq<T>, y: seq<T>): seq<T> {
    DelayedRing(r, FilteredBlock(filter, w, y, |y| / 2), |y| / 2)
  }

  /** y holds, for the signal's samples from number 2m on, the filtered even samples and
      the odd samples k places late, side by side. */
  ghost predicate Delivers<T(!new)>(filter: seq<T> -> T, lane: int -> T, m: nat, n: nat, k: nat, y: seq<T>) {
    |y| % 2 == 0 && forall t: nat {:trigger OutputPair(y, t)} :: 2 * t < |y| ==>
      OutputPair(y, t) == (filter(EvenTaps(lane, m + t, n)), lane(2 * (m + t - k) + 1))
  }

  /** Output t of a block: in-phase and quadrature part. */
  function OutputPair<T>(y: seq<T>, t: nat): (T, T)
    requires 2 * t + 1 < |y|
  {
    (y[2 * t], y[2 * t + 1])
  }

  /** before and lane are the signal as known before and after the block y. */
  ghost predicate Continues<T(!new)>(before: int -> T, lane: int -> T, m: nat, y: seq<T>) {
    && (forall i :: i < 2 * m ==> before(i) == lane(i))
    && forall p :: 0 <= p < |y| ==> y[p] == lane(2 * m + p)
  }

  lemma EvenLaneContinues<T(!new)>(before: int -> T, lane: int -> T, y: seq<T>, m: nat, b: nat, n: nat)
    requires |y| == 2 * b && n >= 1 && Continues(before, lane, m, y)
    ensures var w := EvenTaps(before, m - 1, n - 1);
            && (forall t :: 0 <= t < b ==> Taps(w, y, t) == EvenTaps(lane, m + t, n))
            && WindowAfter(w, y, b) == EvenTaps(lane, m + b - 1, n - 1)
  {
    var w := EvenTaps(before, m - 1, n - 1);
    forall i | -(n - 1) <= i < b ensures LaneTap(w, y, i) == lane(2 * (m + i)) {
      if i < 0 {
        assert w[-1 - i] == before(2 * (m - 1 - (-1 - i)));
      }
    }
    hide LaneTap;
  }

  lemma OddLaneContinues<T(!new)>(before: int -> T, lane: int -> T, y: seq<T>, m: nat, b: nat, k: nat)
    requires |y| == 2 * b && Continues(before, lane, m, y)
    ensures var r := OddPast(before, m, k);
            && (forall t :: 0 <= t < b ==> Delayed(r, y, t) == lane(2 * (m + t - k) + 1))
            && DelayedRing(r, y, b) == OddPast(lane, m + b, k)
  {
    var r := OddPast(before, m, k);
    forall t | 0 <= t < b + k ensures Delayed(r, y, t) == lane(2 * (m + t - k) + 1) {
      if t >= k {
        assert 2 * m + (2 * (t - k) + 1) == 2 * (m + t - k) + 1;
      }
    }
    hide Delayed;
  }

  /** The filter leaves the odd samples alone. */
  lemma OddLaneKept<T>(filter: seq<T> -> T, w: seq<T>, r: seq<T>, y: seq<T>, b: nat)
    requires |y| == 2 * b
    ensures var z := FilteredBlock(filter, w, y, b);
            && (forall t :: 0 <= t < b ==> Delayed(r, z, t) == Delayed(r, y, t))
            && NextRing(filter, w, r, y) == DelayedRing(r, y, b)
  {
    var z := FilteredBlock(filter, w, y, b);
    forall t | 0 <= t < b + |r| ensures Delayed(r, z, t) == Delayed(r, y, t) {
      if t >= |r| {
        OddIsOdd(t - |r|);
      }
    }
  }

  lemma GroupOfFour(n: nat)
    ensures (4 * n) % 4 == 0 && (4 * n + 1) % 4 == 1 && (4 * n + 2) % 4 == 2 && (4 * n + 3) % 4 == 3
  {
  }

  lemma OddIsOdd(j: nat)
    ensures (2 * j + 1) % 2 == 1
  {
  }

  /** Window and ring that stand for the signal before a block stand for it after. */
  lemma StateCarries<T(!new)>(filter: seq<T> -> T, before: int -> T, lane: int -> T, y: seq<T>,
                              m: nat, b: nat, n: nat, k: nat)
    requires |y| == 2 * b && n >= 1 && Continues(before, lane, m, y)
    ensures var w, r := EvenTaps(before, m - 1, n - 1), OddPast(before, m, k);
            && WindowAfter(w, y, b) == EvenTaps(lane, m + b - 1, n - 1)
            && NextRing(filter, w, r, y) == OddPast(lane, m + b, k)
  {
    hide *;
    EvenLaneContinues(before, lane, y, m, b, n);
    OddLaneContinues(before, lane, y, m, b, k);
    OddLaneKept(filter, EvenTaps(before, m - 1, n - 1), OddPast(before, m, k), y, b);
  }

  /** From such a state the block becomes the outputs of its samples. */
  lemma BlockDelivered<T(!new)>(filter: seq<T> -> T, before: int -> T, lane: int -> T, y: seq<T>,
                                m: nat, b: nat, n: nat, k: nat)
    requires |y| == 2 * b && n >= 1 && Continues(before, lane, m, y)
    ensures var w, r := EvenTaps(before, m - 1, n - 1), OddPast(before, m, k);
            Delivers(filter, lane, m, n, k, BlockOutput(filter, w, r, y))
  {
    hide Taps, Delayed, EvenTaps, OddPast, WindowAfter, DelayedRing, NextRing, Continues;
    var w, r := EvenTaps(before, m - 1, n - 1), OddPast(before, m, k);
    var z, out := FilteredBlock(filter, w, y, b), BlockOutput(filter, w, r, y);
    EvenLaneContinues(before, lane, y, m, b, n);
    OddLaneContinues(before, lane, y, m, b, k);
    OddLaneKept(filter, w, r, y, b);
    forall t: nat {:trigger OutputPair(out, t)} | t < b
      ensures OutputPair(out, t) == (filter(EvenTaps(lane, m + t, n)), lane(2 * (m + t - k) + 1))
    {
      assert out[2 * t] == z[2 * t] == filter(Taps(w, y, t));
      assert out[2 * t + 1] == Delayed(r, z, t);
    }
  }

  /** Two blocks, or both at once: the outputs are the same. */
  lemma SplitIndependent<T(!new)>(filter: seq<T> -> T, lane: int -> T, m: nat, n: nat, k: nat,
                                  first: seq<T>, second: seq<T>, whole: seq<T>)
    requires |first| % 2 == 0 && |whole| == |first| + |second|
    requires Delivers(filter, lane, m, n, k, first)
    requires Delivers(filter, lane, m + |first| / 2, n, k, second)
    requires Delivers(filter, lane, m, n, k, whole)
    ensures whole == first + second
  {
    var b := |first| / 2;
    forall p | 0 <= p < |whole| ensures whole[p] == (first + second)[p] {
      var t := p / 2;
      assert OutputPair(whole, t) == OutputPair(whole, t);
      if t < b {
        assert OutputPair(first, t) == OutputPair(whole, t);
      } else {
        assert OutputPair(second, t - b) == OutputPair(whole, t);
      }
    }
  }

  /** Two descriptions of one signal. */
  lemma SameSignal<T(!new)>(filter: seq<T> -> T, a: int -> T, b: int -> T, m: nat, n: nat, k: nat, y: seq<T>)
    requires (forall i :: a(i) == b(i)) && Delivers(filter, a, m, n, k, y)
    ensures Delivers(filter, b, m, n, k, y)
  {
    forall t: nat {:trigger OutputPair(y, t)} | 2 * t < |y|
      ensures OutputPair(y, t) == (filter(EvenTaps(b, m + t, n)), b(2 * (m + t - k) + 1))
    {
      assert EvenTaps(a, m + t, n) == EvenTaps(b, m + t, n);
    }
  }
}
