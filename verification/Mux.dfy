/** Writing and reading the samples of one channel inside an interleaved buffer. */
module Mux {
  import opened Powers
  import opened Bytes
  import opened SampleConversion
  import opened ScanLayout

  /** Where the k-th of a row of samples begins. */
  function Slot(first: nat, step: nat, k: nat): nat {
    first + k * step
  }

  /** Samples lie step apart. */
  lemma SlotRow(first: nat, step: nat, k: nat)
    ensures Slot(first, step, 0) == first && Slot(first, step, k + 1) == Slot(first, step, k) + step
  {
    assert (k + 1) * step == k * step + step;
  }

  function Width(f: Format): nat {
    Total(f, f.repeat)
  }

  /** n slots of one channel fit in size bytes. */
  predicate Laid(f: Format, first: nat, step: nat, n: nat, size: nat) {
    n == 0 || (first + Width(f) <= step && Slot(0, step, n) <= size)
  }

  lemma SlotFits(first: nat, step: nat, width: nat, n: nat, k: nat)
    requires first + width <= step && k < n
    ensures Slot(first, step, k) + width <= Slot(0, step, k + 1) <= Slot(0, step, n)
  {
    MulMono(k + 1, n, step);
    assert (k + 1) * step == k * step + step;
  }

  /** Slots of rows that do not overlap inside one step never overlap. */
  lemma SlotsDisjoint(a: nat, wa: nat, b: nat, wb: nat, step: nat, i: nat, j: nat)
    requires a + wa <= step && b + wb <= step
    requires i != j || a + wa <= b || b + wb <= a
    ensures Slot(a, step, i) + wa <= Slot(b, step, j) || Slot(b, step, j) + wb <= Slot(a, step, i)
  {
    if i < j {
      SlotFits(a, step, wa, j, i);
    } else if j < i {
      SlotFits(b, step, wb, i, j);
    }
  }

  lemma LaidLess(f: Format, first: nat, step: nat, n: nat, size: nat, k: nat)
    requires Laid(f, first, step, n, size) && k < n
    ensures Laid(f, first, step, k, size) && Laid(f, first, step, k + 1, size)
    ensures Slot(first, step, k) + Width(f) <= size
  {
    hide Width;
    SlotFits(first, step, Width(f), n, k);
    assert Slot(0, step, k) <= Slot(0, step, k + 1);
  }

  /** The groups of a row, each mapped, one behind the other. */
  function Gathered(f: Format, way: Way, s: seq<Byte>, first: nat, step: nat, n: nat): seq<Byte>
    requires Handles(f, way) && Laid(f, first, step, n, |s|)
  {
    if n == 0 then []
    else
      hide Slot, Width, Laid;
      LaidLess(f, first, step, n, |s|, n - 1);
      var at := Slot(first, step, n - 1);
      Gathered(f, way, s, first, step, n - 1) + Group(f, way, s, at)
  }

  function Group(f: Format, way: Way, s: seq<Byte>, at: nat): (r: seq<Byte>)
    requires Handles(f, way) && at + Width(f) <= |s|
    ensures |r| == Width(f)
  {
    MappedAll(f, way, s[at..at + Width(f)], f.repeat)
  }

  /** s after n groups of src have been written into the slots of the row. */
  function Scattered(f: Format, s: seq<Byte>, first: nat, step: nat, src: seq<Byte>, n: nat): (r: seq<Byte>)
    requires Handles(f, ToHardware) && Laid(f, first, step, n, |s|) && Laid(f, 0, Width(f), n, |src|)
    ensures |r| == |s|
  {
    if n == 0 then s
    else
      hide Slot, Width, Laid;
      LaidLess(f, first, step, n, |s|, n - 1);
      LaidLess(f, 0, Width(f), n, |src|, n - 1);
      Splice(Scattered(f, s, first, step, src, n - 1), Slot(first, step, n - 1),
             Group(f, ToHardware, src, Slot(0, Width(f), n - 1)))
  }

  /** Every written slot holds its group. */
  lemma {:induction false} SlotHolds(f: Format, s: seq<Byte>, first: nat, step: nat, src: seq<Byte>, n: nat, k: nat)
    requires Handles(f, ToHardware) && Laid(f, first, step, n, |s|) && Laid(f, 0, Width(f), n, |src|) && k < n
    ensures Slot(first, step, k) + Width(f) <= |s| && Slot(0, Width(f), k) + Width(f) <= |src|
    ensures Scattered(f, s, first, step, src, n)[Slot(first, step, k)..Slot(first, step, k) + Width(f)]
            == Group(f, ToHardware, src, Slot(0, Width(f), k))
  {
    hide Slot, Width, Laid, Group, Handles;
    LaidLess(f, first, step, n, |s|, n - 1);
    LaidLess(f, 0, Width(f), n, |src|, n - 1);
    LaidLess(f, first, step, n, |s|, k);
    LaidLess(f, 0, Width(f), n, |src|, k);
    var a, b := Scattered(f, s, first, step, src, n - 1), Scattered(f, s, first, step, src, n);
    var at, w, last := Slot(first, step, k), Width(f), Slot(first, step, n - 1);
    if k < n - 1 {
      SlotHolds(f, s, first, step, src, n - 1, k);
      assert at + w <= last by {
        SlotAfter(f, first, step, n, |s|, k);
      }
      assert a[at..at + w] == b[at..at + w];
    }
  }

  lemma SlotAfter(f: Format, first: nat, step: nat, n: nat, size: nat, k: nat)
    requires Laid(f, first, step, n, size) && k < n - 1
    ensures Slot(first, step, k) + Width(f) <= Slot(first, step, n - 1)
  {
    hide Width;
    SlotFits(first, step, Width(f), n - 1, k);
  }

  /** Two channels that do not overlap inside one step. */
  predicate Apart(f: Format, first: nat, g: Format, other: nat) {
    first + Width(f) <= other || other + Width(g) <= first
  }

  /** Writing one channel leaves the slots of another as they were. */
  lemma {:induction false} OtherSlotKept(f: Format, s: seq<Byte>, first: nat, step: nat, src: seq<Byte>, n: nat,
                                         g: Format, other: nat, m: nat, j: nat)
    requires Handles(f, ToHardware) && Laid(f, first, step, n, |s|) && Laid(f, 0, Width(f), n, |src|)
    requires Laid(g, other, step, m, |s|) && j < m && Apart(f, first, g, other)
    ensures Slot(other, step, j) + Width(g) <= |s|
    ensures Scattered(f, s, first, step, src, n)[Slot(other, step, j)..Slot(other, step, j) + Width(g)]
            == s[Slot(other, step, j)..Slot(other, step, j) + Width(g)]
  {
    hide Slot, Width, Laid, Group, Handles;
    LaidLess(g, other, step, m, |s|, j);
    if n > 0 {
      LaidLess(f, first, step, n, |s|, n - 1);
      LaidLess(f, 0, Width(f), n, |src|, n - 1);
      OtherSlotKept(f, s, first, step, src, n - 1, g, other, m, j);
      RowsApart(f, first, step, n, |s|, g, other, m, j);
      var a, b := Scattered(f, s, first, step, src, n - 1), Scattered(f, s, first, step, src, n);
      var at := Slot(other, step, j);
      assert a[at..at + Width(g)] == b[at..at + Width(g)];
    }
  }

  lemma RowsApart(f: Format, first: nat, step: nat, n: nat, size: nat, g: Format, other: nat, m: nat, j: nat)
    requires Laid(f, first, step, n, size) && n > 0 && Laid(g, other, step, m, size) && j < m
    requires Apart(f, first, g, other)
    ensures Slot(first, step, n - 1) + Width(f) <= Slot(other, step, j)
            || Slot(other, step, j) + Width(g) <= Slot(first, step, n - 1)
  {
    hide Width, Slot;
    SlotsDisjoint(first, Width(f), other, Width(g), step, n - 1, j);
  }

  /** Reading what was written gives every sample as the format carries it. */
  lemma {:induction false} ReadBack(f: Format, s: seq<Byte>, first: nat, step: nat, src: seq<Byte>, n: nat, k: nat)
    requires Handles(f, ThereAndBack) && Laid(f, first, step, n, |s|) && Laid(f, 0, Width(f), n, |src|) && k <= n
    ensures Laid(f, first, step, k, |s|) && Laid(f, 0, Width(f), k, |src|)
    ensures Gathered(f, ToHost, Scattered(f, s, first, step, src, n), first, step, k)
            == Gathered(f, ThereAndBack, src, 0, Width(f), k)
    decreases k
  {
    hide Slot, Laid, Width, Scattered, Group;
    if k < n {
      LaidLess(f, first, step, n, |s|, k);
      LaidLess(f, 0, Width(f), n, |src|, k);
    }
    if k > 0 {
      ReadBack(f, s, first, step, src, n, k - 1);
      LaidLess(f, first, step, n, |s|, k - 1);
      LaidLess(f, 0, Width(f), n, |src|, k - 1);
      SlotHolds(f, s, first, step, src, n, k - 1);
      GroupBack(f, src, Slot(0, Width(f), k - 1), Scattered(f, s, first, step, src, n), Slot(first, step, k - 1));
    }
  }

  lemma GroupBack(f: Format, src: seq<Byte>, from: nat, s: seq<Byte>, at: nat)
    requires Handles(f, ThereAndBack) && from + Width(f) <= |src| && at + Width(f) <= |s|
    requires s[at..at + Width(f)] == Group(f, ToHardware, src, from)
    ensures Group(f, ToHost, s, at) == Group(f, ThereAndBack, src, from)
  {
    hide MappedAll, Total;
    WriteThenRead(f, src[from..from + Width(f)], f.repeat);
  }

  /** Reading another channel gives what it gave before. */
  lemma {:induction false} OtherChannelKept(f: Format, s: seq<Byte>, first: nat, step: nat, src: seq<Byte>, n: nat,
                                            g: Format, way: Way, other: nat, m: nat)
    requires Handles(f, ToHardware) && Laid(f, first, step, n, |s|) && Laid(f, 0, Width(f), n, |src|)
    requires Handles(g, way) && Laid(g, other, step, m, |s|) && Apart(f, first, g, other)
    ensures Gathered(g, way, Scattered(f, s, first, step, src, n), other, step, m)
            == Gathered(g, way, s, other, step, m)
    decreases m
  {
    hide Slot, Laid, Width, Scattered, Apart, Group, Handles;
    if m > 0 {
      var after, at := Scattered(f, s, first, step, src, n), Slot(other, step, m - 1);
      LaidLess(g, other, step, m, |s|, m - 1);
      OtherChannelKept(f, s, first, step, src, n, g, way, other, m - 1);
      OtherSlotKept(f, s, first, step, src, n, g, other, m, m - 1);
      GroupKept(g, way, after, s, at);
    }
  }

  lemma GroupKept(g: Format, way: Way, s: seq<Byte>, t: seq<Byte>, at: nat)
    requires Handles(g, way) && at + Width(g) <= |s| == |t|
    requires s[at..at + Width(g)] == t[at..at + Width(g)]
    ensures Group(g, way, s, at) == Group(g, way, t, at)
  {
  }

  /** A byte in none of the channel's slots keeps its value. */
  lemma {:induction false} OutsideKept(f: Format, s: seq<Byte>, first: nat, step: nat, src: seq<Byte>, n: nat, p: nat)
    requires Handles(f, ToHardware) && Laid(f, first, step, n, |s|) && Laid(f, 0, Width(f), n, |src|) && p < |s|
    requires forall k: nat :: k < n ==> p < Slot(first, step, k) || Slot(first, step, k) + Width(f) <= p
    ensures Scattered(f, s, first, step, src, n)[p] == s[p]
  {
    hide Slot, Width, Laid, Group, Handles;
    if n > 0 {
      LaidLess(f, first, step, n, |s|, n - 1);
      LaidLess(f, 0, Width(f), n, |src|, n - 1);
      OutsideKept(f, s, first, step, src, n - 1, p);
    }
  }

  // ------------------------------------------------------ the loops in memory

  /** How many samples a transfer of len bytes covers. */
  function Count(first: nat, end: nat, n: nat, width: nat, len: nat): nat
    requires width >= 1
  {
    if first >= end then 0 else if len / width < n then len / width else n
  }

  /** It is as many as both the buffer and the transfer have. */
  lemma CountMost(first: nat, end: nat, n: nat, width: nat, len: nat)
    requires width >= 1
    ensures var c := Count(first, end, n, width, len);
            && (first >= end ==> c == 0)
            && (first < end ==> c <= n && c * width <= len && (c < n ==> len < (c + 1) * width))
  {
    var q := len / width;
    assert len == q * width + len % width && (q + 1) * width == q * width + width;
    var c := Count(first, end, n, width, len);
    if first < end && c < q {
      MulMono(c, q, width);
    }
  }

  /** The loop stops at the end of the buffer or when no whole group is left. */
  lemma CountReached(first: nat, end: nat, n: nat, width: nat, len: nat, step: nat, k: nat)
    requires width >= 1 && end == Slot(0, step, n) && (first < end ==> first + width <= step)
    requires k <= Count(first, end, n, width, len)
    ensures k < Count(first, end, n, width, len)
            <==> Slot(first, step, k) < end && Slot(0, width, k) + width <= len
    ensures Slot(first, step, k + 1) == Slot(first, step, k) + step
    ensures Slot(0, width, k + 1) == Slot(0, width, k) + width
  {
    SlotRow(first, step, k);
    SlotRow(0, width, k);
    var q := len / width;
    assert len == q * width + len % width && (q + 1) * width == q * width + width;
    if first < end {
      if k < n {
        SlotFits(first, step, width, n, k);
      }
      if k < q {
        MulMono(k + 1, q, width);
      }
    } else {
      MulMono(0, k, step);
    }
  }

  lemma WidthPositive(f: Format)
    requires Len(f) >= 1 && f.repeat >= 1
    ensures Width(f) >= 1
  {
    MulMono(1, f.repeat, Len(f));
  }

  lemma CountLaid(f: Format, first: nat, step: nat, end: nat, n: nat, size: nat, len: nat, srcSize: nat)
    requires Len(f) >= 1 && f.repeat >= 1 && end == Slot(0, step, n) <= size && len <= srcSize
    requires first < end ==> first + Width(f) <= step
    ensures Width(f) >= 1
    ensures Laid(f, first, step, Count(first, end, n, Width(f), len), size)
    ensures Laid(f, 0, Width(f), Count(first, end, n, Width(f), len), srcSize)
  {
    WidthPositive(f);
    hide Width;
    var w := Width(f);
    var c, q := Count(first, end, n, w, len), len / w;
    assert len == q * w + len % w;
    if first < end {
      MulMono(c, n, step);
      MulMono(c, q, w);
    }
  }

  /** The buffer after n groups were written; samples of more than 1024 bytes are not converted. */
  function Stored(f: Format, s: seq<Byte>, first: nat, step: nat, src: seq<Byte>, n: nat): (r: seq<Byte>)
    requires Handles(f, ToHardware) && Laid(f, first, step, n, |s|) && Laid(f, 0, Width(f), n, |src|)
    ensures |r| == |s|
  {
    if Len(f) > SCRATCH then s else Scattered(f, s, first, step, src, n)
  }

  /** iio_channel_write: the groups in the first len bytes of src go to the channel's slots.
      first and step come from iio_buffer_first and iio_buffer_step; end is n whole steps. */
  method Write(f: Format, buf: array<Byte>, first: nat, step: nat, end: nat, src: array<Byte>, len: nat, ghost n: nat)
    returns (written: nat)
    requires Handles(f, ToHardware) && Len(f) >= 1 && f.repeat >= 1 && buf != src && len <= src.Length
    requires end == Slot(0, step, n) <= buf.Length && (first < end ==> first + Width(f) <= step)
    modifies buf
    ensures Width(f) >= 1
    ensures var c := Count(first, end, n, Width(f), len);
            && Laid(f, first, step, c, buf.Length) && Laid(f, 0, Width(f), c, src.Length)
            && written == Slot(0, Width(f), c)
            && buf[..] == Stored(f, old(buf[..]), first, step, src[..], c)
  {
    ghost var was, from := buf[..], src[..];
    var length := Width(f);
    CountLaid(f, first, step, end, n, buf.Length, len, src.Length);
    ghost var c := Count(first, end, n, Width(f), len);
    assert length == Width(f) && Stored(f, was, first, step, from, 0) == was;
    assert Slot(first, step, 0) == first && Slot(0, length, 0) == 0;
    ghost var k: nat := 0;
    var dst, at := first, 0;
    hide Slot, Width, Laid, Handles, Len, Total, Count, Stored;
    CountReached(first, end, n, length, len, step, 0);
    while dst < end && at + length <= len
      invariant k <= c && dst == Slot(first, step, k) && at == Slot(0, length, k)
      invariant k < c <==> dst < end && at + length <= len
      invariant Laid(f, first, step, k, buf.Length) && Laid(f, 0, length, k, src.Length)
      invariant buf[..] == Stored(f, was, first, step, from, k)
      decreases c - k
    {
      LaidLess(f, first, step, c, buf.Length, k);
      LaidLess(f, 0, length, c, src.Length, k);
      WriteOne(f, buf, first, step, src, dst, at, was, k);
      CountReached(first, end, n, length, len, step, k);
      CountReached(first, end, n, length, len, step, k + 1);
      k := k + 1;
      dst := dst + step;
      at := at + length;
    }
    return at;
  }

  method WriteOne(f: Format, buf: array<Byte>, ghost first: nat, ghost step: nat, src: array<Byte>, dst: nat, at: nat,
                  ghost was: seq<Byte>, ghost k: nat)
    requires Handles(f, ToHardware) && buf != src && |was| == buf.Length
    requires Laid(f, first, step, k + 1, buf.Length) && Laid(f, 0, Width(f), k + 1, src.Length)
    requires Laid(f, first, step, k, buf.Length) && Laid(f, 0, Width(f), k, src.Length)
    requires dst == Slot(first, step, k) && at == Slot(0, Width(f), k)
    requires dst + Width(f) <= buf.Length && at + Width(f) <= src.Length
    requires buf[..] == Stored(f, was, first, step, src[..], k)
    modifies buf
    ensures buf[..] == Stored(f, was, first, step, src[..], k + 1)
  {
    hide Slot, Laid, Len, Total, MappedAll;
    ConvertInverse(f, buf, dst, src, at);
  }

  lemma {:induction false} GatheredSize(f: Format, way: Way, s: seq<Byte>, first: nat, step: nat, n: nat)
    requires Handles(f, way) && Laid(f, first, step, n, |s|)
    ensures |Gathered(f, way, s, first, step, n)| == Slot(0, Width(f), n)
  {
    hide Width, Laid, Group, Handles;
    if n > 0 {
      LaidLess(f, first, step, n, |s|, n - 1);
      GatheredSize(f, way, s, first, step, n - 1);
      assert Slot(0, Width(f), n) == Slot(0, Width(f), n - 1) + Width(f) by {
        OneLess(n, Width(f));
      }
      hide Slot;
    }
  }

  /** Group k of a row, where it lies in what was gathered. */
  lemma {:induction false} GroupOf(f: Format, way: Way, s: seq<Byte>, first: nat, step: nat, n: nat, k: nat)
    requires Handles(f, way) && Laid(f, first, step, n, |s|) && k < n
    ensures Slot(first, step, k) + Width(f) <= |s|
    ensures Slot(0, Width(f), k) + Width(f) <= |Gathered(f, way, s, first, step, n)|
    ensures Gathered(f, way, s, first, step, n)[Slot(0, Width(f), k)..Slot(0, Width(f), k) + Width(f)]
         == Group(f, way, s, Slot(first, step, k))
    decreases n
  {
    hide Width, Laid, Group, Handles, Slot;
    LaidLess(f, first, step, n, |s|, n - 1);
    GatheredSize(f, way, s, first, step, n - 1);
    if k < n - 1 {
      GroupOf(f, way, s, first, step, n - 1, k);
    }
  }

  /** The sample at position at has come back with the value its format carries. */
  predicate SampleCarried(f: Format, src: seq<Byte>, got: seq<Byte>, at: nat)
    requires Fits(f)
  {
    && at + Len(f) <= |src| && at + Len(f) <= |got|
    && Val(got[at..at + Len(f)]) == Normalised(f, Val(src[at..at + Len(f)]))
  }

  /** So have all samples of n groups. */
  predicate ValuesCarried(f: Format, src: seq<Byte>, got: seq<Byte>, n: nat)
    requires Fits(f)
  {
    forall k: nat, i: nat :: k < n && i < f.repeat ==> SampleCarried(f, src, got, Slot(0, Width(f), k) + Total(f, i))
  }

  lemma ValueCarried(f: Format, src: seq<Byte>, n: nat, k: nat, i: nat)
    requires Fits(f) && Handles(f, ThereAndBack) && Laid(f, 0, Width(f), n, |src|) && k < n && i < f.repeat
    ensures SampleCarried(f, src, Gathered(f, ThereAndBack, src, 0, Width(f), n), Slot(0, Width(f), k) + Total(f, i))
  {
    hide Slot, Laid, Handles, MappedAll, Gathered, Total, Len, Val, Normalised, Converted, Inverted;
    var got, at, j := Gathered(f, ThereAndBack, src, 0, Width(f), n), Slot(0, Width(f), k), Total(f, i);
    GroupOf(f, ThereAndBack, src, 0, Width(f), n, k);
    var group := src[at..at + Width(f)];
    SampleOf(f, ThereAndBack, group, f.repeat, i);
    PartOfPart(got, at, Width(f), j, Len(f));
    PartOfPart(src, at, Width(f), j, Len(f));
    HostRoundTrip(f, src[at + j..at + j + Len(f)]);
  }

  /** Value by value: what is read back is what was written, masked or sign-extended. */
  lemma GroupsCarried(f: Format, src: seq<Byte>, n: nat)
    requires Fits(f) && Handles(f, ThereAndBack) && Laid(f, 0, Width(f), n, |src|)
    ensures ValuesCarried(f, src, Gathered(f, ThereAndBack, src, 0, Width(f), n), n)
  {
    hide SampleCarried, Gathered, Fits, Handles, Laid, Width, Slot, Total;
    forall k: nat, i: nat | k < n && i < f.repeat
      ensures SampleCarried(f, src, Gathered(f, ThereAndBack, src, 0, Width(f), n), Slot(0, Width(f), k) + Total(f, i))
    {
      ValueCarried(f, src, n, k, i);
    }
  }

  /** After writing: sample i of group k lies in the k-th sample of the buffer, in the byte order,
      at the shift and with the bits of the format. */
  lemma WrittenValues(f: Format, s: seq<Byte>, first: nat, step: nat, src: seq<Byte>, n: nat, k: nat, i: nat)
    requires Handles(f, ToHardware) && Laid(f, first, step, n, |s|) && Laid(f, 0, Width(f), n, |src|)
    requires k < n && i < f.repeat
    ensures WritesAs(f, src, Slot(0, Width(f), k) + Total(f, i),
                     Scattered(f, s, first, step, src, n), Slot(first, step, k) + Total(f, i))
  {
    hide Laid, MappedAll, Scattered, Total, Len, Val, BigVal, Inverted, Pow2, Slot, Inside;
    var r, w, j := Scattered(f, s, first, step, src, n), Width(f), Total(f, i);
    SlotHolds(f, s, first, step, src, n, k);
    var to, from := Slot(first, step, k), Slot(0, w, k);
    SampleOf(f, ToHardware, src[from..from + w], f.repeat, i);
    PartOfPart(r, to, w, j, Len(f));
    PartOfPart(src, from, w, j, Len(f));
    InvertedValue(f, src[from + j..from + j + Len(f)]);
  }

  /** After reading: sample i of group k is what the k-th sample of the buffer stands for. */
  lemma ReadValues(f: Format, s: seq<Byte>, first: nat, step: nat, n: nat, k: nat, i: nat)
    requires Handles(f, ToHost) && Laid(f, first, step, n, |s|) && k < n && i < f.repeat
    ensures ReadsAs(f, s, Slot(first, step, k) + Total(f, i),
                    Gathered(f, ToHost, s, first, step, n), Slot(0, Width(f), k) + Total(f, i))
  {
    hide Laid, MappedAll, Gathered, Total, Len, Val, BigVal, Converted, ConvertValue, Inside, Slot;
    var r, w, j := Gathered(f, ToHost, s, first, step, n), Width(f), Total(f, i);
    GroupOf(f, ToHost, s, first, step, n, k);
    var from, to := Slot(first, step, k), Slot(0, w, k);
    SampleOf(f, ToHost, s[from..from + w], f.repeat, i);
    PartOfPart(r, to, w, j, Len(f));
    PartOfPart(s, from, w, j, Len(f));
    ConvertedValue(f, s[from + j..from + j + Len(f)]);
  }

  /** One group more in the destination. */
  lemma GatheredMore(f: Format, way: Way, was: seq<Byte>, s: seq<Byte>, first: nat, step: nat, k: nat)
    requires Handles(f, way) && Laid(f, first, step, k + 1, |s|) && Laid(f, first, step, k, |s|)
    requires Slot(first, step, k) + Width(f) <= |s|
    requires |Gathered(f, way, s, first, step, k)| + Width(f) <= |was|
    ensures |Gathered(f, way, s, first, step, k + 1)| == |Gathered(f, way, s, first, step, k)| + Width(f)
    ensures Splice(was, 0, Gathered(f, way, s, first, step, k + 1))
            == Splice(Splice(was, 0, Gathered(f, way, s, first, step, k)),
                      |Gathered(f, way, s, first, step, k)|, Group(f, way, s, Slot(first, step, k)))
  {
    hide Slot, Laid, Width, Group, Handles, Splice;
    SpliceAppend(was, 0, Gathered(f, way, s, first, step, k), Group(f, way, s, Slot(first, step, k)));
  }

  lemma ReadsGroup(f: Format, a: seq<Byte>, d: nat, b: seq<Byte>, s: nat)
    requires Handles(f, ToHost) && d + Width(f) <= |a| && s + Width(f) <= |b|
    ensures Inside(f) && Width(f) == Total(f, f.repeat)
    ensures Progress(f, ToHost, a, d, b, s, f.repeat) == Splice(a, d, Group(f, ToHost, b, s))
  {
    hide MappedAll, Total;
  }

  /** iio_channel_read: the channel's slots, converted, go one behind the other into the
      first len bytes of dst. */
  method Read(f: Format, buf: array<Byte>, first: nat, step: nat, end: nat, dst: array<Byte>, len: nat, ghost n: nat)
    returns (read: nat)
    requires Handles(f, ToHost) && Len(f) >= 1 && f.repeat >= 1 && buf != dst && len <= dst.Length
    requires end == Slot(0, step, n) <= buf.Length && (first < end ==> first + Width(f) <= step)
    modifies dst
    ensures Width(f) >= 1
    ensures var c := Count(first, end, n, Width(f), len);
            && Laid(f, first, step, c, buf.Length)
            && read == Slot(0, Width(f), c) == |Gathered(f, ToHost, buf[..], first, step, c)| <= dst.Length
            && dst[..] == Splice(old(dst[..]), 0, Gathered(f, ToHost, buf[..], first, step, c))
  {
    ghost var was, from := dst[..], buf[..];
    var length := Width(f);
    CountLaid(f, first, step, end, n, buf.Length, len, dst.Length);
    ghost var c := Count(first, end, n, Width(f), len);
    assert length == Width(f) && Gathered(f, ToHost, from, first, step, 0) == [];
    assert Slot(first, step, 0) == first && Slot(0, length, 0) == 0;
    assert was == Splice(was, 0, []);
    ghost var k: nat := 0;
    var src, at := first, 0;
    hide Slot, Width, Laid, Handles, Len, Total, Count, Gathered, Splice;
    CountReached(first, end, n, length, len, step, 0);
    while src < end && at + length <= len
      invariant k <= c && src == Slot(first, step, k) && at == Slot(0, length, k) <= dst.Length
      invariant k < c <==> src < end && at + length <= len
      invariant Laid(f, first, step, k, buf.Length)
      invariant |Gathered(f, ToHost, from, first, step, k)| == at
      invariant dst[..] == Splice(was, 0, Gathered(f, ToHost, from, first, step, k))
      decreases c - k
    {
      LaidLess(f, first, step, c, buf.Length, k);
      ReadOne(f, buf, first, step, dst, src, at, was, k);
      CountReached(first, end, n, length, len, step, k);
      CountReached(first, end, n, length, len, step, k + 1);
      k := k + 1;
      src := src + step;
      at := at + length;
      GatheredSize(f, ToHost, from, first, step, k);
    }
    return at;
  }

  method ReadOne(f: Format, buf: array<Byte>, ghost first: nat, ghost step: nat, dst: array<Byte>, src: nat, at: nat,
                 ghost was: seq<Byte>, ghost k: nat)
    requires Handles(f, ToHost) && buf != dst && |was| == dst.Length
    requires Laid(f, first, step, k + 1, buf.Length) && Laid(f, first, step, k, buf.Length)
    requires src == Slot(first, step, k) && src + Width(f) <= buf.Length && at + Width(f) <= dst.Length
    requires at == |Gathered(f, ToHost, buf[..], first, step, k)|
    requires dst[..] == Splice(was, 0, Gathered(f, ToHost, buf[..], first, step, k))
    modifies dst
    ensures |Gathered(f, ToHost, buf[..], first, step, k + 1)| == at + Width(f)
    ensures dst[..] == Splice(was, 0, Gathered(f, ToHost, buf[..], first, step, k + 1))
  {
    hide *;
    GatheredMore(f, ToHost, was, buf[..], first, step, k);
    ReadsGroup(f, dst[..], at, buf[..], src);
    Convert(f, dst, at, buf, src);
  }

  // ------------------------------------------------------- all channels at once

  /** Writing n groups from src to the channel at some position. */
  datatype Transfer = Transfer(channel: nat, src: seq<Byte>, n: nat)

  predicate Proper(cs: seq<Channel>, mask: set<nat>, samples: nat, t: Transfer) {
    && t.channel < |cs| && Taken(cs[t.channel], mask) && Handles(cs[t.channel].format, ThereAndBack)
    && Len(cs[t.channel].format) <= SCRATCH
    && t.n <= samples && Laid(cs[t.channel].format, 0, Width(cs[t.channel].format), t.n, |t.src|)
  }

  /** A buffer of whole samples has room for every channel at iio_buffer_first. */
  lemma ChannelLaid(cs: seq<Channel>, mask: set<nat>, k: nat, samples: nat, n: nat, size: nat)
    requires Sized(cs, mask) && k < |cs| && Taken(cs[k], mask) && n <= samples
    requires Slot(0, Extent(cs, mask, |cs|), samples) <= size
    ensures Laid(cs[k].format, FirstOf(cs, mask, k), Extent(cs, mask, |cs|), n, size)
  {
    SlotsInside(cs, mask, k);
    WidthIsFull(cs[k]);
    hide Extent, FirstOf, Width, Full;
    MulMono(n, samples, Extent(cs, mask, |cs|));
  }

  lemma WidthIsFull(c: Channel)
    ensures Width(c.format) == Full(c)
  {
    hide Len;
    assert c.format.repeat * Len(c.format) == Len(c.format) * c.format.repeat;
  }

  lemma ChannelsApart(cs: seq<Channel>, mask: set<nat>, j: nat, k: nat)
    requires Sized(cs, mask) && j < |cs| && k < |cs| && j != k && Taken(cs[j], mask) && Taken(cs[k], mask)
    ensures Apart(cs[j].format, FirstOf(cs, mask, j), cs[k].format, FirstOf(cs, mask, k))
  {
    WidthIsFull(cs[j]);
    WidthIsFull(cs[k]);
    if j < k {
      SlotsApart(cs, mask, j, k);
    } else {
      SlotsApart(cs, mask, k, j);
    }
    hide FirstOf, Full, Width;
  }

  function AfterTransfer(cs: seq<Channel>, mask: set<nat>, samples: nat, s: seq<Byte>, t: Transfer): (r: seq<Byte>)
    requires Sized(cs, mask) && Proper(cs, mask, samples, t)
    requires Slot(0, Extent(cs, mask, |cs|), samples) <= |s|
    ensures |r| == |s|
  {
    ChannelLaid(cs, mask, t.channel, samples, t.n, |s|);
    Scattered(cs[t.channel].format, s, FirstOf(cs, mask, t.channel), Extent(cs, mask, |cs|), t.src, t.n)
  }

  function AfterAll(cs: seq<Channel>, mask: set<nat>, samples: nat, s: seq<Byte>, ts: seq<Transfer>): (r: seq<Byte>)
    requires Sized(cs, mask) && forall t :: t in ts ==> Proper(cs, mask, samples, t)
    requires Slot(0, Extent(cs, mask, |cs|), samples) <= |s|
    ensures |r| == |s|
  {
    if ts == [] then s
    else AfterTransfer(cs, mask, samples, AfterAll(cs, mask, samples, s, ts[..|ts| - 1]), ts[|ts| - 1])
  }

  /** What iio_channel_read delivers for channel k. */
  function Demuxed(cs: seq<Channel>, mask: set<nat>, samples: nat, s: seq<Byte>, k: nat, n: nat): seq<Byte>
    requires Sized(cs, mask) && k < |cs| && Taken(cs[k], mask) && Handles(cs[k].format, ToHost) && n <= samples
    requires Slot(0, Extent(cs, mask, |cs|), samples) <= |s|
  {
    ChannelLaid(cs, mask, k, samples, n, |s|);
    Gathered(cs[k].format, ToHost, s, FirstOf(cs, mask, k), Extent(cs, mask, |cs|), n)
  }

  lemma {:induction false} TransfersElsewhere(cs: seq<Channel>, mask: set<nat>, samples: nat, s: seq<Byte>,
                                              ts: seq<Transfer>, k: nat, n: nat)
    requires Sized(cs, mask) && forall t :: t in ts ==> Proper(cs, mask, samples, t) && t.channel != k
    requires Slot(0, Extent(cs, mask, |cs|), samples) <= |s|
    requires k < |cs| && Taken(cs[k], mask) && Handles(cs[k].format, ToHost) && n <= samples
    ensures Demuxed(cs, mask, samples, AfterAll(cs, mask, samples, s, ts), k, n) == Demuxed(cs, mask, samples, s, k, n)
  {
    if ts != [] {
      TransfersElsewhere(cs, mask, samples, s, ts[..|ts| - 1], k, n);
      TransferElsewhere(cs, mask, samples, AfterAll(cs, mask, samples, s, ts[..|ts| - 1]), ts[|ts| - 1], k, n);
    }
    hide Demuxed, AfterTransfer, Proper, Sized, Taken, Slot, Extent;
  }

  lemma TransferElsewhere(cs: seq<Channel>, mask: set<nat>, samples: nat, s: seq<Byte>, t: Transfer, k: nat, n: nat)
    requires Sized(cs, mask) && Proper(cs, mask, samples, t) && t.channel != k
    requires Slot(0, Extent(cs, mask, |cs|), samples) <= |s|
    requires k < |cs| && Taken(cs[k], mask) && Handles(cs[k].format, ToHost) && n <= samples
    ensures Demuxed(cs, mask, samples, AfterTransfer(cs, mask, samples, s, t), k, n)
            == Demuxed(cs, mask, samples, s, k, n)
  {
    hide Gathered, Scattered, Laid, Width, FirstOf, Extent, Slot, Apart;
    var size := Extent(cs, mask, |cs|);
    ChannelLaid(cs, mask, t.channel, samples, t.n, |s|);
    ChannelLaid(cs, mask, k, samples, n, |s|);
    ChannelsApart(cs, mask, t.channel, k);
    OtherChannelKept(cs[t.channel].format, s, FirstOf(cs, mask, t.channel), size, t.src, t.n,
                     cs[k].format, ToHost, FirstOf(cs, mask, k), n);
  }

  /** A channel's samples come back, each as its format carries it, whatever is written to the
      other channels afterwards. */
  lemma MuxRoundTrip(cs: seq<Channel>, mask: set<nat>, samples: nat, s: seq<Byte>, t: Transfer, later: seq<Transfer>)
    requires Sized(cs, mask) && Proper(cs, mask, samples, t)
    requires forall u :: u in later ==> Proper(cs, mask, samples, u) && u.channel != t.channel
    requires Slot(0, Extent(cs, mask, |cs|), samples) <= |s|
    ensures Demuxed(cs, mask, samples, AfterAll(cs, mask, samples, AfterTransfer(cs, mask, samples, s, t), later),
                    t.channel, t.n)
            == Gathered(cs[t.channel].format, ThereAndBack, t.src, 0, Width(cs[t.channel].format), t.n)
    ensures Fits(cs[t.channel].format) ==>
              ValuesCarried(cs[t.channel].format, t.src,
                            Demuxed(cs, mask, samples,
                                    AfterAll(cs, mask, samples, AfterTransfer(cs, mask, samples, s, t), later),
                                    t.channel, t.n), t.n)
  {
    if Fits(cs[t.channel].format) {
      GroupsCarried(cs[t.channel].format, t.src, t.n);
    }
    hide ValuesCarried, Fits, Handles;
    hide Gathered, Scattered, Laid, Width, FirstOf, Extent, Slot, AfterAll;
    TransfersElsewhere(cs, mask, samples, AfterTransfer(cs, mask, samples, s, t), later, t.channel, t.n);
    ChannelLaid(cs, mask, t.channel, samples, t.n, |s|);
    ReadBack(cs[t.channel].format, s, FirstOf(cs, mask, t.channel), Extent(cs, mask, |cs|), t.src, t.n, t.n);
  }

  lemma HandlesBoth(f: Format)
    requires Handles(f, ThereAndBack)
    ensures Handles(f, ToHardware) && Handles(f, ToHost)
  {
  }

  lemma StoredShort(f: Format, s: seq<Byte>, first: nat, step: nat, src: seq<Byte>, n: nat)
    requires Handles(f, ToHardware) && Laid(f, first, step, n, |s|) && Laid(f, 0, Width(f), n, |src|)
    requires Len(f) <= SCRATCH
    ensures Stored(f, s, first, step, src, n) == Scattered(f, s, first, step, src, n)
  {
  }

  /** Where the transfer of channel k takes place, and how far it gets. */
  lemma PlaceOf(cs: seq<Channel>, mask: set<nat>, k: nat, samples: nat, size: nat, len: nat, srcSize: nat)
    returns (c: nat)
    requires Sized(cs, mask) && k < |cs| && Taken(cs[k], mask) && cs[k].format.repeat >= 1
    requires Slot(0, Extent(cs, mask, |cs|), samples) == size && len <= srcSize
    ensures Width(cs[k].format) >= 1 && c <= samples
    ensures FirstOf(cs, mask, k) < size ==> FirstOf(cs, mask, k) + Width(cs[k].format) <= Extent(cs, mask, |cs|)
    ensures c == Count(FirstOf(cs, mask, k), size, samples, Width(cs[k].format), len)
    ensures c * Width(cs[k].format) <= len && (c < samples ==> len < (c + 1) * Width(cs[k].format))
    ensures Laid(cs[k].format, FirstOf(cs, mask, k), Extent(cs, mask, |cs|), c, size)
    ensures Laid(cs[k].format, 0, Width(cs[k].format), c, srcSize)
  {
    hide Extent, FirstOf, Width, Slot, Laid, Len, Full;
    var step, first, w := Extent(cs, mask, |cs|), FirstOf(cs, mask, k), Width(cs[k].format);
    SlotsInside(cs, mask, k);
    WidthIsFull(cs[k]);
    WidthPositive(cs[k].format);
    CountLaid(cs[k].format, first, step, size, samples, size, len, srcSize);
    c := Count(first, size, samples, w, len);
    FirstInside(first, w, step, samples);
    CountMost(first, size, samples, w, len);
  }

  lemma FirstInside(first: nat, w: nat, step: nat, samples: nat)
    requires first + w <= step && w >= 1
    ensures samples > 0 ==> first < Slot(0, step, samples)
    ensures samples == 0 ==> Slot(0, step, samples) == 0
  {
    if samples > 0 {
      MulMono(1, samples, step);
    }
  }

  lemma OtherDemuxed(cs: seq<Channel>, mask: set<nat>, samples: nat, s: seq<Byte>, k: nat, src: seq<Byte>, c: nat,
                     j: nat, n: nat)
    requires Sized(cs, mask) && Slot(0, Extent(cs, mask, |cs|), samples) <= |s|
    requires Proper(cs, mask, samples, Transfer(k, src, c)) && j != k
    requires j < |cs| && Taken(cs[j], mask) && Handles(cs[j].format, ToHost) && n <= samples
    requires Laid(cs[k].format, FirstOf(cs, mask, k), Extent(cs, mask, |cs|), c, |s|)
    ensures Demuxed(cs, mask, samples,
                    Scattered(cs[k].format, s, FirstOf(cs, mask, k), Extent(cs, mask, |cs|), src, c), j, n)
            == Demuxed(cs, mask, samples, s, j, n)
  {
    hide Demuxed, Scattered, FirstOf, Extent, Slot, Laid, Width, Sized, Taken, Handles;
    TransferElsewhere(cs, mask, samples, s, Transfer(k, src, c), j, n);
  }

  lemma ProperTransfer(cs: seq<Channel>, mask: set<nat>, samples: nat, k: nat, src: seq<Byte>, c: nat)
    requires k < |cs| && Taken(cs[k], mask) && Handles(cs[k].format, ThereAndBack) && Len(cs[k].format) <= SCRATCH
    requires c <= samples && Laid(cs[k].format, 0, Width(cs[k].format), c, |src|)
    ensures Proper(cs, mask, samples, Transfer(k, src, c))
  {
  }

  lemma SplicedStart(a: seq<Byte>, b: seq<Byte>)
    requires |b| <= |a|
    ensures Splice(a, 0, b)[..|b|] == b
  {
  }

  /** A channel written and read back through the routines that lay the buffer out: size and
      first sample as they compute them. The other channels read as before. */
  method WriteAndRead(cs: seq<Channel>, mask: set<nat>, k: nat, buf: array<Byte>, src: array<Byte>, len: nat,
                      dst: array<Byte>, ghost samples: nat)
    returns (written: nat, read: nat, ghost c: nat)
    requires Ordered(cs) && Sized(cs, mask) && k < |cs| && Taken(cs[k], mask)
    requires Handles(cs[k].format, ThereAndBack) && 1 <= Len(cs[k].format) <= SCRATCH && cs[k].format.repeat >= 1
    requires buf != src && buf != dst && len <= src.Length && len <= dst.Length
    requires Slot(0, Extent(cs, mask, |cs|), samples) == buf.Length
    modifies buf, dst
    ensures Width(cs[k].format) >= 1
    ensures c <= samples && c * Width(cs[k].format) <= len
            && (c < samples ==> len < (c + 1) * Width(cs[k].format))
    ensures var f := cs[k].format;
            && Laid(f, 0, Width(f), c, |old(src[..])|)
            && written == read == Slot(0, Width(f), c) <= dst.Length
            && |Gathered(f, ThereAndBack, old(src[..]), 0, Width(f), c)| == read
            && dst[..] == Splice(old(dst[..]), 0, Gathered(f, ThereAndBack, old(src[..]), 0, Width(f), c))
            && (Fits(f) ==> ValuesCarried(f, old(src[..]), dst[..read], c))
    ensures forall j: nat, n: nat ::
              j < |cs| && j != k && Taken(cs[j], mask) && Handles(cs[j].format, ToHost) && n <= samples ==>
                Demuxed(cs, mask, samples, buf[..], j, n) == Demuxed(cs, mask, samples, old(buf[..]), j, n)
  {
    hide *;
    ghost var was, from := buf[..], src[..];
    HandlesBoth(cs[k].format);
    var size := SampleSize(cs, mask, (|cs| + 31) / 32);
    var first := BufferFirst(cs, mask, mask, k, buf.Length);
    c := PlaceOf(cs, mask, k, samples, buf.Length, len, src.Length);
    written := Write(cs[k].format, buf, first, size, buf.Length, src, len, samples);
    StoredShort(cs[k].format, was, first, size, from, c);
    ghost var now := buf[..];
    read := Read(cs[k].format, buf, first, size, buf.Length, dst, len, samples);
    ReadBack(cs[k].format, was, first, size, from, c, c);
    SplicedStart(old(dst[..]), Gathered(cs[k].format, ThereAndBack, from, 0, Width(cs[k].format), c));
    if Fits(cs[k].format) {
      GroupsCarried(cs[k].format, from, c);
    }
    forall j: nat, n: nat | j < |cs| && j != k && Taken(cs[j], mask) && Handles(cs[j].format, ToHost) && n <= samples
      ensures Demuxed(cs, mask, samples, now, j, n) == Demuxed(cs, mask, samples, was, j, n)
    {
      ProperTransfer(cs, mask, samples, k, from, c);
      OtherDemuxed(cs, mask, samples, was, k, from, c, j, n);
    }
  }
}
