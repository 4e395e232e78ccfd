/** Where the samples of each channel lie in a buffer. */
module ScanLayout {
  import opened Errors
  import opened Powers
  import opened SampleConversion

  datatype Channel = Channel(index: int, number: nat, format: Format)

  /** The bytes of one sample group. */
  function Full(c: Channel): nat {
    Len(c.format) * c.format.repeat
  }

  predicate Taken(c: Channel, mask: set<nat>) {
    c.index >= 0 && c.number in mask
  }

  predicate Sized(cs: seq<Channel>, mask: set<nat>) {
    forall i :: 0 <= i < |cs| && Taken(cs[i], mask) ==> Len(cs[i].format) >= 1 && cs[i].format.repeat >= 1
  }

  /** Indexed channels first, by strictly rising index. */
  predicate Ordered(cs: seq<Channel>) {
    forall i, j :: 0 <= i < j < |cs| && cs[j].index >= 0 ==> 0 <= cs[i].index < cs[j].index
  }

  /** The least multiple of len from p on. */
  function AlignUp(p: nat, len: nat): nat
    requires len >= 1
  {
    if p % len != 0 then p + len - p % len else p
  }

  lemma AlignUpBounds(p: nat, len: nat)
    requires len >= 1
    ensures AlignUp(p, len) % len == 0 && p <= AlignUp(p, len) < p + len
  {
    var h, l := p / len, p % len;
    assert p == h * len + l;
    var a := if l == 0 then h else h + 1;
    assert (h + 1) * len == h * len + len;
    DivModUnique(a * len, len, a, 0);
  }

  lemma AlignUpLeast(p: nat, len: nat, q: nat)
    requires len >= 1 && q % len == 0 && p <= q
    ensures AlignUp(p, len) <= q
  {
    hide AlignUp;
    AlignUpBounds(p, len);
    var a, g := AlignUp(p, len) / len, q / len;
    assert AlignUp(p, len) == a * len && q == g * len;
    assert (g + 1) * len == g * len + len;
    if a <= g {
      MulMono(a, g, len);
    } else {
      MulMono(g + 1, a, len);
    }
  }

  /** Bytes used by the first i channels, each group aligned to its own size. */
  function Extent(cs: seq<Channel>, mask: set<nat>, i: nat): nat
    requires i <= |cs| && Sized(cs, mask)
  {
    if i == 0 then 0
    else
      var p := Extent(cs, mask, i - 1);
      if Taken(cs[i - 1], mask) then
        MulMono(1, cs[i - 1].format.repeat, Len(cs[i - 1].format));
        AlignUp(p, Full(cs[i - 1])) + Full(cs[i - 1])
      else p
  }

  /** The offset of channel k's first sample. */
  function FirstOf(cs: seq<Channel>, mask: set<nat>, k: nat): nat
    requires k < |cs| && Sized(cs, mask) && Len(cs[k].format) >= 1
  {
    AlignUp(Extent(cs, mask, k), Len(cs[k].format))
  }

  lemma {:induction false} ExtentGrows(cs: seq<Channel>, mask: set<nat>, i: nat, j: nat)
    requires i <= j <= |cs| && Sized(cs, mask)
    ensures Extent(cs, mask, i) <= Extent(cs, mask, j)
  {
    hide AlignUp, Len, Full;
    if i < j {
      ExtentGrows(cs, mask, i, j - 1);
      if Taken(cs[j - 1], mask) {
        assert Full(cs[j - 1]) >= 1 by {
          FullPositive(cs[j - 1]);
        }
        AlignUpBounds(Extent(cs, mask, j - 1), Full(cs[j - 1]));
      }
    }
  }

  lemma FullPositive(c: Channel)
    requires Len(c.format) >= 1 && c.format.repeat >= 1
    ensures Full(c) >= 1 && Full(c) % Len(c.format) == 0
  {
    hide Len;
    MulMono(1, c.format.repeat, Len(c.format));
    DivModUnique(Full(c), Len(c.format), c.format.repeat, 0);
  }

  // ------------------------------------------------------------ slots

  /** The slots of two channels in the buffer do not overlap, and lie in rising order. */
  lemma SlotsApart(cs: seq<Channel>, mask: set<nat>, j: nat, k: nat)
    requires Sized(cs, mask) && j < k < |cs| && Taken(cs[j], mask) && Taken(cs[k], mask)
    ensures FirstOf(cs, mask, j) % Len(cs[j].format) == 0
    ensures FirstOf(cs, mask, j) + Full(cs[j]) <= FirstOf(cs, mask, k)
  {
    hide AlignUp, Len, Full;
    SlotEnds(cs, mask, j);
    ExtentGrows(cs, mask, j + 1, k);
    AlignUpBounds(Extent(cs, mask, k), Len(cs[k].format));
  }

  /** A slot is aligned and ends inside the part of the layout up to its channel. */
  lemma SlotEnds(cs: seq<Channel>, mask: set<nat>, k: nat)
    requires Sized(cs, mask) && k < |cs| && Taken(cs[k], mask)
    ensures FirstOf(cs, mask, k) % Len(cs[k].format) == 0
    ensures FirstOf(cs, mask, k) + Full(cs[k]) <= Extent(cs, mask, k + 1)
  {
    hide AlignUp, Len, Full;
    var p, l, w := Extent(cs, mask, k), Len(cs[k].format), Full(cs[k]);
    FullPositive(cs[k]);
    AlignUpBounds(p, l);
    AlignUpBounds(p, w);
    MultipleOfMultiple(AlignUp(p, w), w, l);
    AlignUpLeast(p, l, AlignUp(p, w));
  }

  lemma MultipleOfMultiple(x: nat, w: nat, l: nat)
    requires l >= 1 && w >= 1 && w % l == 0 && x % w == 0
    ensures x % l == 0
  {
    var a, b := x / w, w / l;
    assert x == a * w && w == b * l;
    assert a * (b * l) == (a * b) * l;
    DivModUnique(x, l, a * b, 0);
  }

  /** All slots lie inside the sample size. */
  lemma SlotsInside(cs: seq<Channel>, mask: set<nat>, k: nat)
    requires Sized(cs, mask) && k < |cs| && Taken(cs[k], mask)
    ensures FirstOf(cs, mask, k) + Full(cs[k]) <= Extent(cs, mask, |cs|)
  {
    SlotEnds(cs, mask, k);
    ExtentGrows(cs, mask, k + 1, |cs|);
  }

  // --------------------------------------------------- the routines on any list

  /** The channels from position i on that the loops reach: up to the first without an index. */
  function Leading(cs: seq<Channel>, i: nat): (n: nat)
    requires i <= |cs|
    ensures i <= n <= |cs| && (n < |cs| ==> cs[n].index < 0)
    ensures forall j :: i <= j < n ==> cs[j].index >= 0
    decreases |cs| - i
  {
    if i == |cs| || cs[i].index < 0 then i else Leading(cs, i + 1)
  }

  function Indexed(cs: seq<Channel>): (n: nat)
    ensures n <= |cs| && (n < |cs| ==> cs[n].index < 0)
    ensures forall j :: 0 <= j < n ==> cs[j].index >= 0
  {
    Leading(cs, 0)
  }

  lemma LeadingEnd(cs: seq<Channel>, i: nat, n: nat)
    requires i <= n <= |cs| && (n < |cs| ==> cs[n].index < 0)
    requires forall j :: i <= j < n ==> cs[j].index >= 0
    ensures Leading(cs, i) == n
    decreases n - i
  {
    if i < n {
      LeadingEnd(cs, i + 1, n);
    }
  }

  /** Channels that share an index share their samples, but the two routines tell it from
      different neighbours: the last enabled channel, or the one just before. */
  datatype Rule = BySize | ByFirst

  /** The index of the last enabled channel among the first i, or -1. */
  function LastTaken(cs: seq<Channel>, mask: set<nat>, i: nat): int
    requires i <= |cs|
  {
    if i == 0 then -1 else if Taken(cs[i - 1], mask) then cs[i - 1].index else LastTaken(cs, mask, i - 1)
  }

  predicate Repeats(cs: seq<Channel>, mask: set<nat>, rule: Rule, i: nat)
    requires i < |cs|
  {
    match rule
    case BySize => LastTaken(cs, mask, i) == cs[i].index
    case ByFirst => i > 0 && cs[i - 1].index == cs[i].index
  }

  /** Bytes the first i channels use, by one rule or the other. */
  function Room(cs: seq<Channel>, mask: set<nat>, rule: Rule, i: nat): nat
    requires i <= |cs| && Sized(cs, mask)
  {
    if i == 0 then 0
    else
      var p := Room(cs, mask, rule, i - 1);
      if Taken(cs[i - 1], mask) && !Repeats(cs, mask, rule, i - 1) then
        MulMono(1, cs[i - 1].format.repeat, Len(cs[i - 1].format));
        AlignUp(p, Full(cs[i - 1])) + Full(cs[i - 1])
      else p
  }

  /** Of two enabled neighbours that share an index only the first takes room, by either rule. */
  lemma SharedOnce(cs: seq<Channel>, mask: set<nat>, rule: Rule, i: nat)
    requires Sized(cs, mask) && i + 1 < |cs| && cs[i].index == cs[i + 1].index
    requires Taken(cs[i], mask) && Taken(cs[i + 1], mask)
    ensures Room(cs, mask, rule, i + 2) == Room(cs, mask, rule, i + 1)
  {
    hide AlignUp, Full;
  }

  /** If the first of them is not enabled, the second one's room is there by the size alone. */
  lemma SharedSecond(cs: seq<Channel>, mask: set<nat>)
    requires Sized(cs, mask) && |cs| >= 2 && cs[0].index == cs[1].index
    requires !Taken(cs[0], mask) && Taken(cs[1], mask)
    ensures Room(cs, mask, BySize, 2) == cs[1].format.length / 8 * cs[1].format.repeat
    ensures Room(cs, mask, ByFirst, 2) == 0
  {
    assert LastTaken(cs, mask, 1) == -1 && Room(cs, mask, BySize, 1) == 0 == Room(cs, mask, ByFirst, 1);
    NothingToAlign(Full(cs[1]));
  }

  lemma NothingToAlign(len: nat)
    ensures len >= 1 ==> AlignUp(0, len) == 0
  {
  }

  /** Indices in order, repeats allowed. */
  predicate InOrder(cs: seq<Channel>) {
    forall i, j :: 0 <= i < j < Indexed(cs) ==> cs[i].index <= cs[j].index
  }

  /** Of the channels with the index of an enabled one, the first is enabled, or one in between. */
  predicate GroupsBegin(cs: seq<Channel>, mask: set<nat>) {
    forall i :: 0 < i < Indexed(cs) && Taken(cs[i], mask) && cs[i - 1].index == cs[i].index ==>
                  LastTaken(cs, mask, i) == cs[i].index
  }

  lemma {:induction false} LastTakenAtMost(cs: seq<Channel>, mask: set<nat>, i: nat)
    requires InOrder(cs) && 0 < i <= Indexed(cs)
    ensures LastTaken(cs, mask, i) <= cs[i - 1].index
  {
    hide Indexed;
    if i > 1 {
      LastTakenAtMost(cs, mask, i - 1);
    }
  }

  /** Enabled channels that share an index are told by both rules alike exactly where each run
      of them begins with an enabled one; where not, iio_buffer_first leaves out their room. */
  lemma RulesAgree(cs: seq<Channel>, mask: set<nat>)
    requires Sized(cs, mask) && InOrder(cs)
    ensures (forall n :: 0 <= n <= Indexed(cs) ==> Room(cs, mask, BySize, n) == Room(cs, mask, ByFirst, n))
            <==> GroupsBegin(cs, mask)
  {
    hide Indexed, Room, AlignUp, Full, LastTaken;
    if GroupsBegin(cs, mask) {
      forall n | 0 <= n <= Indexed(cs) ensures Room(cs, mask, BySize, n) == Room(cs, mask, ByFirst, n) {
        RoomsEqual(cs, mask, n);
      }
    } else {
      var i :| 0 < i < Indexed(cs) && Taken(cs[i], mask) && cs[i - 1].index == cs[i].index
               && LastTaken(cs, mask, i) != cs[i].index;
      RoomStep(cs, mask, i);
      assert Room(cs, mask, BySize, i) != Room(cs, mask, ByFirst, i)
          || Room(cs, mask, BySize, i + 1) != Room(cs, mask, ByFirst, i + 1);
    }
  }

  lemma RoomStep(cs: seq<Channel>, mask: set<nat>, i: nat)
    requires Sized(cs, mask) && i < |cs|
    ensures Room(cs, mask, BySize, 0) == Room(cs, mask, ByFirst, 0) == 0
    ensures Taken(cs[i], mask) && LastTaken(cs, mask, i) != cs[i].index ==>
              Room(cs, mask, BySize, i + 1) > Room(cs, mask, BySize, i)
    ensures i > 0 && cs[i - 1].index == cs[i].index ==> Room(cs, mask, ByFirst, i + 1) == Room(cs, mask, ByFirst, i)
    ensures Room(cs, mask, BySize, i) == Room(cs, mask, ByFirst, i)
            && (Taken(cs[i], mask) ==>
                  (LastTaken(cs, mask, i) == cs[i].index <==> i > 0 && cs[i - 1].index == cs[i].index)) ==>
              Room(cs, mask, BySize, i + 1) == Room(cs, mask, ByFirst, i + 1)
  {
    if Taken(cs[i], mask) {
      FullPositive(cs[i]);
      AlignUpBounds(Room(cs, mask, BySize, i), Full(cs[i]));
    }
    hide AlignUp, Full, LastTaken;
  }

  lemma {:induction false} RoomsEqual(cs: seq<Channel>, mask: set<nat>, n: nat)
    requires Sized(cs, mask) && InOrder(cs) && GroupsBegin(cs, mask) && n <= Indexed(cs)
    ensures Room(cs, mask, BySize, n) == Room(cs, mask, ByFirst, n)
  {
    hide Indexed, Room, AlignUp, Full, LastTaken;
    if n > 0 {
      RoomsEqual(cs, mask, n - 1);
      if n > 1 {
        LastTakenAtMost(cs, mask, n - 1);
      } else {
        NoneTaken(cs, mask);
      }
      RoomStep(cs, mask, n - 1);
    } else {
      RoomStart(cs, mask);
    }
  }

  lemma NoneTaken(cs: seq<Channel>, mask: set<nat>)
    ensures LastTaken(cs, mask, 0) == -1
  {
  }

  lemma RoomStart(cs: seq<Channel>, mask: set<nat>)
    requires Sized(cs, mask)
    ensures Room(cs, mask, BySize, 0) == Room(cs, mask, ByFirst, 0) == 0
  {
  }

  /** No room is lost: a channel begins at the first multiple of its length behind the others,
      and the layout grows by a whole group at the first multiple of the group. */
  lemma LayoutTight(cs: seq<Channel>, mask: set<nat>, k: nat)
    requires Sized(cs, mask) && k < |cs| && Taken(cs[k], mask)
    ensures var len, group, used := cs[k].format.length / 8, Full(cs[k]), Extent(cs, mask, k);
            var first, grown := FirstOf(cs, mask, k), Extent(cs, mask, k + 1);
            && group == len * cs[k].format.repeat
            && first % len == 0 && used <= first < used + len
            && grown >= group && (grown - group) % group == 0 && used <= grown - group < used + group
            && Extent(cs, mask, 0) == 0
  {
    FullPositive(cs[k]);
    AlignUpBounds(Extent(cs, mask, k), Len(cs[k].format));
    AlignUpBounds(Extent(cs, mask, k), Full(cs[k]));
    hide AlignUp;
  }

  lemma {:induction false} LastTakenBelow(cs: seq<Channel>, mask: set<nat>, i: nat, k: nat)
    requires Ordered(cs) && i <= k < |cs| && cs[k].index >= 0
    ensures LastTaken(cs, mask, i) < cs[k].index
  {
    if i > 0 && !Taken(cs[i - 1], mask) {
      LastTakenBelow(cs, mask, i - 1, k);
    }
  }

  /** With distinct indices in order neither rule ever applies. */
  lemma {:induction false} RoomOrdered(cs: seq<Channel>, mask: set<nat>, rule: Rule, i: nat)
    requires Ordered(cs) && Sized(cs, mask) && i <= |cs|
    ensures Room(cs, mask, rule, i) == Extent(cs, mask, i)
  {
    hide AlignUp, Len, Full, LastTaken;
    if i > 0 {
      RoomOrdered(cs, mask, rule, i - 1);
      if cs[i - 1].index >= 0 {
        LastTakenBelow(cs, mask, i - 1, i - 1);
      }
    }
  }

  lemma {:induction false} NegativesTakeNothing(cs: seq<Channel>, mask: set<nat>, i: nat, j: nat)
    requires Sized(cs, mask) && Ordered(cs) && i <= j <= |cs| && (i < j ==> cs[i].index < 0)
    ensures Extent(cs, mask, j) == Extent(cs, mask, i)
  {
    if i < j {
      NegativesTakeNothing(cs, mask, i, j - 1);
      assert cs[j - 1].index < 0;
    }
  }

  lemma SizeOrdered(cs: seq<Channel>, mask: set<nat>)
    requires Ordered(cs) && Sized(cs, mask)
    ensures Room(cs, mask, BySize, Indexed(cs)) == Extent(cs, mask, |cs|)
  {
    RoomOrdered(cs, mask, BySize, Indexed(cs));
    NegativesTakeNothing(cs, mask, Indexed(cs), |cs|);
  }

  /** iio_device_get_sample_size_mask. */
  method SampleSize(cs: seq<Channel>, mask: set<nat>, words: nat) returns (r: int)
    requires Sized(cs, mask)
    ensures words != (|cs| + 31) / 32 ==> r == -EINVAL
    ensures words == (|cs| + 31) / 32 ==> r == Room(cs, mask, BySize, Indexed(cs))
    ensures words == (|cs| + 31) / 32 && Ordered(cs) ==> r == Extent(cs, mask, |cs|)
  {
    if words != (|cs| + 31) / 32 {
      return -EINVAL;
    }
    hide Len, Full, Leading, Indexed, Extent;
    if Ordered(cs) {
      SizeOrdered(cs, mask);
    }
    var size, i, prev := 0, 0, -1;
    while i < |cs|
      invariant 0 <= i <= |cs| && size == Room(cs, mask, BySize, i)
      invariant prev == LastTaken(cs, mask, i)
      invariant forall j :: 0 <= j < i ==> cs[j].index >= 0
    {
      var chn := cs[i];
      if chn.index < 0 {
        break;
      }
      if chn.number in mask {
        if chn.index != prev {
          FullPositive(chn);
          var length := Full(chn);
          if size % length != 0 {
            size := size + (2 * length - size % length);
          } else {
            size := size + length;
          }
        }
        prev := chn.index;
      }
      i := i + 1;
    }
    IndexedEnd(cs, i);
    return size;
  }

  lemma IndexedEnd(cs: seq<Channel>, n: nat)
    requires n <= |cs| && (n < |cs| ==> cs[n].index < 0) && forall j :: 0 <= j < n ==> cs[j].index >= 0
    ensures Indexed(cs) == n
  {
    LeadingEnd(cs, 0, n);
  }

  /** The first position from i on without an index, or with this one. */
  function StopsAt(cs: seq<Channel>, index: int, i: nat): (n: nat)
    requires i <= |cs|
    ensures i <= n <= |cs|
    decreases |cs| - i
  {
    if i == |cs| || cs[i].index < 0 || cs[i].index == index then i else StopsAt(cs, index, i + 1)
  }

  lemma {:induction false} StopsAtChannel(cs: seq<Channel>, k: nat, i: nat)
    requires Ordered(cs) && i <= k < |cs| && cs[k].index >= 0
    ensures StopsAt(cs, cs[k].index, i) == k
    decreases k - i
  {
    if i < k {
      StopsAtChannel(cs, k, i + 1);
    }
  }

  /** Where iio_buffer_first finds the first sample of channel k, on any list. */
  function StartOf(cs: seq<Channel>, mask: set<nat>, k: nat): nat
    requires k < |cs| && Sized(cs, mask) && Len(cs[k].format) >= 1
  {
    AlignUp(Room(cs, mask, ByFirst, StopsAt(cs, cs[k].index, 0)), Len(cs[k].format))
  }

  lemma StartOrdered(cs: seq<Channel>, mask: set<nat>, k: nat)
    requires Ordered(cs) && k < |cs| && Sized(cs, mask) && Len(cs[k].format) >= 1 && cs[k].index >= 0
    ensures StartOf(cs, mask, k) == FirstOf(cs, mask, k)
  {
    hide AlignUp;
    StopsAtChannel(cs, k, 0);
    RoomOrdered(cs, mask, ByFirst, k);
  }

  /** iio_buffer_first for the channel at position k, as an offset into the buffer; the end
      of the data for a channel that is not enabled. */
  method BufferFirst(cs: seq<Channel>, devMask: set<nat>, mask: set<nat>, k: nat, dataLength: nat)
    returns (r: nat)
    requires Sized(cs, mask) && k < |cs| && (Taken(cs[k], devMask) ==> Len(cs[k].format) >= 1)
    ensures !Taken(cs[k], devMask) ==> r == dataLength
    ensures Taken(cs[k], devMask) ==> r == StartOf(cs, mask, k)
    ensures Taken(cs[k], devMask) && Ordered(cs) ==> r == FirstOf(cs, mask, k)
  {
    hide Len, Full, Extent;
    var chn := cs[k];
    if !(chn.index >= 0 && chn.number in devMask) {
      return dataLength;
    }
    if Ordered(cs) {
      StartOrdered(cs, mask, k);
    }
    var ptr, i := 0, 0;
    while i < |cs|
      invariant 0 <= i <= |cs| && ptr == Room(cs, mask, ByFirst, i)
      invariant StopsAt(cs, chn.index, 0) == StopsAt(cs, chn.index, i)
    {
      var cur := cs[i];
      if cur.index < 0 || cur.index == chn.index {
        break;
      }
      if cur.number in mask && !(i > 0 && cur.index == cs[i - 1].index) {
        FullPositive(cur);
        var len := Full(cur);
        if ptr % len != 0 {
          ptr := ptr + (len - ptr % len);
        }
        ptr := ptr + len;
      }
      i := i + 1;
    }
    var len := Len(chn.format);
    if ptr % len != 0 {
      ptr := ptr + (len - ptr % len);
    }
    return ptr;
  }
}
