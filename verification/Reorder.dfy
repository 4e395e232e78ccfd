/** Sorting the channels of a device by scan index. */
module Reorder {
  import opened SampleConversion
  import Layout = ScanLayout

  class Channel {
    const index: int
    const format: Format
    var number: nat

    constructor (index: int, format: Format)
      ensures this.index == index && this.format == format && number == 0
    {
      this.index, this.format, number := index, format, 0;
    }
  }

  datatype Key = Key(index: int, shift: nat)

  function KeyOf(c: Channel): Key {
    Key(c.index, c.format.shift)
  }

  /** A key k that stands before l but belongs behind it; equal indices are told apart by the
      shift, negative ones belong at the end. */
  predicate Misplaced(k: Key, l: Key) {
    l.index >= 0 && (k.index < 0 || k.index > l.index || (k.index == l.index && k.shift > l.shift))
  }

  predicate Same(k: Key, l: Key) {
    !Misplaced(k, l) && !Misplaced(l, k)
  }

  predicate Inverted(x: Channel, y: Channel) {
    Misplaced(KeyOf(x), KeyOf(y))
  }

  ghost predicate Sorted(s: seq<Channel>) {
    forall i, j :: 0 <= i < j < |s| ==> !Inverted(s[i], s[j])
  }

  /** By index, and by shift where channels share one; channels without an index come last. */
  lemma SortedMeans(s: seq<Channel>)
    ensures Sorted(s) <==>
            forall i, j :: 0 <= i < j < |s| && s[j].index >= 0 ==>
              s[i].index >= 0
              && (s[i].index < s[j].index
                  || (s[i].index == s[j].index && s[i].format.shift <= s[j].format.shift))
  {
    forall i, j | 0 <= i < j < |s|
      ensures !Inverted(s[i], s[j]) <==>
              (s[j].index >= 0 ==>
                 s[i].index >= 0
                 && (s[i].index < s[j].index
                     || (s[i].index == s[j].index && s[i].format.shift <= s[j].format.shift)))
    {
    }
    hide Inverted;
  }

  /** The channels of s with a key like k, in their order. */
  function Group(s: seq<Channel>, k: Key): seq<Channel> {
    if s == [] then []
    else (if Same(KeyOf(s[0]), k) then [s[0]] else []) + Group(s[1..], k)
  }

  /** r holds the channels of s, sorted, equal ones in their old order. */
  ghost predicate Reordered(s: seq<Channel>, r: seq<Channel>) {
    Sorted(r) && Rearranged(s, r)
  }

  ghost predicate Rearranged(s: seq<Channel>, r: seq<Channel>) {
    multiset(r) == multiset(s) && forall k: Key :: Group(r, k) == Group(s, k)
  }

  function After(x: Channel, s: seq<Channel>): nat {
    if s == [] then 0 else (if Inverted(x, s[0]) then 1 else 0) + After(x, s[1..])
  }

  /** The pairs of s in the wrong order. */
  function Inversions(s: seq<Channel>): nat {
    if s == [] then 0 else After(s[0], s[1..]) + Inversions(s[1..])
  }

  /** s with the entries i and i + 1 exchanged. */
  function Exchange(s: seq<Channel>, i: nat): (r: seq<Channel>)
    requires i + 1 < |s|
    ensures |r| == |s|
  {
    s[i := s[i + 1]][i + 1 := s[i]]
  }

  lemma ExchangeTail(s: seq<Channel>, i: nat)
    requires i + 1 < |s|
    ensures i > 0 ==> Exchange(s, i)[0] == s[0] && Exchange(s, i)[1..] == Exchange(s[1..], i - 1)
    ensures i == 0 ==> s == [s[0], s[1]] + s[2..] && Exchange(s, i) == [s[1], s[0]] + s[2..]
  {
  }

  lemma {:induction false} GroupKept(s: seq<Channel>, i: nat, k: Key)
    requires i + 1 < |s| && Inverted(s[i], s[i + 1])
    ensures Group(Exchange(s, i), k) == Group(s, k)
  {
    ExchangeTail(s, i);
    if i > 0 {
      GroupKept(s[1..], i - 1, k);
    } else {
      TwoFirst(s[0], s[1], s[2..], k);
      TwoFirst(s[1], s[0], s[2..], k);
    }
  }

  lemma TwoFirst(x: Channel, y: Channel, s: seq<Channel>, k: Key)
    ensures Group([x, y] + s, k)
         == (if Same(KeyOf(x), k) then [x] else []) + ((if Same(KeyOf(y), k) then [y] else []) + Group(s, k))
  {
    assert ([x, y] + s)[1..] == [y] + s && ([y] + s)[1..] == s;
  }

  lemma {:induction false} AfterKept(x: Channel, s: seq<Channel>, i: nat)
    requires i + 1 < |s|
    ensures After(x, Exchange(s, i)) == After(x, s)
  {
    ExchangeTail(s, i);
    if i > 0 {
      AfterKept(x, s[1..], i - 1);
    } else {
      AfterTwo(x, s[0], s[1], s[2..]);
      AfterTwo(x, s[1], s[0], s[2..]);
    }
  }

  lemma AfterTwo(x: Channel, y: Channel, z: Channel, s: seq<Channel>)
    ensures After(x, [y, z] + s)
         == (if Inverted(x, y) then 1 else 0) + (if Inverted(x, z) then 1 else 0) + After(x, s)
  {
    assert ([y, z] + s)[1..] == [z] + s && ([z] + s)[1..] == s;
  }

  lemma AfterOne(x: Channel, y: Channel, s: seq<Channel>)
    ensures After(x, [y] + s) == (if Inverted(x, y) then 1 else 0) + After(x, s)
  {
    assert ([y] + s)[1..] == s;
  }

  lemma InversionsTwo(x: Channel, y: Channel, s: seq<Channel>)
    ensures Inversions([x, y] + s) == After(x, [y] + s) + After(y, s) + Inversions(s)
  {
    assert ([x, y] + s)[1..] == [y] + s && ([y] + s)[1..] == s;
  }

  /** Exchanging neighbours in the wrong order takes away exactly one inversion. */
  lemma {:induction false} OneInversionLess(s: seq<Channel>, i: nat)
    requires i + 1 < |s| && Inverted(s[i], s[i + 1])
    ensures Inversions(Exchange(s, i)) == Inversions(s) - 1
  {
    hide After;
    ExchangeTail(s, i);
    if i > 0 {
      OneInversionLess(s[1..], i - 1);
      AfterKept(s[0], s[1..], i - 1);
    } else {
      var x, y, r := s[0], s[1], s[2..];
      InversionsTwo(x, y, r);
      InversionsTwo(y, x, r);
      AfterOne(x, y, r);
      AfterOne(y, x, r);
    }
  }

  lemma ExchangeRearranges(s: seq<Channel>, i: nat)
    requires i + 1 < |s| && Inverted(s[i], s[i + 1])
    ensures Rearranged(s, Exchange(s, i))
  {
    forall k: Key ensures Group(Exchange(s, i), k) == Group(s, k) {
      GroupKept(s, i, k);
    }
    SameChannels(s, i);
    hide Group, Inverted, Exchange;
  }

  lemma SameChannels(s: seq<Channel>, i: nat)
    requires i + 1 < |s|
    ensures multiset(Exchange(s, i)) == multiset(s)
  {
    assert s == s[..i] + [s[i], s[i + 1]] + s[i + 2..];
    assert Exchange(s, i) == s[..i] + [s[i + 1], s[i]] + s[i + 2..];
  }

  /** Neighbours in order make the whole sequence sorted. */
  lemma NeighboursSorted(s: seq<Channel>)
    requires forall i :: 0 <= i && i + 1 < |s| ==> !Inverted(s[i], s[i + 1])
    ensures Sorted(s)
  {
    forall i, j | 0 <= i < j < |s| ensures !Inverted(s[i], s[j]) {
      NeverInverted(s, i, j);
    }
  }

  lemma {:induction false} NeverInverted(s: seq<Channel>, i: nat, j: nat)
    requires forall i :: 0 <= i && i + 1 < |s| ==> !Inverted(s[i], s[i + 1])
    requires i < j < |s|
    ensures !Inverted(s[i], s[j])
    decreases j
  {
    if i < j - 1 {
      NeverInverted(s, i, j - 1);
      assert !Inverted(s[j - 1], s[j]);
    }
  }

  // ---------------------------------------------------------------- results

  lemma {:induction false} GroupMember(s: seq<Channel>, k: Key, x: Channel)
    ensures x in Group(s, k) <==> x in s && Same(KeyOf(x), k)
  {
    if s != [] {
      GroupMember(s[1..], k, x);
      assert x in s <==> x == s[0] || x in s[1..];
    }
  }

  /** Only one sequence is sorted and keeps the groups of s. */
  lemma {:induction false} ReorderUnique(a: seq<Channel>, b: seq<Channel>)
    requires Sorted(a) && Sorted(b) && forall k: Key :: Group(a, k) == Group(b, k)
    ensures a == b
  {
    if a == [] && b == [] {
    } else {
      var x := if a != [] then a[0] else b[0];
      GroupMember(a, KeyOf(x), x);
      GroupMember(b, KeyOf(x), x);
      assert x in Group(a, KeyOf(x)) || x in Group(b, KeyOf(x));
      SameHead(a, b);
      forall k: Key ensures Group(a[1..], k) == Group(b[1..], k) {
        Beheaded(a, b, k);
      }
      ReorderUnique(a[1..], b[1..]);
      assert a == [a[0]] + a[1..] && b == [b[0]] + b[1..];
    }
  }

  lemma Beheaded(a: seq<Channel>, b: seq<Channel>, k: Key)
    requires a != [] && b != [] && a[0] == b[0] && Group(a, k) == Group(b, k)
    ensures Group(a[1..], k) == Group(b[1..], k)
  {
    if Same(KeyOf(a[0]), k) {
      assert Group(a, k)[1..] == Group(a[1..], k) && Group(b, k)[1..] == Group(b[1..], k);
    } else {
      assert Group(a, k) == Group(a[1..], k) && Group(b, k) == Group(b[1..], k);
    }
  }

  lemma SameHead(a: seq<Channel>, b: seq<Channel>)
    requires a != [] && b != [] && Sorted(a) && Sorted(b) && forall k: Key :: Group(a, k) == Group(b, k)
    ensures a[0] == b[0]
  {
    var x, y := a[0], b[0];
    GroupMember(b, KeyOf(x), x);
    GroupMember(a, KeyOf(x), x);
    GroupMember(a, KeyOf(y), y);
    GroupMember(b, KeyOf(y), y);
    assert x in Group(b, KeyOf(x)) && y in Group(a, KeyOf(y));
    assert Same(KeyOf(x), KeyOf(y));
    assert Group(a, KeyOf(x))[0] == x && Group(b, KeyOf(x))[0] == y;
  }

  function Unindexed(s: seq<Channel>): seq<Channel> {
    if s == [] then [] else (if s[0].index < 0 then [s[0]] else []) + Unindexed(s[1..])
  }

  lemma {:induction false} UnindexedGroup(s: seq<Channel>)
    ensures Group(s, Key(-1, 0)) == Unindexed(s)
  {
    if s != [] {
      UnindexedGroup(s[1..]);
    }
  }

  /** The channels without an index end up last, in the order they had. */
  lemma UnindexedLast(s: seq<Channel>, r: seq<Channel>)
    requires Reordered(s, r)
    ensures |Unindexed(s)| <= |r| && r[|r| - |Unindexed(s)|..] == Unindexed(s)
    ensures forall i :: 0 <= i < |r| - |Unindexed(s)| ==> r[i].index >= 0
  {
    UnindexedTail(r);
    UnindexedGroup(s);
    UnindexedGroup(r);
  }

  lemma {:induction false} UnindexedTail(r: seq<Channel>)
    requires Sorted(r)
    ensures |Unindexed(r)| <= |r| && r[|r| - |Unindexed(r)|..] == Unindexed(r)
    ensures forall i :: 0 <= i < |r| - |Unindexed(r)| ==> r[i].index >= 0
  {
    if r != [] {
      if r[0].index < 0 {
        forall i | 0 <= i < |r| ensures r[i].index < 0 {
          assert i > 0 ==> !Inverted(r[0], r[i]);
        }
        AllUnindexed(r);
      } else {
        UnindexedTail(r[1..]);
        assert r[1..][|r| - 1 - |Unindexed(r)|..] == r[|r| - |Unindexed(r)|..];
      }
    }
  }

  lemma {:induction false} AllUnindexed(r: seq<Channel>)
    requires forall i :: 0 <= i < |r| ==> r[i].index < 0
    ensures Unindexed(r) == r
  {
    if r != [] {
      AllUnindexed(r[1..]);
    }
  }

  /** No two channels of s share a non-negative index. */
  ghost predicate DistinctIndices(s: seq<Channel>) {
    forall i, j :: 0 <= i < j < |s| && s[i].index >= 0 ==> s[i].index != s[j].index
  }

  lemma OnceIn(s: seq<Channel>, i: nat)
    requires DistinctIndices(s) && i < |s| && s[i].index >= 0
    ensures multiset(s)[s[i]] == 1
  {
    var x := s[i];
    assert s == s[..i] + [x] + s[i + 1..];
    assert x !in s[..i] && x !in s[i + 1..];
  }

  lemma TwiceIn(r: seq<Channel>, i: nat, j: nat)
    requires i < j < |r| && r[i] == r[j]
    ensures multiset(r)[r[i]] >= 2
  {
    var x := r[i];
    assert r == r[..j] + [x] + r[j + 1..];
    assert r[..j][i] == x;
    assert x in multiset(r[..j]);
  }

  ghost predicate NoRepeats(s: seq<Channel>) {
    forall i, j :: 0 <= i < j < |s| ==> s[i] != s[j]
  }

  lemma OnlyOnce(s: seq<Channel>, m: nat)
    requires NoRepeats(s) && m < |s|
    ensures multiset(s)[s[m]] == 1
  {
    assert s == s[..m] + [s[m]] + s[m + 1..];
    assert s[m] !in s[..m] && s[m] !in s[m + 1..];
  }

  lemma StaysUnrepeated(s: seq<Channel>, r: seq<Channel>)
    requires NoRepeats(s) && multiset(r) == multiset(s)
    ensures NoRepeats(r) && forall x :: x in r ==> x in s
  {
    forall x | x in r ensures x in s {
      assert x in multiset(r);
    }
    forall i, j | 0 <= i < j < |r| ensures r[i] != r[j] {
      assert r[i] in r && r[i] in s;
      var m :| 0 <= m < |s| && s[m] == r[i];
      OnlyOnce(s, m);
      if r[i] == r[j] {
        TwiceIn(r, i, j);
      }
    }
  }

  lemma StaysDistinct(s: seq<Channel>, r: seq<Channel>)
    requires DistinctIndices(s) && multiset(r) == multiset(s)
    ensures DistinctIndices(r)
  {
    forall i, j | 0 <= i < j < |r| && r[i].index >= 0 ensures r[i].index != r[j].index {
      var x, y := r[i], r[j];
      assert x in multiset(r) && y in multiset(r);
      var m :| 0 <= m < |s| && s[m] == x;
      var n :| 0 <= n < |s| && s[n] == y;
      OnceIn(s, m);
      if x == y {
        TwiceIn(r, i, j);
      } else {
        assert m < n || n < m;
      }
    }
  }

  /** With distinct indices the result is in the order the scan layout relies on. */
  lemma ReadyForLayout(s: seq<Channel>, r: seq<Channel>)
    requires Reordered(s, r) && DistinctIndices(s)
    ensures Layout.Ordered(seq(|r|, i requires 0 <= i < |r| => Layout.Channel(r[i].index, i, r[i].format)))
  {
    StaysDistinct(s, r);
    forall i, j | 0 <= i < j < |r| && r[j].index >= 0 ensures 0 <= r[i].index < r[j].index {
      assert !Inverted(r[i], r[j]);
    }
  }

  // --------------------------------------------------------------- the loops

  lemma RearrangedMore(s: seq<Channel>, r: seq<Channel>, i: nat)
    requires Rearranged(s, r) && i + 1 < |r| && Inverted(r[i], r[i + 1])
    ensures Rearranged(s, Exchange(r, i)) && Inversions(Exchange(r, i)) < Inversions(r)
  {
    ExchangeRearranges(r, i);
    OneInversionLess(r, i);
  }

  /** One sweep over neighbours. */
  method Sweep(channels: array<Channel>, ghost s: seq<Channel>) returns (found: bool)
    requires Rearranged(s, channels[..])
    modifies channels
    ensures Rearranged(s, channels[..])
    ensures found ==> Inversions(channels[..]) < old(Inversions(channels[..]))
    ensures !found ==> Sorted(channels[..])
  {
    hide Rearranged, Inversions;
    found := false;
    var i := 1;
    while i < channels.Length
      invariant 1 <= i && (channels.Length > 0 ==> i <= channels.Length)
      invariant Rearranged(s, channels[..])
      invariant found ==> Inversions(channels[..]) < old(Inversions(channels[..]))
      invariant !found ==> channels[..] == old(channels[..])
      invariant !found ==> forall j :: 0 <= j && j + 1 < i && j + 1 < channels.Length ==>
                              !Inverted(channels[j], channels[j + 1])
    {
      var ch1, ch2 := channels[i - 1].index, channels[i].index;
      if ch1 == ch2 && ch1 >= 0 {
        ch1, ch2 := channels[i - 1].format.shift, channels[i].format.shift;
      }
      if ch2 >= 0 && (ch1 > ch2 || ch1 < 0) {
        ghost var before := channels[..];
        RearrangedMore(s, before, i - 1);
        var bak := channels[i];
        channels[i] := channels[i - 1];
        channels[i - 1] := bak;
        assert channels[..] == Exchange(before, i - 1);
        found := true;
      }
      i := i + 1;
    }
    if !found {
      NeighboursSorted(channels[..]);
    }
  }

  /** reorder_channels. */
  method ReorderChannels(channels: array<Channel>)
    requires NoRepeats(channels[..])
    modifies channels, set c | c in channels[..] :: c`number
    ensures Reordered(old(channels[..]), channels[..])
    ensures forall i :: 0 <= i < channels.Length ==> channels[i].number == i
  {
    ghost var s := channels[..];
    var found := true;
    while found
      invariant Rearranged(s, channels[..])
      invariant !found ==> Sorted(channels[..])
      decreases found, Inversions(channels[..])
    {
      found := Sweep(channels, s);
    }
    ghost var r := channels[..];
    StaysUnrepeated(s, r);
    var i := 0;
    while i < channels.Length
      invariant 0 <= i <= channels.Length && channels[..] == r
      invariant forall j :: 0 <= j < i ==> channels[j].number == j
    {
      assert r[i] in s;
      channels[i].number := i;
      i := i + 1;
    }
  }
}
