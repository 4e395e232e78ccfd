/** Calling back for every sample of a buffer: where the walk goes, and when it agrees with
    the layout. */
module ScanWalk {
  import opened Callbacks
  import opened Errors
  import opened Powers
  import opened SampleConversion
  import opened ScanLayout

  datatype Visit = Visit(channel: nat, at: nat)

  predicate Single(cs: seq<Channel>, mask: set<nat>) {
    forall i :: 0 <= i < |cs| && Taken(cs[i], mask) ==> cs[i].format.repeat == 1
  }

  /** The next channel does not share the samples of channel i. */
  predicate Ends(cs: seq<Channel>, i: nat)
    requires i < |cs|
  {
    i == |cs| - 1 || cs[i + 1].index != cs[i].index
  }

  /** The position after i channels of a pass that began at start; this routine aligns to the
      single sample, and moves on behind the last channel with an index. */
  function Walk(cs: seq<Channel>, mask: set<nat>, start: nat, i: nat): nat
    requires i <= |cs| && Sized(cs, mask)
  {
    if i == 0 then start
    else
      var p := Walk(cs, mask, start, i - 1);
      if Taken(cs[i - 1], mask) then
        AlignUp(p, Len(cs[i - 1].format)) + if Ends(cs, i - 1) then Full(cs[i - 1]) else 0
      else p
  }

  /** The callbacks of such a pass. */
  function PassVisits(cs: seq<Channel>, mask: set<nat>, wanted: set<nat>, start: nat, i: nat): seq<Visit>
    requires i <= |cs| && Sized(cs, mask)
  {
    if i == 0 then []
    else
      PassVisits(cs, mask, wanted, start, i - 1) +
      if Taken(cs[i - 1], mask) && cs[i - 1].number in wanted then
        [Visit(i - 1, AlignUp(Walk(cs, mask, start, i - 1), Len(cs[i - 1].format)))]
      else []
  }

  /** A whole pass. */
  function PassEnd(cs: seq<Channel>, mask: set<nat>, start: nat): nat
    requires Sized(cs, mask)
  {
    Walk(cs, mask, start, Indexed(cs))
  }

  function PassCalls(cs: seq<Channel>, mask: set<nat>, wanted: set<nat>, start: nat): seq<Visit>
    requires Sized(cs, mask)
  {
    PassVisits(cs, mask, wanted, start, Indexed(cs))
  }

  /** Where pass number t begins. */
  function Position(cs: seq<Channel>, mask: set<nat>, t: nat): nat
    requires Sized(cs, mask)
  {
    if t == 0 then 0 else PassEnd(cs, mask, Position(cs, mask, t - 1))
  }

  /** The callbacks of the first t passes. */
  function Plan(cs: seq<Channel>, mask: set<nat>, wanted: set<nat>, t: nat): seq<Visit>
    requires Sized(cs, mask)
  {
    if t == 0 then []
    else Plan(cs, mask, wanted, t - 1) + PassCalls(cs, mask, wanted, Position(cs, mask, t - 1))
  }

  // ----------------------------------------------------------------- the loops

  method Aligned(ptr: nat, length: nat) returns (r: nat)
    requires length >= 1
    ensures r == AlignUp(ptr, length)
  {
    r := ptr;
    if ptr % length != 0 {
      r := r + (length - ptr % length);
    }
  }

  lemma {:induction false} PassPrefix(cs: seq<Channel>, mask: set<nat>, wanted: set<nat>, start: nat, i: nat, j: nat)
    requires Sized(cs, mask) && i <= j <= |cs|
    ensures PassVisits(cs, mask, wanted, start, i) <= PassVisits(cs, mask, wanted, start, j)
  {
    hide AlignUp, Len, Walk;
    if i < j {
      PassPrefix(cs, mask, wanted, start, i, j - 1);
    }
  }

  /** One channel of a pass behind the ones before it. */
  lemma PassStep(cs: seq<Channel>, mask: set<nat>, wanted: set<nat>, start: nat, i: nat)
    requires Sized(cs, mask) && i < |cs|
    ensures !Taken(cs[i], mask) ==>
              Walk(cs, mask, start, i + 1) == Walk(cs, mask, start, i)
              && PassVisits(cs, mask, wanted, start, i + 1) == PassVisits(cs, mask, wanted, start, i)
    ensures Taken(cs[i], mask) ==>
              var at := AlignUp(Walk(cs, mask, start, i), Len(cs[i].format));
              && Walk(cs, mask, start, i + 1) == at + (if Ends(cs, i) then Full(cs[i]) else 0)
              && PassVisits(cs, mask, wanted, start, i + 1)
                 == PassVisits(cs, mask, wanted, start, i) + if cs[i].number in wanted then [Visit(i, at)] else []
  {
    hide AlignUp, Len, Full;
  }

  /** A channel is called back at the first multiple of its length, and the walk goes on behind
      all its repeated samples if the next channel has another index. */
  lemma WalkTight(cs: seq<Channel>, mask: set<nat>, start: nat, i: nat)
    requires Sized(cs, mask) && i < |cs| && Taken(cs[i], mask) && cs[i].number in mask
    ensures var len, p, q := cs[i].format.length / 8, Walk(cs, mask, start, i), Walk(cs, mask, start, i + 1);
            var visits := PassVisits(cs, mask, mask, start, i + 1);
            && visits != [] && visits[|visits| - 1].channel == i
            && var at := visits[|visits| - 1].at;
               at % len == 0 && p <= at < p + len
               && q == if i == |cs| - 1 || cs[i + 1].index != cs[i].index then at + Full(cs[i]) else at
    ensures Full(cs[i]) == cs[i].format.length / 8 * cs[i].format.repeat
    ensures Walk(cs, mask, start, 0) == start
  {
    PassStep(cs, mask, mask, start, i);
    AlignUpBounds(Walk(cs, mask, start, i), Len(cs[i].format));
    hide AlignUp, PassVisits;
  }

  /** One pass over the channels. */
  method Pass(cs: seq<Channel>, mask: set<nat>, wanted: set<nat>, start: nat, callback: Visit -> int)
    returns (ptr: nat, r: int, log: seq<Visit>, failed: bool)
    requires Sized(cs, mask)
    ensures Outcome(PassCalls(cs, mask, wanted, start), callback, log, r)
    ensures !failed ==> ptr == PassEnd(cs, mask, start)
    ensures failed <==> !NoneFailed(log, callback)
  {
    hide Len, Full, AlignUp, NoneFailed, Sum, Outcome, Walk, PassVisits, Leading, Indexed;
    PassStart(cs, mask, wanted, start);
    Complete(callback, []);
    NoFailureYet(callback);
    var i := 0;
    ptr, r, log, failed := start, 0, [], false;
    while i < |cs|
      invariant 0 <= i <= |cs| && forall j :: 0 <= j < i ==> cs[j].index >= 0
      invariant NoneFailed(log, callback) && r == Sum(log, callback) && !failed
      invariant log == PassVisits(cs, mask, wanted, start, i) && ptr == Walk(cs, mask, start, i)
    {
      var chn := cs[i];
      if chn.index < 0 {
        break;
      }
      PassStep(cs, mask, wanted, start, i);
      if chn.number in mask {
        var length := Len(chn.format);
        ptr := Aligned(ptr, length);
        if chn.number in wanted {
          var call := Visit(i, ptr);
          OneMoreCall(log, call, callback);
          SumOneMore(log, call, callback);
          log := log + [call];
          var ret := callback(call);
          if ret < 0 {
            FailedPass(cs, mask, wanted, start, i + 1);
            LastCall(callback, log, PassCalls(cs, mask, wanted, start));
            r, failed := ret, true;
            return;
          }
          r := r + ret;
        }
        if i == |cs| - 1 || cs[i + 1].index != chn.index {
          ptr := ptr + Full(chn);
        }
      }
      i := i + 1;
    }
    IndexedEnd(cs, i);
    Complete(callback, log);
  }

  lemma PassStart(cs: seq<Channel>, mask: set<nat>, wanted: set<nat>, start: nat)
    requires Sized(cs, mask)
    ensures Walk(cs, mask, start, 0) == start && PassVisits(cs, mask, wanted, start, 0) == []
  {
  }

  lemma FailedPass(cs: seq<Channel>, mask: set<nat>, wanted: set<nat>, start: nat, i: nat)
    requires Sized(cs, mask) && i <= |cs| && forall j :: 0 <= j < i ==> cs[j].index >= 0
    ensures PassVisits(cs, mask, wanted, start, i) <= PassCalls(cs, mask, wanted, start)
  {
    assert i <= Indexed(cs);
    PassPrefix(cs, mask, wanted, start, i, Indexed(cs));
  }

  const WORD := 0x1_0000_0000_0000_0000

  /** A difference of addresses, which have no sign. */
  function Unsigned(x: int): nat {
    x % WORD
  }

  lemma Distance(end: nat, ptr: nat)
    requires ptr <= end < WORD
    ensures Unsigned(end - ptr) == end - ptr
  {
  }

  /** How the walk can end: with a result; with the position behind the end of the data,
      where the distance wraps around and the loop goes on outside; or never, when a pass
      does not move, and then no later one does. */
  datatype Ending = Returned(r: int) | PastEnd | Endless

  /** The first passes had room for a whole sample. */
  ghost predicate HadRoom(cs: seq<Channel>, mask: set<nat>, size: nat, dataLength: nat, passes: nat)
    requires Sized(cs, mask)
  {
    forall t: nat :: t < passes ==> Position(cs, mask, t) + size <= dataLength
  }

  ghost predicate Ended(cs: seq<Channel>, mask: set<nat>, wanted: set<nat>, size: nat, dataLength: nat,
                        callback: Visit -> int, ending: Ending, log: seq<Visit>, passes: nat)
    requires Sized(cs, mask)
  {
    && HadRoom(cs, mask, size, dataLength, passes)
    && (ending.Returned? ==>
          && Outcome(Plan(cs, mask, wanted, passes), callback, log, ending.r)
          && (NoneFailed(log, callback) ==>
                Position(cs, mask, passes) <= dataLength < Position(cs, mask, passes) + size))
    && (!ending.Returned? ==> NoneFailed(log, callback) && log == Plan(cs, mask, wanted, passes) && passes > 0)
    && (ending.PastEnd? ==> Position(cs, mask, passes) > dataLength)
    && (ending.Endless? ==> Position(cs, mask, passes) == Position(cs, mask, passes - 1))
  }

  // --------------------------------------------------- agreeing with the layout

  /** What a reader stepping from iio_buffer_first would look at, base bytes on. */
  function Expected(cs: seq<Channel>, mask: set<nat>, wanted: set<nat>, base: nat, i: nat): seq<Visit>
    requires i <= |cs| && Sized(cs, mask)
  {
    if i == 0 then []
    else
      Expected(cs, mask, wanted, base, i - 1) +
      if Taken(cs[i - 1], mask) && cs[i - 1].number in wanted then
        [Visit(i - 1, base + FirstOf(cs, mask, i - 1))]
      else []
  }

  predicate Divides(cs: seq<Channel>, mask: set<nat>, size: nat)
    requires Sized(cs, mask)
  {
    forall i :: 0 <= i < |cs| && Taken(cs[i], mask) ==> size % Len(cs[i].format) == 0
  }

  lemma EndsOrdered(cs: seq<Channel>, mask: set<nat>, i: nat)
    requires Ordered(cs) && i < |cs| && Taken(cs[i], mask)
    ensures Ends(cs, i)
  {
    if i < |cs| - 1 && cs[i + 1].index >= 0 {
      assert cs[i].index < cs[i + 1].index;
    }
  }

  lemma {:induction false} PassStops(cs: seq<Channel>, mask: set<nat>, wanted: set<nat>, start: nat, i: nat, j: nat)
    requires Sized(cs, mask) && Ordered(cs) && i <= j <= |cs| && (i < j ==> cs[i].index < 0)
    ensures Walk(cs, mask, start, j) == Walk(cs, mask, start, i)
    ensures PassVisits(cs, mask, wanted, start, j) == PassVisits(cs, mask, wanted, start, i)
  {
    if i < j {
      PassStops(cs, mask, wanted, start, i, j - 1);
      assert cs[j - 1].index < 0;
    }
  }

  /** On an ordered list a pass covers it all. */
  lemma PassWhole(cs: seq<Channel>, mask: set<nat>, wanted: set<nat>, start: nat)
    requires Sized(cs, mask) && Ordered(cs)
    ensures PassEnd(cs, mask, start) == Walk(cs, mask, start, |cs|)
    ensures PassCalls(cs, mask, wanted, start) == PassVisits(cs, mask, wanted, start, |cs|)
  {
    PassStops(cs, mask, wanted, start, Indexed(cs), |cs|);
  }

  lemma AlignUpShift(start: nat, p: nat, len: nat)
    requires len >= 1 && start % len == 0
    ensures AlignUp(start + p, len) == start + AlignUp(p, len)
  {
    var q := start / len;
    assert start == q * len;
    ModShift(p, q, len);
  }

  lemma {:induction false} WalkShift(cs: seq<Channel>, mask: set<nat>, start: nat, i: nat)
    requires i <= |cs| && Sized(cs, mask) && Ordered(cs) && Single(cs, mask) && Divides(cs, mask, start)
    ensures Walk(cs, mask, start, i) == start + Extent(cs, mask, i)
  {
    hide AlignUp, Len, Ends;
    if i > 0 {
      WalkShift(cs, mask, start, i - 1);
      if Taken(cs[i - 1], mask) {
        EndsOrdered(cs, mask, i - 1);
        AlignUpShift(start, Extent(cs, mask, i - 1), Len(cs[i - 1].format));
      }
    }
  }

  /** A pass visits what iio_buffer_first and iio_buffer_step promise if, and only if, its
      start is a multiple of every sample length. */
  lemma PassAgrees(cs: seq<Channel>, mask: set<nat>, start: nat)
    requires Sized(cs, mask) && Ordered(cs) && Single(cs, mask)
    ensures PassCalls(cs, mask, mask, start) == Expected(cs, mask, mask, start, |cs|) <==> Divides(cs, mask, start)
  {
    PassWhole(cs, mask, mask, start);
    if Divides(cs, mask, start) {
      AgreesWhenDividing(cs, mask, mask, start, |cs|);
    }
    if PassVisits(cs, mask, mask, start, |cs|) == Expected(cs, mask, mask, start, |cs|) {
      forall k | 0 <= k < |cs| && Taken(cs[k], mask) ensures start % Len(cs[k].format) == 0 {
        DividesWhenAgreeing(cs, mask, start, |cs|, k);
      }
    }
    hide PassCalls, Expected;
  }

  /** The first pass always ends one sample size on; the second visits the samples that
      iio_buffer_step leads to exactly when the size is a multiple of every length. */
  lemma SecondPassAgrees(cs: seq<Channel>, mask: set<nat>)
    requires Sized(cs, mask) && Ordered(cs) && Single(cs, mask)
    ensures PassCalls(cs, mask, mask, 0) == Expected(cs, mask, mask, 0, |cs|)
    ensures Position(cs, mask, 1) == Extent(cs, mask, |cs|)
    ensures PassCalls(cs, mask, mask, Position(cs, mask, 1)) == Expected(cs, mask, mask, Position(cs, mask, 1), |cs|)
            <==> Divides(cs, mask, Extent(cs, mask, |cs|))
  {
    hide Len, Walk, Extent, PassCalls, PassEnd, Expected;
    PassAgrees(cs, mask, 0);
    WalkShift(cs, mask, 0, |cs|);
    PassWhole(cs, mask, mask, 0);
    PassAgrees(cs, mask, Extent(cs, mask, |cs|));
    assert Position(cs, mask, 0) == 0;
    assert Position(cs, mask, 1) == PassEnd(cs, mask, Position(cs, mask, 0));
  }

  lemma {:induction false} AgreesWhenDividing(cs: seq<Channel>, mask: set<nat>, wanted: set<nat>, start: nat, i: nat)
    requires i <= |cs| && Sized(cs, mask) && Ordered(cs) && Single(cs, mask) && Divides(cs, mask, start)
    ensures PassVisits(cs, mask, wanted, start, i) == Expected(cs, mask, wanted, start, i)
  {
    hide AlignUp, Len, Walk, Extent;
    if i > 0 {
      AgreesWhenDividing(cs, mask, wanted, start, i - 1);
      WalkShift(cs, mask, start, i - 1);
      if Taken(cs[i - 1], mask) {
        AlignUpShift(start, Extent(cs, mask, i - 1), Len(cs[i - 1].format));
      }
    }
  }

  lemma {:induction false} SameCount(cs: seq<Channel>, mask: set<nat>, start: nat, i: nat)
    requires i <= |cs| && Sized(cs, mask)
    ensures |PassVisits(cs, mask, mask, start, i)| == |Expected(cs, mask, mask, start, i)|
  {
    hide AlignUp, Len, FirstOf, Walk;
    if i > 0 {
      SameCount(cs, mask, start, i - 1);
    }
  }

  lemma {:induction false} DividesWhenAgreeing(cs: seq<Channel>, mask: set<nat>, start: nat, i: nat, k: nat)
    requires k < i <= |cs| && Sized(cs, mask) && Taken(cs[k], mask)
    requires PassVisits(cs, mask, mask, start, i) == Expected(cs, mask, mask, start, i)
    ensures start % Len(cs[k].format) == 0
  {
    hide AlignUp, Len, Walk, Extent;
    SameCount(cs, mask, start, i - 1);
    var a, b := PassVisits(cs, mask, mask, start, i), Expected(cs, mask, mask, start, i);
    var n := |PassVisits(cs, mask, mask, start, i - 1)|;
    assert a[..n] == b[..n] && a[n..] == b[n..];
    assert a[..n] == PassVisits(cs, mask, mask, start, i - 1) && b[..n] == Expected(cs, mask, mask, start, i - 1);
    if k < i - 1 {
      DividesWhenAgreeing(cs, mask, start, i - 1, k);
    } else {
      var len := Len(cs[k].format);
      assert a[n].at == AlignUp(Walk(cs, mask, start, k), len) && b[n].at == start + FirstOf(cs, mask, k);
      AlignUpBounds(Walk(cs, mask, start, k), len);
      AlignUpBounds(Extent(cs, mask, k), len);
      DifferenceOfMultiples(start, FirstOf(cs, mask, k), len);
    }
  }

  lemma DifferenceOfMultiples(a: nat, b: nat, len: nat)
    requires len >= 1 && (a + b) % len == 0 && b % len == 0
    ensures a % len == 0
  {
    var q := b / len;
    assert b == q * len;
    ModShift(a, q, len);
  }

  /** The visits of n passes, each size bytes after the one before. */
  function AllVisits(cs: seq<Channel>, mask: set<nat>, wanted: set<nat>, size: nat, n: nat): seq<Visit>
    requires Sized(cs, mask)
  {
    if n == 0 then []
    else AllVisits(cs, mask, wanted, size, n - 1) + Expected(cs, mask, wanted, Times(n - 1, size), |cs|)
  }

  function Times(n: nat, size: nat): nat {
    n * size
  }

  predicate InSomePass(at: nat, first: nat, size: nat, n: nat) {
    exists t: nat :: t < n && at == Times(t, size) + first
  }

  lemma InOnePassMore(at: nat, first: nat, size: nat, n: nat)
    ensures !InSomePass(at, first, size, 0)
    ensures n > 0 ==>
              (InSomePass(at, first, size, n)
               <==> InSomePass(at, first, size, n - 1) || at == Times(n - 1, size) + first)
  {
    hide Times;
    if n > 0 && at == Times(n - 1, size) + first {
      assert InSomePass(at, first, size, n);
    }
  }

  lemma {:induction false} ExpectedMember(cs: seq<Channel>, mask: set<nat>, wanted: set<nat>, base: nat, i: nat,
                                          v: Visit)
    requires i <= |cs| && Sized(cs, mask)
    ensures v in Expected(cs, mask, wanted, base, i) <==>
              v.channel < i && Taken(cs[v.channel], mask) && cs[v.channel].number in wanted
              && v.at == base + FirstOf(cs, mask, v.channel)
  {
    hide Len, FirstOf;
    if i > 0 {
      ExpectedMember(cs, mask, wanted, base, i - 1, v);
    }
  }

  /** n passes look at sample t of every wanted channel, for every t < n, and at nothing else. */
  lemma {:induction false} VisitedExactly(cs: seq<Channel>, mask: set<nat>, wanted: set<nat>, size: nat, n: nat,
                                          v: Visit)
    requires Sized(cs, mask)
    ensures v in AllVisits(cs, mask, wanted, size, n) <==>
              v.channel < |cs| && Taken(cs[v.channel], mask) && cs[v.channel].number in wanted
              && InSomePass(v.at, FirstOf(cs, mask, v.channel), size, n)
  {
    hide Len, FirstOf, Times, InSomePass, Expected;
    if v.channel < |cs| && Taken(cs[v.channel], mask) {
      InOnePassMore(v.at, FirstOf(cs, mask, v.channel), size, n);
    }
    if n > 0 {
      VisitedExactly(cs, mask, wanted, size, n - 1, v);
      ExpectedMember(cs, mask, wanted, Times(n - 1, size), |cs|, v);
    }
  }

  // ------------------------------------------------------------ how it ends

  /** Every channel has single samples whose length divides the sample size. */
  ghost predicate Regular(cs: seq<Channel>, mask: set<nat>, size: nat)
    requires Sized(cs, mask)
  {
    Ordered(cs) && Single(cs, mask) && size == Extent(cs, mask, |cs|) && Divides(cs, mask, size)
  }

  lemma FirstPass(cs: seq<Channel>, mask: set<nat>, wanted: set<nat>, size: nat, dataLength: nat)
    requires Sized(cs, mask)
    ensures Position(cs, mask, 0) == 0 && Plan(cs, mask, wanted, 0) == []
    ensures HadRoom(cs, mask, size, dataLength, 0)
  {
  }

  lemma NextPass(cs: seq<Channel>, mask: set<nat>, wanted: set<nat>, size: nat, dataLength: nat,
                 callback: Visit -> int, passes: nat, done: seq<Visit>, more: seq<Visit>, r: int)
    requires Sized(cs, mask) && HadRoom(cs, mask, size, dataLength, passes)
    requires Position(cs, mask, passes) + size <= dataLength
    requires NoneFailed(done, callback) && done == Plan(cs, mask, wanted, passes)
    requires Outcome(PassCalls(cs, mask, wanted, Position(cs, mask, passes)), callback, more, r)
    ensures HadRoom(cs, mask, size, dataLength, passes + 1)
    ensures Position(cs, mask, passes + 1) == PassEnd(cs, mask, Position(cs, mask, passes))
    ensures NoneFailed(done + more, callback) <==> NoneFailed(more, callback)
    ensures NoneFailed(more, callback) ==>
              done + more == Plan(cs, mask, wanted, passes + 1) && Sum(done + more, callback) == Sum(done, callback) + r
    ensures !NoneFailed(more, callback) ==> Outcome(Plan(cs, mask, wanted, passes + 1), callback, done + more, r)
  {
    hide NoneFailed, Sum, Outcome, PassCalls, PassEnd, HadRoom;
    MoreRoom(cs, mask, size, dataLength, passes);
    OnePassMore(cs, mask, wanted, passes);
    hide Position, Plan;
    OutcomeGrows(done, PassCalls(cs, mask, wanted, Position(cs, mask, passes)), Plan(cs, mask, wanted, passes + 1),
                 callback, more, r);
  }

  lemma MoreRoom(cs: seq<Channel>, mask: set<nat>, size: nat, dataLength: nat, passes: nat)
    requires Sized(cs, mask) && HadRoom(cs, mask, size, dataLength, passes)
    requires Position(cs, mask, passes) + size <= dataLength
    ensures HadRoom(cs, mask, size, dataLength, passes + 1)
  {
    hide Position;
  }

  lemma OnePassMore(cs: seq<Channel>, mask: set<nat>, wanted: set<nat>, passes: nat)
    requires Sized(cs, mask)
    ensures Position(cs, mask, passes + 1) == PassEnd(cs, mask, Position(cs, mask, passes))
    ensures Plan(cs, mask, wanted, passes + 1)
         == Plan(cs, mask, wanted, passes) + PassCalls(cs, mask, wanted, Position(cs, mask, passes))
  {
    hide PassEnd, PassCalls;
  }

  lemma FailedEnding(cs: seq<Channel>, mask: set<nat>, wanted: set<nat>, size: nat, dataLength: nat,
                     callback: Visit -> int, log: seq<Visit>, passes: nat, r: int)
    requires Sized(cs, mask) && HadRoom(cs, mask, size, dataLength, passes)
    requires Outcome(Plan(cs, mask, wanted, passes), callback, log, r) && !NoneFailed(log, callback)
    ensures Ended(cs, mask, wanted, size, dataLength, callback, Returned(r), log, passes)
  {
    hide HadRoom, Outcome, NoneFailed, Plan, Position;
  }

  lemma OddEnding(cs: seq<Channel>, mask: set<nat>, wanted: set<nat>, size: nat, dataLength: nat,
                  callback: Visit -> int, ending: Ending, log: seq<Visit>, passes: nat)
    requires Sized(cs, mask) && HadRoom(cs, mask, size, dataLength, passes)
    requires NoneFailed(log, callback) && log == Plan(cs, mask, wanted, passes) && passes > 0 && !ending.Returned?
    requires ending.PastEnd? ==> Position(cs, mask, passes) > dataLength
    requires ending.Endless? ==> Position(cs, mask, passes) == Position(cs, mask, passes - 1)
    ensures Ended(cs, mask, wanted, size, dataLength, callback, ending, log, passes)
  {
    hide HadRoom, NoneFailed, Plan, Position;
  }

  lemma LastEnding(cs: seq<Channel>, mask: set<nat>, wanted: set<nat>, size: nat, dataLength: nat,
                   callback: Visit -> int, log: seq<Visit>, passes: nat)
    requires Sized(cs, mask) && HadRoom(cs, mask, size, dataLength, passes)
    requires NoneFailed(log, callback) && log == Plan(cs, mask, wanted, passes)
    requires Position(cs, mask, passes) <= dataLength < Position(cs, mask, passes) + size
    ensures Ended(cs, mask, wanted, size, dataLength, callback, Returned(Sum(log, callback)), log, passes)
  {
    hide HadRoom, NoneFailed, Plan, Position, Sum, Outcome;
    Complete(callback, log);
  }

  lemma {:induction false} WalkForward(cs: seq<Channel>, mask: set<nat>, start: nat, i: nat)
    requires Sized(cs, mask) && i <= |cs|
    ensures Walk(cs, mask, start, i) >= start
  {
    hide AlignUp, Len, Full, Ends;
    if i > 0 {
      WalkForward(cs, mask, start, i - 1);
      if Taken(cs[i - 1], mask) {
        AlignUpBounds(Walk(cs, mask, start, i - 1), Len(cs[i - 1].format));
      }
    }
  }

  lemma PassForward(cs: seq<Channel>, mask: set<nat>, start: nat)
    requires Sized(cs, mask)
    ensures PassEnd(cs, mask, start) >= start
  {
    WalkForward(cs, mask, start, Indexed(cs));
  }

  lemma MultipleDivides(cs: seq<Channel>, mask: set<nat>, size: nat, t: nat)
    requires Sized(cs, mask) && Divides(cs, mask, size)
    ensures Divides(cs, mask, Times(t, size))
  {
    hide Len;
    forall i | 0 <= i < |cs| && Taken(cs[i], mask) ensures Times(t, size) % Len(cs[i].format) == 0 {
      TimesDivides(t, size, Len(cs[i].format));
    }
  }

  lemma TimesDivides(t: nat, size: nat, len: nat)
    requires len >= 1 && size % len == 0
    ensures Times(t, size) % len == 0
  {
    var q := size / len;
    assert t * (q * len) == (t * q) * len;
    DivModUnique(t * size, len, t * q, 0);
  }

  lemma TimesMore(t: nat, size: nat)
    ensures Times(0, size) == 0 && Times(t + 1, size) == Times(t, size) + size
  {
  }

  /** A regular walk takes one sample a pass. */
  lemma {:induction false} RegularPasses(cs: seq<Channel>, mask: set<nat>, wanted: set<nat>, size: nat, t: nat)
    requires Sized(cs, mask) && Regular(cs, mask, size)
    ensures Position(cs, mask, t) == Times(t, size)
    ensures Plan(cs, mask, wanted, t) == AllVisits(cs, mask, wanted, size, t)
  {
    hide Times, PassCalls, PassEnd, Expected, Extent, Divides, Walk, PassVisits;
    TimesMore(0, size);
    if t > 0 {
      TimesMore(t - 1, size);
      RegularPasses(cs, mask, wanted, size, t - 1);
      var start := Times(t - 1, size);
      MultipleDivides(cs, mask, size, t - 1);
      WalkShift(cs, mask, start, |cs|);
      AgreesWhenDividing(cs, mask, wanted, start, |cs|);
      PassWhole(cs, mask, wanted, start);
    }
  }

  lemma {:induction false} AllVisitsPrefix(cs: seq<Channel>, mask: set<nat>, wanted: set<nat>, size: nat, t: nat,
                                           n: nat)
    requires Sized(cs, mask) && t <= n
    ensures AllVisits(cs, mask, wanted, size, t) <= AllVisits(cs, mask, wanted, size, n)
  {
    hide Expected;
    if t < n {
      AllVisitsPrefix(cs, mask, wanted, size, t, n - 1);
    }
  }

  lemma PassesFit(t: nat, size: nat, dataLength: nat)
    requires size >= 1 && Times(t, size) <= dataLength
    ensures t <= dataLength / size
    ensures dataLength < Times(t, size) + size ==> t == dataLength / size
  {
    var n := dataLength / size;
    assert dataLength == n * size + dataLength % size && (n + 1) * size == n * size + size;
    if t > n {
      MulMono(n + 1, t, size);
    } else if dataLength < t * size + size {
      DivModUnique(dataLength, size, t, dataLength - t * size);
    }
  }

  lemma LongerPlan(plan: seq<Visit>, whole: seq<Visit>, callback: Visit -> int, log: seq<Visit>, r: int)
    requires Outcome(plan, callback, log, r) && plan <= whole && (NoneFailed(log, callback) ==> plan == whole)
    ensures Outcome(whole, callback, log, r)
  {
    hide Sum, NoneFailed;
  }

  /** The result of calling back for every whole sample in the data. */
  ghost predicate ReturnsAll(cs: seq<Channel>, mask: set<nat>, wanted: set<nat>, size: nat, dataLength: nat,
                             callback: Visit -> int, ending: Ending, log: seq<Visit>)
    requires Sized(cs, mask) && size >= 1
  {
    ending.Returned? && Outcome(AllVisits(cs, mask, wanted, size, dataLength / size), callback, log, ending.r)
  }

  /** A regular walk returns, after every whole sample in the data. */
  lemma RegularEnding(cs: seq<Channel>, mask: set<nat>, wanted: set<nat>, size: nat, dataLength: nat,
                      callback: Visit -> int, ending: Ending, log: seq<Visit>, passes: nat)
    requires Sized(cs, mask) && size >= 1
    requires Ended(cs, mask, wanted, size, dataLength, callback, ending, log, passes)
    ensures Regular(cs, mask, size) ==> ReturnsAll(cs, mask, wanted, size, dataLength, callback, ending, log)
  {
    hide Regular, Plan, Position, Outcome, NoneFailed, AllVisits, Times;
    if Regular(cs, mask, size) {
      RegularPasses(cs, mask, wanted, size, passes);
      TimesMore(passes, size);
      if passes > 0 {
        RegularPasses(cs, mask, wanted, size, passes - 1);
        TimesMore(passes - 1, size);
        assert Position(cs, mask, passes - 1) + size <= dataLength;
      }
      PassesFit(passes, size, dataLength);
      AllVisitsPrefix(cs, mask, wanted, size, passes, dataLength / size);
      if ending.Returned? {
        LongerPlan(Plan(cs, mask, wanted, passes), AllVisits(cs, mask, wanted, size, dataLength / size),
                   callback, log, ending.r);
      }
    }
  }

  // ------------------------------------------------------- standing still

  /** The walk reaches an enabled channel behind which it moves on: the last of its index. */
  predicate Moves(cs: seq<Channel>, mask: set<nat>) {
    exists i :: 0 <= i < Indexed(cs) && Taken(cs[i], mask) && Ends(cs, i)
  }

  lemma {:induction false} WalkMoves(cs: seq<Channel>, mask: set<nat>, start: nat, i: nat, j: nat)
    requires Sized(cs, mask) && i < j <= |cs| && Taken(cs[i], mask) && Ends(cs, i)
    ensures Walk(cs, mask, start, j) > start
  {
    hide Ends, AlignUp, Len, Full;
    if i < j - 1 {
      WalkMoves(cs, mask, start, i, j - 1);
    } else {
      WalkForward(cs, mask, start, i);
      FullPositive(cs[i]);
    }
    if Taken(cs[j - 1], mask) {
      AlignUpBounds(Walk(cs, mask, start, j - 1), Len(cs[j - 1].format));
    }
  }

  lemma {:induction false} WalkRests(cs: seq<Channel>, mask: set<nat>, i: nat)
    requires Sized(cs, mask) && i <= |cs| && forall j :: 0 <= j < i && Taken(cs[j], mask) ==> !Ends(cs, j)
    ensures Walk(cs, mask, 0, i) == 0
  {
    hide Ends, Full;
    if i > 0 {
      WalkRests(cs, mask, i - 1);
    }
  }

  /** Every pass gets on exactly if there is such a channel; otherwise none does. */
  lemma MovesExactly(cs: seq<Channel>, mask: set<nat>)
    requires Sized(cs, mask)
    ensures (forall start: nat :: PassEnd(cs, mask, start) > start) <==> Moves(cs, mask)
    ensures !Moves(cs, mask) ==> PassEnd(cs, mask, 0) == 0
  {
    hide Ends, Walk, Indexed;
    if Moves(cs, mask) {
      var i :| 0 <= i < Indexed(cs) && Taken(cs[i], mask) && Ends(cs, i);
      forall start: nat ensures PassEnd(cs, mask, start) > start {
        WalkMoves(cs, mask, start, i, Indexed(cs));
      }
    } else {
      WalkRests(cs, mask, Indexed(cs));
      assert !(PassEnd(cs, mask, 0) > 0);
    }
  }

  /** Without one the loop calls back for the first sample again and again. */
  lemma {:induction false} RestsForEver(cs: seq<Channel>, mask: set<nat>, wanted: set<nat>, t: nat)
    requires Sized(cs, mask) && !Moves(cs, mask)
    ensures Position(cs, mask, t) == 0
    ensures Plan(cs, mask, wanted, t + 1) == Plan(cs, mask, wanted, t) + PassCalls(cs, mask, wanted, 0)
  {
    hide Moves, PassEnd, PassCalls;
    MovesExactly(cs, mask);
    if t > 0 {
      RestsForEver(cs, mask, wanted, t - 1);
    }
  }

  lemma MovingEnding(cs: seq<Channel>, mask: set<nat>, wanted: set<nat>, size: nat, dataLength: nat,
                     callback: Visit -> int, ending: Ending, log: seq<Visit>, passes: nat)
    requires Sized(cs, mask)
    requires Ended(cs, mask, wanted, size, dataLength, callback, ending, log, passes)
    ensures ending.Endless? ==> NoneFailed(log, callback) && !Moves(cs, mask)
    ensures !Moves(cs, mask) && dataLength >= size && NoneFailed(log, callback) ==> ending.Endless?
  {
    hide Moves, PassEnd, Plan, Outcome, NoneFailed;
    MovesExactly(cs, mask);
    if ending.Endless? {
      var start := Position(cs, mask, passes - 1);
      assert PassEnd(cs, mask, start) == start;
    }
    if !Moves(cs, mask) {
      RestsForEver(cs, mask, wanted, passes);
    }
  }

  /** Neither of the early exits is taken. */
  predicate Begins(sampleSize: nat, devSampleSize: nat, dataLength: nat) {
    sampleSize > 0 && dataLength >= devSampleSize
  }

  lemma BeginsWhen(sampleSize: nat, devSampleSize: nat, dataLength: nat)
    ensures Begins(sampleSize, devSampleSize, dataLength) <==> sampleSize > 0 && dataLength >= devSampleSize
  {
  }

  /** iio_buffer_foreach_sample. */
  method Foreach(cs: seq<Channel>, mask: set<nat>, wanted: set<nat>, sampleSize: nat, devSampleSize: nat,
                 dataLength: nat, callback: Visit -> int)
    returns (ending: Ending, log: seq<Visit>, ghost passes: nat)
    requires Sized(cs, mask) && dataLength < WORD
    ensures sampleSize == 0 ==> ending == Returned(-EINVAL) && log == []
    ensures sampleSize > 0 && dataLength < devSampleSize ==> ending == Returned(0) && log == []
    ensures Begins(sampleSize, devSampleSize, dataLength) ==>
              Ended(cs, mask, wanted, sampleSize, dataLength, callback, ending, log, passes)
    ensures Begins(sampleSize, devSampleSize, dataLength) && Regular(cs, mask, sampleSize) ==>
              ReturnsAll(cs, mask, wanted, sampleSize, dataLength, callback, ending, log)
    ensures Begins(sampleSize, devSampleSize, dataLength) && dataLength >= sampleSize && NoneFailed(log, callback) ==>
              (ending.Endless? <==> !Moves(cs, mask))
    ensures ending.Endless? ==> NoneFailed(log, callback)
  {
    hide *;
    BeginsWhen(sampleSize, devSampleSize, dataLength);
    log, passes := [], 0;
    if sampleSize == 0 {
      return Returned(-EINVAL), [], 0;
    }
    if dataLength < devSampleSize {
      return Returned(0), [], 0;
    }
    var ptr, r := 0, 0;
    FirstPass(cs, mask, wanted, sampleSize, dataLength);
    NoFailureYet(callback);
    Complete(callback, []);
    Distance(dataLength, ptr);
    while Unsigned(dataLength - ptr) >= sampleSize
      invariant ptr == Position(cs, mask, passes) <= dataLength
      invariant Unsigned(dataLength - ptr) == dataLength - ptr
      invariant NoneFailed(log, callback) && r == Sum(log, callback)
      invariant log == Plan(cs, mask, wanted, passes) && HadRoom(cs, mask, sampleSize, dataLength, passes)
      decreases dataLength - ptr
    {
      var before := ptr;
      ghost var done := log;
      var ret, more, failed;
      ptr, ret, more, failed := Pass(cs, mask, wanted, ptr, callback);
      NextPass(cs, mask, wanted, sampleSize, dataLength, callback, passes, done, more, ret);
      log := log + more;
      passes := passes + 1;
      if failed {
        ending := Returned(ret);
        FailedEnding(cs, mask, wanted, sampleSize, dataLength, callback, log, passes, ret);
        RegularEnding(cs, mask, wanted, sampleSize, dataLength, callback, ending, log, passes);
        MovingEnding(cs, mask, wanted, sampleSize, dataLength, callback, ending, log, passes);
        return;
      }
      r := r + ret;
      if ptr > dataLength || ptr == before {
        ending := if ptr > dataLength then PastEnd else Endless;
        OddEnding(cs, mask, wanted, sampleSize, dataLength, callback, ending, log, passes);
        RegularEnding(cs, mask, wanted, sampleSize, dataLength, callback, ending, log, passes);
        MovingEnding(cs, mask, wanted, sampleSize, dataLength, callback, ending, log, passes);
        return;
      }
      PassForward(cs, mask, before);
      Distance(dataLength, ptr);
    }
    ending := Returned(r);
    LastEnding(cs, mask, wanted, sampleSize, dataLength, callback, log, passes);
    RegularEnding(cs, mask, wanted, sampleSize, dataLength, callback, ending, log, passes);
    MovingEnding(cs, mask, wanted, sampleSize, dataLength, callback, ending, log, passes);
  }

  // ------------------------------------------------------- staying in the data

  /** On data of any length no pass that had room for a sample ends behind the data. */
  ghost predicate StaysInside(cs: seq<Channel>, mask: set<nat>, size: nat)
    requires Sized(cs, mask)
  {
    forall dataLength: nat, t: nat {:trigger HadRoom(cs, mask, size, dataLength, t)} ::
      t > 0 && HadRoom(cs, mask, size, dataLength, t) ==> Position(cs, mask, t) <= dataLength
  }

  /** No pass takes more than a sample size. */
  ghost predicate PassesSmall(cs: seq<Channel>, mask: set<nat>, size: nat)
    requires Sized(cs, mask)
  {
    forall t: nat :: Position(cs, mask, t + 1) <= Position(cs, mask, t) + size
  }

  lemma {:induction false} PositionsRise(cs: seq<Channel>, mask: set<nat>, t: nat, u: nat)
    requires Sized(cs, mask) && t <= u
    ensures Position(cs, mask, t) <= Position(cs, mask, u)
  {
    hide PassEnd;
    if t < u {
      PositionsRise(cs, mask, t, u - 1);
      PassForward(cs, mask, Position(cs, mask, u - 1));
    }
  }

  /** On any list: the walk never leaves the data exactly if every pass is small. */
  lemma InsideWhenSmall(cs: seq<Channel>, mask: set<nat>, size: nat)
    requires Sized(cs, mask)
    ensures StaysInside(cs, mask, size) <==> PassesSmall(cs, mask, size)
  {
    hide Position;
    if PassesSmall(cs, mask, size) {
      forall dataLength: nat, t: nat | t > 0 && HadRoom(cs, mask, size, dataLength, t)
        ensures Position(cs, mask, t) <= dataLength
      {
        assert Position(cs, mask, t - 1) + size <= dataLength;
        assert Position(cs, mask, (t - 1) + 1) <= Position(cs, mask, t - 1) + size;
      }
    }
    if StaysInside(cs, mask, size) {
      forall t: nat ensures Position(cs, mask, t + 1) <= Position(cs, mask, t) + size {
        var dataLength := Position(cs, mask, t) + size;
        forall u: nat | u < t + 1 ensures Position(cs, mask, u) + size <= dataLength {
          PositionsRise(cs, mask, u, t);
        }
        assert HadRoom(cs, mask, size, dataLength, t + 1);
      }
    }
  }

  /** Channel m is reached, and its length is a multiple of every length. */
  ghost predicate Longest(cs: seq<Channel>, mask: set<nat>, m: nat)
    requires Sized(cs, mask)
  {
    m < Indexed(cs) && Taken(cs[m], mask) && Divides(cs, mask, Len(cs[m].format))
  }

  /** Passes from starts a multiple apart stay that far apart. */
  lemma {:induction false} WalkApart(cs: seq<Channel>, mask: set<nat>, start: nat, gap: nat, i: nat)
    requires i <= |cs| && Sized(cs, mask) && Divides(cs, mask, gap)
    ensures Walk(cs, mask, start + gap, i) == Walk(cs, mask, start, i) + gap
  {
    hide AlignUp, Len, Full, Ends;
    if i > 0 {
      WalkApart(cs, mask, start, gap, i - 1);
      if Taken(cs[i - 1], mask) {
        AlignUpShift(gap, Walk(cs, mask, start, i - 1), Len(cs[i - 1].format));
      }
    }
  }

  lemma DividesMultiple(cs: seq<Channel>, mask: set<nat>, len: nat, gap: nat)
    requires Sized(cs, mask) && Divides(cs, mask, len) && len >= 1 && gap % len == 0
    ensures Divides(cs, mask, gap)
  {
    hide Len;
    var q := gap / len;
    assert gap == q * len;
    MultipleDivides(cs, mask, len, q);
  }

  lemma DividesAt(cs: seq<Channel>, mask: set<nat>, gap: nat, i: nat)
    requires Sized(cs, mask) && Divides(cs, mask, gap) && i < |cs| && Taken(cs[i], mask)
    ensures gap % Len(cs[i].format) == 0
  {
  }

  /** Behind the longest channel every pass is the same number of bytes, up to a multiple. */
  lemma {:induction false} WalkAligned(cs: seq<Channel>, mask: set<nat>, start: nat, other: nat, m: nat, i: nat)
    requires Sized(cs, mask) && Longest(cs, mask, m) && m < i <= |cs|
    requires Walk(cs, mask, start, m) <= Walk(cs, mask, other, m)
    ensures var gap := Walk(cs, mask, other, i) - Walk(cs, mask, start, i);
            gap >= 0 && gap % Len(cs[m].format) == 0
    decreases i
  {
    hide AlignUp, Full, Ends, Indexed, Divides, Len;
    var len := Len(cs[m].format);
    var p, q := Walk(cs, mask, start, i - 1), Walk(cs, mask, other, i - 1);
    if i == m + 1 {
      AlignUpBounds(p, len);
      AlignUpBounds(q, len);
      AlignUpLeast(p, len, AlignUp(q, len));
      GapOfMultiples(AlignUp(p, len), AlignUp(q, len), len);
    } else {
      WalkAligned(cs, mask, start, other, m, i - 1);
      if Taken(cs[i - 1], mask) {
        DividesMultiple(cs, mask, len, q - p);
        DividesAt(cs, mask, q - p, i - 1);
        AlignUpShift(q - p, p, Len(cs[i - 1].format));
      }
    }
  }

  lemma GapOfMultiples(a: nat, b: nat, len: nat)
    requires len >= 1 && a % len == 0 && b % len == 0 && a <= b
    ensures (b - a) % len == 0
  {
    DifferenceOfMultiples(b - a, a, len);
  }

  lemma {:induction false} WalkMonotone(cs: seq<Channel>, mask: set<nat>, start: nat, other: nat, i: nat)
    requires Sized(cs, mask) && i <= |cs| && start <= other
    ensures Walk(cs, mask, start, i) <= Walk(cs, mask, other, i)
  {
    hide AlignUp, Len, Full, Ends;
    if i > 0 {
      WalkMonotone(cs, mask, start, other, i - 1);
      if Taken(cs[i - 1], mask) {
        var len, q := Len(cs[i - 1].format), Walk(cs, mask, other, i - 1);
        AlignUpBounds(q, len);
        AlignUpLeast(Walk(cs, mask, start, i - 1), len, AlignUp(q, len));
      }
    }
  }

  /** From the second pass on all passes take the same number of bytes. */
  lemma PassesAlike(cs: seq<Channel>, mask: set<nat>, m: nat, t: nat)
    requires Sized(cs, mask) && Longest(cs, mask, m) && t >= 1
    ensures Position(cs, mask, t + 1) - Position(cs, mask, t) == Position(cs, mask, 2) - Position(cs, mask, 1)
  {
    hide Walk, Len, Indexed;
    assert Position(cs, mask, 0) == 0;
    var n, before := Indexed(cs), Position(cs, mask, t - 1);
    assert Position(cs, mask, 1) == Walk(cs, mask, 0, n) && Position(cs, mask, t) == Walk(cs, mask, before, n);
    assert Position(cs, mask, 2) == Walk(cs, mask, Position(cs, mask, 1), n);
    assert Position(cs, mask, t + 1) == Walk(cs, mask, Position(cs, mask, t), n);
    hide Position;
    WalkMonotone(cs, mask, 0, before, m);
    WalkAligned(cs, mask, 0, before, m, n);
    var gap := Position(cs, mask, t) - Position(cs, mask, 1);
    DividesMultiple(cs, mask, Len(cs[m].format), gap);
    hide Divides;
    WalkApart(cs, mask, Position(cs, mask, 1), gap, n);
  }

  lemma {:induction false} FirstPassFits(cs: seq<Channel>, mask: set<nat>, i: nat)
    requires Sized(cs, mask) && i <= |cs|
    ensures Walk(cs, mask, 0, i) <= Extent(cs, mask, i)
  {
    hide AlignUp, Len, Full, Ends;
    if i > 0 {
      FirstPassFits(cs, mask, i - 1);
      if Taken(cs[i - 1], mask) {
        var p, q := Walk(cs, mask, 0, i - 1), Extent(cs, mask, i - 1);
        var l, w := Len(cs[i - 1].format), Full(cs[i - 1]);
        FullPositive(cs[i - 1]);
        AlignUpBounds(q, w);
        MultipleOfMultiple(AlignUp(q, w), w, l);
        AlignUpLeast(p, l, AlignUp(q, w));
      }
    }
  }

  /** Where every length divides the longest, as with 8, 16, 32 and 64 bits, the walk stays
      inside data of any length exactly if the second pass takes no more than the size. */
  lemma SecondPassDecides(cs: seq<Channel>, mask: set<nat>, m: nat)
    requires Sized(cs, mask) && Ordered(cs) && Longest(cs, mask, m)
    ensures var size := Extent(cs, mask, |cs|);
            StaysInside(cs, mask, size) <==> Position(cs, mask, 2) <= Position(cs, mask, 1) + size
  {
    hide Walk, Extent, Longest, StaysInside, Indexed;
    var size := Extent(cs, mask, |cs|);
    InsideWhenSmall(cs, mask, size);
    assert Position(cs, mask, 0) == 0 && Position(cs, mask, 1) == Walk(cs, mask, 0, Indexed(cs));
    FirstPassFits(cs, mask, Indexed(cs));
    ExtentGrows(cs, mask, Indexed(cs), |cs|);
    hide Position;
    if Position(cs, mask, 2) <= Position(cs, mask, 1) + size {
      forall t: nat ensures Position(cs, mask, t + 1) <= Position(cs, mask, t) + size {
        if t >= 1 {
          PassesAlike(cs, mask, m, t);
        } else {
          assert Position(cs, mask, t) == 0 && Position(cs, mask, t + 1) <= size;
        }
      }
    }
    if PassesSmall(cs, mask, size) {
      assert Position(cs, mask, 1 + 1) <= Position(cs, mask, 1) + size;
    }
  }

  function Whole(index: nat, bits: nat): Channel {
    Channel(index, index, Format(bits, bits, 0, true, true, false, 1))
  }

  const WIDE_FIRST: seq<Channel> := [Whole(0, 32), Whole(1, 16)]
  const WIDE_BETWEEN: seq<Channel> := [Whole(0, 16), Whole(1, 32), Whole(2, 16)]
  const ALL: set<nat> := {0, 1, 2}

  lemma WideFirst()
    ensures var cs := WIDE_FIRST;
            && Sized(cs, ALL) && Ordered(cs) && Single(cs, ALL) && Indexed(cs) == 2 && Extent(cs, ALL, 2) == 6
            && Taken(cs[0], ALL) && Taken(cs[1], ALL)
  {
    var cs := WIDE_FIRST;
    IndexedEnd(cs, 2);
    assert Extent(cs, ALL, 0) == 0 && Extent(cs, ALL, 1) == 4;
  }

  lemma WideFirstPasses()
    ensures Sized(WIDE_FIRST, ALL)
    ensures Position(WIDE_FIRST, ALL, 1) == 6 && Position(WIDE_FIRST, ALL, 2) == 14
    ensures PassCalls(WIDE_FIRST, ALL, ALL, 6) == [Visit(0, 8), Visit(1, 12)]
  {
    var cs := WIDE_FIRST;
    WideFirst();
    hide Indexed, Extent;
    assert Walk(cs, ALL, 0, 0) == 0 && Walk(cs, ALL, 0, 1) == 4 && Walk(cs, ALL, 0, 2) == 6;
    assert Walk(cs, ALL, 6, 0) == 6 && Walk(cs, ALL, 6, 1) == 12 && Walk(cs, ALL, 6, 2) == 14;
    assert PassVisits(cs, ALL, ALL, 6, 0) == [] && PassVisits(cs, ALL, ALL, 6, 1) == [Visit(0, 8)];
    hide Walk, PassVisits;
    assert Position(cs, ALL, 0) == 0 && Position(cs, ALL, 1) == 6;
  }

  /** A 32-bit channel before a 16-bit one: the second pass visits 8 and 12 instead of 6 and
      10, and ends at 14. The walk leaves data of twelve bytes, two samples. */
  lemma WalksPastTheEnd()
    ensures var cs := WIDE_FIRST;
            && Sized(cs, ALL) && Ordered(cs) && Single(cs, ALL) && Extent(cs, ALL, 2) == 6
            && PassCalls(cs, ALL, ALL, 6) == [Visit(0, 8), Visit(1, 12)]
            && Position(cs, ALL, 1) == 6 && Position(cs, ALL, 2) == 14
            && !StaysInside(cs, ALL, 6) && Unsigned(12 - 14) >= 6
  {
    WideFirst();
    WideFirstPasses();
    assert Longest(WIDE_FIRST, ALL, 0);
    hide Position, PassCalls, Extent, Sized, StaysInside;
    SecondPassDecides(WIDE_FIRST, ALL, 0);
  }

  lemma WideBetween()
    ensures var cs := WIDE_BETWEEN;
            && Sized(cs, ALL) && Ordered(cs) && Single(cs, ALL) && Indexed(cs) == 3 && Extent(cs, ALL, 3) == 10
            && Taken(cs[0], ALL) && Taken(cs[1], ALL) && Taken(cs[2], ALL)
  {
    var cs := WIDE_BETWEEN;
    IndexedEnd(cs, 3);
    assert Extent(cs, ALL, 0) == 0 && Extent(cs, ALL, 1) == 2 && Extent(cs, ALL, 2) == 8;
  }

  lemma WideBetweenPasses()
    ensures Sized(WIDE_BETWEEN, ALL)
    ensures Position(WIDE_BETWEEN, ALL, 1) == 10 && Position(WIDE_BETWEEN, ALL, 2) == 18
  {
    var cs := WIDE_BETWEEN;
    WideBetween();
    hide Indexed, Extent;
    assert Walk(cs, ALL, 0, 0) == 0 && Walk(cs, ALL, 0, 1) == 2 && Walk(cs, ALL, 0, 2) == 8;
    assert Walk(cs, ALL, 0, 3) == 10;
    assert Walk(cs, ALL, 10, 0) == 10 && Walk(cs, ALL, 10, 1) == 12 && Walk(cs, ALL, 10, 2) == 16;
    assert Walk(cs, ALL, 10, 3) == 18;
    hide Walk;
    assert Position(cs, ALL, 0) == 0 && Position(cs, ALL, 1) == 10;
  }

  lemma WideBetweenLongest()
    ensures Sized(WIDE_BETWEEN, ALL) && Longest(WIDE_BETWEEN, ALL, 1) && !Divides(WIDE_BETWEEN, ALL, 10)
  {
    WideBetween();
    hide Extent, Indexed;
    assert 10 % Len(WIDE_BETWEEN[1].format) == 2;
  }

  /** Between 16-bit channels a 32-bit one spoils the agreement, too, but the walk stays in
      the data: its later passes are shorter than a sample. */
  lemma DisagreesInside()
    ensures var cs := WIDE_BETWEEN;
            && Sized(cs, ALL) && Ordered(cs) && Single(cs, ALL) && Extent(cs, ALL, 3) == 10
            && !Divides(cs, ALL, 10) && Position(cs, ALL, 1) == 10 && Position(cs, ALL, 2) == 18
            && StaysInside(cs, ALL, 10)
  {
    WideBetween();
    WideBetweenPasses();
    WideBetweenLongest();
    hide Position, Extent, Sized, StaysInside, Longest;
    SecondPassDecides(WIDE_BETWEEN, ALL, 1);
  }

  /** Two channels in one 16-bit word: a value of twelve bits and a tag of four. */
  const SHARED_WORD: seq<Channel> := [
    Channel(0, 0, Format(16, 12, 0, false, false, false, 1)),
    Channel(0, 1, Format(16, 4, 12, false, false, false, 1))]

  /** With only the first of them enabled a sample has two bytes, but no pass moves on. */
  lemma SharedWordRests()
    ensures var cs, mask := SHARED_WORD, {0};
            && Sized(cs, mask) && Room(cs, mask, BySize, Indexed(cs)) == 2 && !Moves(cs, mask)
            && PassCalls(cs, mask, mask, 0) == [Visit(0, 0)]
  {
    var cs, mask := SHARED_WORD, {0};
    IndexedEnd(cs, 2);
    hide Indexed;
    assert !Ends(cs, 0) && !Taken(cs[1], mask);
    assert Room(cs, mask, BySize, 0) == 0 && LastTaken(cs, mask, 0) == -1 && Room(cs, mask, BySize, 1) == 2;
    assert PassVisits(cs, mask, mask, 0, 1) == [Visit(0, 0)];
  }
}
