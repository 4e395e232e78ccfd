/** The blocks in which all attributes of a device travel at once: a big-endian length, then
    the bytes, filled up to a multiple of four. */
module AttrFraming {
  import opened Bytes
  import opened Callbacks
  import opened Errors

  /** What reading or printing one attribute gave: its length, or a negative error. */
  datatype Item = Item(code: int, bytes: seq<Byte>)

  predicate InRange(code: int) {
    -0x8000_0000 <= code < 0x8000_0000
  }

  predicate Sane(x: Item) {
    InRange(x.code) && |x.bytes| == if x.code > 0 then x.code else 0
  }

  // ---------------------------------------------------------------- headers

  function Header(code: int): (h: seq<Byte>)
    requires InRange(code)
    ensures |h| == 4
  {
    var u := if code < 0 then code + 0x1_0000_0000 else code;
    [u / 0x100_0000, u / 0x1_0000 % 0x100, u / 0x100 % 0x100, u % 0x100]
  }

  function HeaderCode(h: seq<Byte>): int
    requires |h| == 4
  {
    var a: int, b: int, c: int, d: int := h[0], h[1], h[2], h[3];
    var u := a * 0x100_0000 + b * 0x1_0000 + c * 0x100 + d;
    if u >= 0x8000_0000 then u - 0x1_0000_0000 else u
  }

  lemma HeaderRoundTrip(code: int)
    requires InRange(code)
    ensures HeaderCode(Header(code)) == code
  {
    var u := if code < 0 then code + 0x1_0000_0000 else code;
    var a, b := u / 0x100, u / 0x1_0000;
    assert a / 0x100 == b && b / 0x100 == u / 0x100_0000;
  }

  /** The four bytes are the code as an unsigned number, highest byte first. */
  lemma HeaderIsBigEndian(code: int)
    requires InRange(code)
    ensures BigVal(Header(code)) == if code < 0 then code + 0x1_0000_0000 else code
  {
    var u := if code < 0 then code + 0x1_0000_0000 else code;
    BigValOfFour(u / 0x100_0000, u / 0x1_0000 % 0x100, u / 0x100 % 0x100, u % 0x100);
    FourDigits(u);
    hide BigVal;
  }

  lemma FourDigits(u: nat)
    ensures ((u / 0x100_0000 * 256 + u / 0x1_0000 % 0x100) * 256 + u / 0x100 % 0x100) * 256 + u % 0x100 == u
  {
    var a := u / 0x100;
    var b := a / 0x100;
    assert u / 0x1_0000 == b && u / 0x100_0000 == b / 0x100;
    assert b == b / 0x100 * 256 + b % 0x100 && a == b * 256 + a % 0x100;
  }

  lemma BigValOfFour(a: Byte, b: Byte, c: Byte, d: Byte)
    ensures BigVal([a, b, c, d]) == ((a * 256 + b) * 256 + c) * 256 + d
  {
    assert [a, b, c, d][..3] == [a, b, c] && [a, b, c][..2] == [a, b];
    ValOfTwo(a, b);
  }

  /** The length in the stream: up to the next multiple of four. */
  function Padded(code: int): nat {
    if code <= 0 then 0 else if code % 4 != 0 then (code / 4 + 1) * 4 else code
  }

  lemma PaddedBounds(code: int)
    ensures Padded(code) % 4 == 0 && (code > 0 ==> code <= Padded(code) < code + 4)
    ensures code <= 0 ==> Padded(code) == 0
  {
  }

  function Size(xs: seq<Item>): nat {
    if xs == [] then 0 else Size(xs[..|xs| - 1]) + 4 + Padded(xs[|xs| - 1].code)
  }

  // ----------------------------------------------------------------- frames

  /** s begins with the frame of x. */
  predicate Leads(s: seq<Byte>, x: Item) {
    && Sane(x) && |s| >= 4 + Padded(x.code)
    && HeaderCode(s[..4]) == x.code
    && s[4..4 + |x.bytes|] == x.bytes
  }

  /** s is the frames of xs, whatever the padding. */
  predicate Framed(s: seq<Byte>, xs: seq<Item>)
    decreases |xs|
  {
    if xs == [] then s == []
    else Leads(s, xs[0]) && Framed(s[4 + Padded(xs[0].code)..], xs[1..])
  }

  lemma LeadsMore(s: seq<Byte>, x: Item, t: seq<Byte>)
    requires Leads(s, x)
    ensures Leads(s + t, x) && (s + t)[4 + Padded(x.code)..] == s[4 + Padded(x.code)..] + t
  {
    hide HeaderCode;
    PaddedBounds(x.code);
    hide Padded;
    assert (s + t)[..4] == s[..4] && (s + t)[4..4 + |x.bytes|] == s[4..4 + |x.bytes|];
  }

  lemma {:induction false} FramedMore(s: seq<Byte>, xs: seq<Item>, t: seq<Byte>, x: Item)
    requires Framed(s, xs) && Framed(t, [x])
    ensures Framed(s + t, xs + [x])
    decreases |xs|
  {
    if xs == [] {
      assert s + t == t && xs + [x] == [x];
    } else {
      assert |s| >= 4 + Padded(xs[0].code);
      hide Leads, Padded;
      FramedMore(s[4 + Padded(xs[0].code)..], xs[1..], t, x);
      assert (xs + [x])[1..] == xs[1..] + [x];
      LeadsMore(s, xs[0], t);
    }
  }

  /** Header, bytes, padding, in this order: a value of two bytes and an error. */
  lemma TwoFrames(a: Byte, b: Byte, p: Byte, q: Byte)
    ensures Framed([0, 0, 0, 2, a, b, p, q, 255, 255, 255, 254], [Item(2, [a, b]), Item(-2, [])])
  {
    var s, x, y := [0, 0, 0, 2, a, b, p, q, 255, 255, 255, 254], Item(2, [a, b]), Item(-2, []);
    assert s[..4] == [0, 0, 0, 2] && s[4..6] == [a, b] && HeaderCode([0, 0, 0, 2]) == 2;
    assert s[8..] == [255, 255, 255, 254] && HeaderCode([255, 255, 255, 254]) == -2;
    assert s[8..][..4] == s[8..] && s[8..][4..] == [] && [x, y][1..] == [y] && [y][1..] == [];
    assert s[8..][4..4] == [];
    assert Leads(s[8..], y) && Framed(s[8..], [y]);
  }

  /** A stream holds at most one list of items of a given length. */
  lemma {:induction false} FramedUnique(s: seq<Byte>, xs: seq<Item>, ys: seq<Item>)
    requires Framed(s, xs) && Framed(s, ys) && |xs| == |ys|
    ensures xs == ys
    decreases |xs|
  {
    hide HeaderCode, Padded;
    if xs != [] {
      assert xs[0] == ys[0];
      FramedUnique(s[4 + Padded(xs[0].code)..], xs[1..], ys[1..]);
      assert xs == [xs[0]] + xs[1..] && ys == [ys[0]] + ys[1..];
    }
  }

  // --------------------------------------------------------- reading a stream

  /** s is n frames and nothing else. */
  predicate WellFormed(s: seq<Byte>, n: nat)
    decreases n
  {
    if n == 0 then s == []
    else |s| >= 4 && 4 + Padded(HeaderCode(s[..4])) <= |s| && WellFormed(s[4 + Padded(HeaderCode(s[..4]))..], n - 1)
  }

  /** What follows the first frame; padding may be missing at the very end. */
  function Rest(s: seq<Byte>): seq<Byte>
    requires |s| >= 4
  {
    if 4 + Padded(HeaderCode(s[..4])) <= |s| then s[4 + Padded(HeaderCode(s[..4]))..] else []
  }

  /** n items can be read from s. */
  predicate Readable(s: seq<Byte>, n: nat)
    decreases n
  {
    n == 0 || (|s| >= 4 && HeaderCode(s[..4]) <= |s| - 4 && Readable(Rest(s), n - 1))
  }

  function FirstItem(s: seq<Byte>): (x: Item)
    requires |s| >= 4 && HeaderCode(s[..4]) <= |s| - 4
  {
    var code := HeaderCode(s[..4]);
    Item(code, if code > 0 then s[4..4 + code] else [])
  }

  function Items(s: seq<Byte>, n: nat): (xs: seq<Item>)
    requires Readable(s, n)
    ensures |xs| == n
    decreases n
  {
    if n == 0 then [] else [FirstItem(s)] + Items(Rest(s), n - 1)
  }

  lemma FirstLeads(s: seq<Byte>)
    requires |s| >= 4 && 4 + Padded(HeaderCode(s[..4])) <= |s|
    ensures HeaderCode(s[..4]) <= |s| - 4 && InRange(HeaderCode(s[..4]))
    ensures FirstItem(s).code == HeaderCode(s[..4]) && Leads(s, FirstItem(s))
  {
    PaddedBounds(HeaderCode(s[..4]));
    assert InRange(HeaderCode(s[..4]));
    hide HeaderCode, Padded;
  }

  /** The well-formed streams are those that hold the frames of some items. */
  lemma {:induction false} WellFormedFramed(s: seq<Byte>, n: nat)
    requires WellFormed(s, n)
    ensures Readable(s, n) && Framed(s, Items(s, n))
    decreases n
  {
    hide HeaderCode, Padded, Leads, FirstItem, Framed;
    if n == 0 {
      EmptyBlock(s);
    } else {
      FirstLeads(s);
      var rest := s[4 + Padded(HeaderCode(s[..4]))..];
      assert rest == Rest(s);
      hide Rest, WellFormed;
      WellFormedFramed(rest, n - 1);
      FramedFirst(s, FirstItem(s), Items(rest, n - 1));
    }
  }

  lemma FramedFirst(s: seq<Byte>, x: Item, xs: seq<Item>)
    requires Leads(s, x) && Framed(s[4 + Padded(x.code)..], xs)
    ensures Framed(s, [x] + xs)
  {
    assert ([x] + xs)[1..] == xs;
    hide Leads, Padded;
  }

  lemma EmptyBlock(s: seq<Byte>)
    requires s == []
    ensures Framed(s, []) && Size([]) == 0
  {
  }

  lemma {:induction false} FramesCount(s: seq<Byte>, xs: seq<Item>)
    requires Framed(s, xs)
    ensures WellFormed(s, |xs|)
    decreases |xs|
  {
    hide HeaderCode, Padded, Sane;
    if xs != [] {
      FramesCount(s[4 + Padded(xs[0].code)..], xs[1..]);
    }
  }

  /** The items of a stream are the ones it was made of. */
  lemma FramedWellFormed(s: seq<Byte>, xs: seq<Item>)
    requires Framed(s, xs)
    ensures WellFormed(s, |xs|) && Readable(s, |xs|) && Items(s, |xs|) == xs
  {
    hide WellFormed, Readable, Items, Framed;
    FramesCount(s, xs);
    WellFormedFramed(s, |xs|);
    FramedUnique(s, xs, Items(s, |xs|));
  }

  datatype Verdict = Accepted | Refused | Overrun

  const WORD := 0x1_0000_0000_0000_0000

  /** Lengths are held in signed 32-bit numbers. */
  const MAX_BLOCK := 0x7fff_ffff

  /** The frame at position at decides, and the frames behind it. */
  lemma WellFormedStep(s: seq<Byte>, at: nat, n: nat)
    requires at + 4 <= |s| && n > 0
    ensures var next := at + 4 + Padded(HeaderCode(s[at..at + 4]));
            WellFormed(s[at..], n) <==> next <= |s| && WellFormed(s[next..], n - 1)
  {
    hide HeaderCode, Padded;
    assert s[at..][..4] == s[at..at + 4];
    var k := 4 + Padded(HeaderCode(s[at..at + 4]));
    if at + k <= |s| {
      assert s[at..][k..] == s[at + k..];
    }
  }

  /** The padding of some frame but the last sticks out at the end of s. */
  predicate RunsOver(s: seq<Byte>, n: nat)
    decreases n
  {
    n > 0 && |s| >= 4 && HeaderCode(s[..4]) <= |s| - 4 &&
    if 4 + Padded(HeaderCode(s[..4])) > |s| then n > 1 else RunsOver(s[4 + Padded(HeaderCode(s[..4]))..], n - 1)
  }

  lemma RunsOverStep(s: seq<Byte>, at: nat, n: nat)
    requires at + 4 <= |s| && n > 0
    ensures var code := HeaderCode(s[at..at + 4]);
            var next := at + 4 + Padded(code);
            RunsOver(s[at..], n) <==>
            code <= |s| - at - 4 && if next > |s| then n > 1 else RunsOver(s[next..], n - 1)
  {
    hide HeaderCode, Padded;
    assert s[at..][..4] == s[at..at + 4];
    var k := 4 + Padded(HeaderCode(s[at..at + 4]));
    if at + k <= |s| {
      assert s[at..][k..] == s[at + k..];
    }
  }

  /** Missing padding behind the last frame does no harm. */
  lemma LastPaddingMissing(s: seq<Byte>)
    ensures !RunsOver(s, 0) && !RunsOver(s, 1)
  {
  }

  /** That takes a stream that is not made of whole words, and happens on five bytes. */
  lemma {:induction false} RunsOverUnaligned(s: seq<Byte>, n: nat)
    requires RunsOver(s, n)
    ensures |s| % 4 != 0
    decreases n
  {
    hide HeaderCode, Padded;
    var code := HeaderCode(s[..4]);
    PaddedBounds(code);
    if 4 + Padded(code) <= |s| {
      var rest := s[4 + Padded(code)..];
      RunsOverUnaligned(rest, n - 1);
      StaysUnaligned(|rest|, Padded(code));
    } else {
      SticksOut(code, |s|);
    }
  }

  lemma StaysUnaligned(a: nat, b: nat)
    requires a % 4 != 0 && b % 4 == 0
    ensures (a + (4 + b)) % 4 != 0
  {
  }

  lemma SticksOut(code: int, len: nat)
    requires code <= len - 4 && 4 + Padded(code) > len && len >= 4
    ensures len % 4 != 0
  {
  }

  lemma FiveBytesRunOver(b: Byte)
    ensures RunsOver([0, 0, 0, 1, b], 2)
  {
    assert [0, 0, 0, 1, b][..4] == [0, 0, 0, 1];
    assert HeaderCode([0, 0, 0, 1]) == 1;
  }

  lemma Wraps(x: int)
    ensures 0 <= x < WORD ==> x % WORD == x
    ensures -4 < x < 0 ==> x % WORD == x + WORD
  {
  }

  /** local_buffer_analyze. A last frame without its padding makes len wrap around; with more
      attributes to come the next header is then read beyond the end of src. */
  method Analyze(nb: nat, src: seq<Byte>) returns (v: Verdict)
    requires |src| <= MAX_BLOCK
    ensures v == Accepted <==> WellFormed(src, nb)
    ensures v == Overrun <==> RunsOver(src, nb)
  {
    hide HeaderCode, WellFormed, RunsOver;
    assert src[0..] == src;
    var left, at, len := nb, 0, |src|;
    while left > 0
      invariant 0 <= left <= nb && at >= 0 && at % 4 == 0
      invariant at <= |src| ==> len == |src| - at && (WellFormed(src, nb) <==> WellFormed(src[at..], left))
      invariant at <= |src| ==> (RunsOver(src, nb) <==> RunsOver(src[at..], left))
      invariant at > |src| ==> len >= 4 && !WellFormed(src, nb) && (RunsOver(src, nb) <==> left > 0)
      decreases left
    {
      left := left - 1;
      if len < 4 {
        TooShort(src[at..], left + 1);
        return Refused;
      }
      if at + 4 > |src| {
        return Overrun;
      }
      WellFormedStep(src, at, left + 1);
      RunsOverStep(src, at, left + 1);
      var val := HeaderCode(src[at..at + 4]);
      PaddedBounds(val);
      at := at + 4;
      len := len - 4;
      if val > 0 {
        if val > len {
          return Refused;
        }
        if val % 4 != 0 {
          val := (val / 4 + 1) * 4;
        }
        Wraps(len - val);
        len := (len - val) % WORD;
        at := at + val;
      }
    }
    NothingLeft(src, at);
    return if len == 0 then Accepted else Refused;
  }

  lemma TooShort(s: seq<Byte>, n: nat)
    requires |s| < 4 && n > 0
    ensures !WellFormed(s, n) && !RunsOver(s, n)
  {
  }

  lemma NothingLeft(s: seq<Byte>, at: nat)
    ensures at <= |s| ==> (WellFormed(s[at..], 0) <==> at == |s|) && !RunsOver(s[at..], 0)
  {
  }

  /** An attribute's value handed on, by the attribute's position. */
  datatype Delivery = Delivery(attr: nat, bytes: seq<Byte>)

  /** Only values of positive length are handed on. */
  function Deliveries(xs: seq<Item>): seq<Delivery> {
    if xs == [] then []
    else
      Deliveries(xs[..|xs| - 1]) +
      if xs[|xs| - 1].code > 0 then [Delivery(|xs| - 1, xs[|xs| - 1].bytes)] else []
  }

  lemma DeliveriesMore(xs: seq<Item>, x: Item)
    ensures Deliveries(xs + [x]) == Deliveries(xs) + if x.code > 0 then [Delivery(|xs|, x.bytes)] else []
  {
    assert (xs + [x])[..|xs|] == xs;
  }

  /** What is handed on: the values of positive length, each with its attribute's position. */
  lemma {:induction false} DeliveriesExactly(xs: seq<Item>, d: Delivery)
    ensures d in Deliveries(xs) <==> d.attr < |xs| && xs[d.attr].code > 0 && d.bytes == xs[d.attr].bytes
  {
    if xs != [] {
      var front := xs[..|xs| - 1];
      DeliveriesExactly(front, d);
      assert d.attr < |front| ==> front[d.attr] == xs[d.attr];
    }
  }

  /** In the order of the attributes. */
  lemma {:induction false} DeliveriesInOrder(xs: seq<Item>)
    ensures forall d :: d in Deliveries(xs) ==> d.attr < |xs|
    ensures forall i, j :: 0 <= i < j < |Deliveries(xs)| ==> Deliveries(xs)[i].attr < Deliveries(xs)[j].attr
  {
    if xs != [] {
      var front := xs[..|xs| - 1];
      DeliveriesInOrder(front);
      assert forall i :: 0 <= i < |Deliveries(front)| ==> Deliveries(front)[i] in Deliveries(front);
    }
  }

  /** The position behind the frame at position at, with this code. */
  function Behind(s: seq<Byte>, at: nat, code: int): (next: nat)
    requires at + 4 <= |s|
    ensures at + 4 <= next <= |s|
  {
    if at + 4 + Padded(code) <= |s| then at + 4 + Padded(code) else |s|
  }

  function ItemAt(s: seq<Byte>, at: nat, code: int): Item
    requires at + 4 <= |s| && code <= |s| - at - 4
  {
    Item(code, if code > 0 then s[at + 4..at + 4 + code] else [])
  }

  lemma ItemsStep(s: seq<Byte>, at: nat, n: nat, code: int)
    requires at + 4 <= |s| && n > 0 && code == HeaderCode(s[at..at + 4])
    ensures Readable(s[at..], n) <==> code <= |s| - at - 4 && Readable(s[Behind(s, at, code)..], n - 1)
    ensures Readable(s[at..], n) ==>
              Items(s[at..], n) == [ItemAt(s, at, code)] + Items(s[Behind(s, at, code)..], n - 1)
  {
    hide HeaderCode, Padded;
    var t := s[at..];
    assert t[..4] == s[at..at + 4];
    if 4 + Padded(code) <= |t| {
      assert t[4 + Padded(code)..] == s[at + 4 + Padded(code)..];
    }
    assert 0 < code <= |t| - 4 ==> t[4..4 + code] == s[at + 4..at + 4 + code];
    assert s[|s|..] == [];
  }

  datatype Reply = Written(count: nat) | Error(code: nat) | PastEnd

  /** The round-up every one of the loops does. */
  method AlignLength(len: nat) returns (r: nat)
    requires len > 0
    ensures r == Padded(len)
  {
    r := len;
    if r % 4 != 0 {
      r := (r / 4 + 1) * 4;
    }
  }

  /** local_write_all_dev_attrs: the log holds the attributes written. */
  method WriteAll(nb: nat, src: seq<Byte>) returns (reply: Reply, log: seq<Delivery>)
    requires |src| <= MAX_BLOCK
    ensures WellFormed(src, nb) ==>
              Readable(src, nb) && reply == Written(|src|) && log == Deliveries(Items(src, nb))
    ensures !WellFormed(src, nb) ==> log == [] && reply == if RunsOver(src, nb) then PastEnd else Error(EINVAL)
  {
    log := [];
    var v := Analyze(nb, src);
    if v != Accepted {
      return if v == Overrun then PastEnd else Error(EINVAL), log;
    }
    WellFormedFramed(src, nb);
    var at;
    at, log := WriteItems(nb, src);
    reply := Written(at);
  }

  /** Its second step, on a stream found well-formed. */
  method WriteItems(nb: nat, src: seq<Byte>) returns (at: nat, log: seq<Delivery>)
    requires WellFormed(src, nb) && Readable(src, nb)
    ensures at == |src| && log == Deliveries(Items(src, nb))
  {
    hide HeaderCode, Padded, WellFormed, Framed, Readable, Items, Deliveries;
    assert src[0..] == src;
    Nothing();
    var i := 0;
    at, log := 0, [];
    ghost var done: seq<Item> := [];
    while i < nb
      invariant 0 <= i <= nb && 0 <= at <= |src| && |done| == i
      invariant WellFormed(src[at..], nb - i) && Readable(src[at..], nb - i)
      invariant Items(src, nb) == done + Items(src[at..], nb - i)
      invariant log == Deliveries(done)
    {
      LongEnough(src[at..], nb - i);
      WellFormedStep(src, at, nb - i);
      var val := HeaderCode(src[at..at + 4]);
      ItemsStep(src, at, nb - i, val);
      PaddedBounds(val);
      ghost var x := ItemAt(src, at, val);
      at := at + 4;
      DeliveriesMore(done, x);
      if val > 0 {
        log := log + [Delivery(i, src[at..at + val])];
        val := AlignLength(val);
        at := at + val;
      }
      OneMoreDone(done, x, Items(src[at..], nb - i - 1));
      done := done + [x];
      i := i + 1;
    }
    NothingLeft(src, at);
    NoItems(src[at..]);
    assert done + [] == done;
  }

  lemma OneMoreDone(done: seq<Item>, x: Item, rest: seq<Item>)
    ensures done + ([x] + rest) == (done + [x]) + rest
  {
  }

  lemma Nothing()
    ensures Deliveries([]) == []
  {
  }

  lemma NoItems(s: seq<Byte>)
    ensures Readable(s, 0) && Items(s, 0) == []
  {
  }

  lemma LongEnough(s: seq<Byte>, n: nat)
    requires Readable(s, n) && n > 0
    ensures |s| >= 4
  {
  }

  lemma NotReadable(s: seq<Byte>, n: nat)
    requires |s| < 4 && n > 0
    ensures !Readable(s, n)
  {
  }

  lemma {:induction false} DeliveriesPrefix(xs: seq<Item>, ys: seq<Item>)
    requires xs <= ys
    ensures Deliveries(xs) <= Deliveries(ys)
    decreases |ys|
  {
    if |xs| < |ys| {
      DeliveriesPrefix(xs, ys[..|ys| - 1]);
    } else {
      assert xs == ys;
    }
  }

  /** read_each_attr, once the block is in src: the log holds the calls made. */
  method ReadEach(count: nat, src: seq<Byte>, callback: Delivery -> int) returns (r: int, log: seq<Delivery>)
    requires |src| <= MAX_BLOCK
    ensures NoneFailed(log, callback) ==>
              if Readable(src, count) then r == 0 && log == Deliveries(Items(src, count)) else r == -EPROTO
    ensures !NoneFailed(log, callback) ==>
              NoneFailed(log[..|log| - 1], callback)
              && r == callback(log[|log| - 1]) < 0
    ensures Readable(src, count) ==> log <= Deliveries(Items(src, count))
  {
    hide HeaderCode, Padded, Readable, Items, Deliveries, NoneFailed;
    assert src[0..] == src;
    Nothing();
    log := [];
    NoFailureYet(callback);
    var at, i := 0, 0;
    ghost var done: seq<Item> := [];
    while i < count
      invariant 0 <= i <= count && 0 <= at <= |src| && |done| == i
      invariant Readable(src, count) <==> Readable(src[at..], count - i)
      invariant Readable(src, count) ==> Items(src, count) == done + Items(src[at..], count - i)
      invariant log == Deliveries(done) && NoneFailed(log, callback)
    {
      if |src| - at < 4 {
        NotReadable(src[at..], count - i);
        return -EPROTO, log;
      }
      var len := HeaderCode(src[at..at + 4]);
      ItemsStep(src, at, count - i, len);
      PaddedBounds(len);
      ghost var header := at;
      at := at + 4;
      if len > 0 && |src| - at < len {
        return -EPROTO, log;
      }
      ghost var x := ItemAt(src, header, len);
      DeliveriesMore(done, x);
      if len > 0 {
        var d := Delivery(i, src[at..at + len]);
        OneMoreCall(log, d, callback);
        log := log + [d];
        var ret := callback(d);
        if ret < 0 {
          if Readable(src, count) {
            DeliveriesPrefix(done + [x], Items(src, count));
          }
          return ret, log;
        }
        len := AlignLength(len);
        at := if len >= |src| - at then |src| else at + len;
      }
      if Readable(src, count) {
        OneMoreDone(done, x, Items(src[at..], count - i - 1));
      }
      done := done + [x];
      i := i + 1;
    }
    NoItems(src[at..]);
    assert done + [] == done;
    return 0, log;
  }

  // --------------------------------------------------------- writing a stream

  predicate NoError(xs: seq<Item>) {
    forall i :: 0 <= i < |xs| ==> xs[i].code >= 0
  }

  lemma SizeMore(xs: seq<Item>, k: nat)
    requires k < |xs|
    ensures Size(xs[..k + 1]) == Size(xs[..k]) + 4 + Padded(xs[k].code)
  {
    assert xs[..k + 1][..k] == xs[..k];
  }

  lemma {:induction false} SizeAligned(xs: seq<Item>)
    ensures Size(xs) % 4 == 0
  {
    hide Padded;
    if xs != [] {
      SizeAligned(xs[..|xs| - 1]);
      PaddedBounds(xs[|xs| - 1].code);
      MoreWords(Size(xs[..|xs| - 1]), Padded(xs[|xs| - 1].code));
    }
  }

  lemma MoreWords(a: nat, b: nat)
    requires a % 4 == 0 && b % 4 == 0
    ensures (a + 4 + b) % 4 == 0
  {
  }

  /** In a block of whole words a value that fits leaves room for its padding. */
  lemma PaddingFits(used: nat, code: int, len: nat)
    requires used % 4 == 0 && len % 4 == 0 && used + 4 <= len && code <= len - used - 4
    ensures used + 4 + Padded(code) <= len
  {
    var a, b := used / 4, len / 4;
    assert used == 4 * a && len == 4 * b;
    if code > 0 {
      assert code / 4 <= b - a - 1;
    }
  }

  method PutHeader(buf: array<Byte>, p: nat, code: int)
    requires InRange(code) && p + 4 <= buf.Length
    modifies buf
    ensures buf[..p] == old(buf[..p]) && buf[p + 4..] == old(buf[p + 4..])
    ensures buf[p..p + 4] == Header(code)
  {
    var h := Header(code);
    hide Header;
    buf[p], buf[p + 1], buf[p + 2], buf[p + 3] := h[0], h[1], h[2], h[3];
  }

  /** One frame; the callback or the file has filled in the bytes. */
  method PutFrame(buf: array<Byte>, p: nat, x: Item)
    requires Sane(x) && p + 4 + |x.bytes| <= buf.Length
    modifies buf
    ensures buf[..p] == old(buf[..p])
    ensures buf[p..p + 4] == Header(x.code) && buf[p + 4..][..|x.bytes|] == x.bytes
  {
    forall i | 0 <= i < |x.bytes| {
      buf[p + 4 + i] := x.bytes[i];
    }
    ghost var tail := buf[p + 4..];
    assert tail[..|x.bytes|] == x.bytes;
    PutHeader(buf, p, x.code);
  }

  lemma FrameInPlace(s: seq<Byte>, p: nat, x: Item)
    requires Sane(x) && p + 4 + Padded(x.code) <= |s| && p + 4 + |x.bytes| <= |s|
    requires s[p..p + 4] == Header(x.code) && s[p + 4..][..|x.bytes|] == x.bytes
    ensures Framed(s[p..p + 4 + Padded(x.code)], [x])
  {
    hide HeaderCode, Padded, Header;
    HeaderRoundTrip(x.code);
    PaddedBounds(x.code);
    var t := s[p..p + 4 + Padded(x.code)];
    assert t[..4] == s[p..p + 4];
    PartOfPart(s, p, 4 + Padded(x.code), 4, |x.bytes|);
    assert s[p + 4..][..|x.bytes|] == s[p + 4..p + 4 + |x.bytes|];
    assert t[4 + Padded(x.code)..] == [];
    assert [x][1..] == [];
  }

  /** Readers and printers are told how much room is left behind the header, and keep to it. */
  predicate RoomHeeded(xs: seq<Item>, len: nat) {
    forall k :: 0 <= k < |xs| && Size(xs[..k]) + 4 <= len ==> xs[k].code <= len - Size(xs[..k]) - 4
  }

  /** What write_each_attr comes to: the length of the block it passes on, the first error,
      or a header behind the end of a full block. */
  datatype Sent = Block(n: nat) | Failed(code: int) | Overfull

  /** The first value that fails, or for which the full block has no room. */
  function SendResult(xs: seq<Item>, len: nat): Sent {
    if xs == [] then Block(0)
    else
      var before := SendResult(xs[..|xs| - 1], len);
      if !before.Block? then before
      else if xs[|xs| - 1].code < 0 then Failed(xs[|xs| - 1].code)
      else if before.n + 4 > len then Overfull
      else Block(Size(xs))
  }

  lemma SendMore(xs: seq<Item>, len: nat, k: nat)
    requires k < |xs|
    ensures var before := SendResult(xs[..k], len);
            SendResult(xs[..k + 1], len)
            == if !before.Block? then before
               else if xs[k].code < 0 then Failed(xs[k].code)
               else if before.n + 4 > len then Overfull
               else Block(Size(xs[..k + 1]))
  {
    assert xs[..k + 1][..k] == xs[..k];
    hide Size;
  }

  /** A block that is not passed on stays what it is. */
  lemma {:induction false} SendStays(xs: seq<Item>, len: nat, k: nat)
    requires k <= |xs| && !SendResult(xs[..k], len).Block?
    ensures SendResult(xs, len) == SendResult(xs[..k], len)
    decreases |xs|
  {
    if k < |xs| {
      var front := xs[..|xs| - 1];
      assert front[..k] == xs[..k];
      SendStays(front, len, k);
    } else {
      assert xs[..k] == xs;
    }
  }

  /** Without an error the block is passed on exactly if the values fit. */
  lemma {:induction false} SendFits(xs: seq<Item>, len: nat)
    requires NoError(xs) && len % 4 == 0 && RoomHeeded(xs, len)
    ensures SendResult(xs, len) == if Size(xs) <= len then Block(Size(xs)) else Overfull
  {
    if xs != [] {
      var front, x := xs[..|xs| - 1], xs[|xs| - 1];
      assert forall k :: 0 <= k <= |front| ==> front[..k] == xs[..k];
      SendFits(front, len);
      SizeAligned(front);
      hide RoomHeeded;
      if Size(front) + 4 <= len {
        HeededAt(xs, len, |front|);
        PaddingFits(Size(front), x.code, len);
      }
    }
  }

  lemma HeededAt(xs: seq<Item>, len: nat, k: nat)
    requires RoomHeeded(xs, len) && k < |xs| && Size(xs[..k]) + 4 <= len
    ensures xs[k].code <= len - Size(xs[..k]) - 4
  {
    hide Size;
  }

  /** The first value that is an error. */
  function FirstError(xs: seq<Item>, from: nat): (k: nat)
    requires from <= |xs|
    ensures from <= k <= |xs| && (forall j :: from <= j < k ==> xs[j].code >= 0) && (k < |xs| ==> xs[k].code < 0)
    decreases |xs| - from
  {
    if from == |xs| || xs[from].code < 0 then from else FirstError(xs, from + 1)
  }

  /** What decides is whether the values before the first error fit. */
  lemma SendDecided(xs: seq<Item>, len: nat)
    requires len % 4 == 0 && RoomHeeded(xs, len)
    ensures var k := FirstError(xs, 0);
            SendResult(xs, len) == if Size(xs[..k]) > len then Overfull
                                   else if k < |xs| then Failed(xs[k].code) else Block(Size(xs))
  {
    var k := FirstError(xs, 0);
    assert forall j :: 0 <= j <= k ==> xs[..k][..j] == xs[..j];
    assert RoomHeeded(xs[..k], len);
    hide Size, RoomHeeded, SendResult;
    SendFits(xs[..k], len);
    if k < |xs| {
      SendMore(xs, len, k);
      SendStays(xs, len, if Size(xs[..k]) > len then k else k + 1);
    } else {
      assert xs[..k] == xs;
    }
  }

  function Zeros(n: nat): (z: seq<Byte>)
    ensures |z| == n
  {
    seq(n, _ => 0)
  }

  /** One value as long as its room, and an empty one behind it, are more than a block. */
  lemma FullThenEmpty(len: nat)
    requires 4 <= len <= MAX_BLOCK && len % 4 == 0
    ensures var xs := [Item(len - 4, Zeros(len - 4)), Item(0, [])];
            (forall x :: x in xs ==> Sane(x)) && RoomHeeded(xs, len) && SendResult(xs, len) == Overfull
  {
    var x, y := Item(len - 4, Zeros(len - 4)), Item(0, []);
    var xs := [x, y];
    assert xs[..0] == [] && xs[..1] == [x] && [x][..0] == [];
    assert Padded(len - 4) == len - 4 && Size([x]) == len;
    assert SendResult([x], len) == Block(len);
  }

  /** write_each_attr. */
  method WriteEach(xs: seq<Item>, buf: array<Byte>) returns (r: Sent)
    requires buf.Length % 4 == 0 && (forall x :: x in xs ==> Sane(x)) && RoomHeeded(xs, buf.Length)
    modifies buf
    ensures r == SendResult(xs, buf.Length)
    ensures r.Block? ==> r.n == Size(xs) <= buf.Length && Framed(buf[..r.n], xs)
  {
    hide Padded, Framed, Size, RoomHeeded, SendResult;
    EmptyBlock(buf[..0]);
    EmptySend(buf.Length);
    var ptr, i := 0, 0;
    while i < |xs|
      invariant 0 <= i <= |xs| && ptr >= 0 && SendResult(xs[..i], buf.Length) == Block(ptr)
      invariant ptr == Size(xs[..i]) <= buf.Length && Framed(buf[..ptr], xs[..i])
    {
      var x := xs[i];
      SendMore(xs, buf.Length, i);
      if x.code < 0 {
        SendStays(xs, buf.Length, i + 1);
        return Failed(x.code);
      }
      if buf.Length - ptr < 4 {
        SendStays(xs, buf.Length, i + 1);
        return Overfull;
      }
      ghost var next := FrameRoom(xs, buf.Length, i);
      ghost var before := buf[..ptr];
      PutFrame(buf, ptr, x);
      FrameInPlace(buf[..], ptr, x);
      AddFrame(before, xs, i, buf[..], ptr, next);
      ptr := ptr + 4;
      PaddedBounds(x.code);
      if x.code > 0 {
        var ret := AlignLength(x.code);
        ptr := ptr + ret;
      }
      i := i + 1;
    }
    assert xs[..|xs|] == xs;
    return Block(ptr);
  }

  lemma EmptySend(len: nat)
    ensures SendResult([], len) == Block(0)
  {
  }

  /** There is room for frame k, with its padding. */
  lemma FrameRoom(xs: seq<Item>, len: nat, k: nat) returns (next: nat)
    requires len % 4 == 0 && k < |xs| && RoomHeeded(xs, len) && Size(xs[..k]) + 4 <= len
    ensures next == Size(xs[..k + 1]) == Size(xs[..k]) + 4 + Padded(xs[k].code) <= len
    ensures xs[k].code <= len - Size(xs[..k]) - 4
  {
    hide Size, Padded;
    SizeAligned(xs[..k]);
    HeededAt(xs, len, k);
    PaddingFits(Size(xs[..k]), xs[k].code, len);
    SizeMore(xs, k);
    next := Size(xs[..k + 1]);
  }

  /** A block of k frames, and one more behind them. */
  lemma AddFrame(before: seq<Byte>, xs: seq<Item>, k: nat, after: seq<Byte>, p: nat, next: nat)
    requires k < |xs| && Framed(before, xs[..k]) && p <= next <= |after| && next == p + 4 + Padded(xs[k].code)
    requires after[..p] == before && Framed(after[p..next], [xs[k]])
    ensures Framed(after[..next], xs[..k + 1])
  {
    hide Framed, Padded;
    FramedMore(before, xs[..k], after[p..next], xs[k]);
    assert before + after[p..next] == after[..next] && xs[..k] + [xs[k]] == xs[..k + 1];
  }

  /** iio_device_*_attr_write_all through the local backend: the first error is passed on; if
      there is none and the values fit, every printed one is written, none is refused, and the
      whole block is consumed. */
  method SendAll(xs: seq<Item>, buf: array<Byte>) returns (reply: Reply, log: seq<Delivery>)
    requires buf.Length % 4 == 0 && buf.Length <= MAX_BLOCK
    requires (forall x :: x in xs ==> Sane(x)) && RoomHeeded(xs, buf.Length)
    modifies buf
    ensures var k := FirstError(xs, 0);
            if Size(xs[..k]) > buf.Length then reply == PastEnd && log == []
            else if k < |xs| then reply == Error(-xs[k].code) && log == []
            else reply == Written(Size(xs)) && log == Deliveries(xs)
  {
    hide Size, RoomHeeded, Framed, WellFormed, Readable, Items, Deliveries, SendResult;
    SendDecided(xs, buf.Length);
    var sent := WriteEach(xs, buf);
    match sent
    case Overfull =>
      return PastEnd, [];
    case Failed(code) =>
      return Error(-code), [];
    case Block(n) =>
      FramedWellFormed(buf[..n], xs);
      reply, log := WriteAll(|xs|, buf[..n]);
  }

  /** Some frame but the last begins inside len bytes and ends, with its padding, behind them. */
  ghost predicate HeaderOutside(xs: seq<Item>, len: nat) {
    exists j: nat :: 0 < j < |xs| && Straddles(xs, len, j)
  }

  /** Frame number j, counted from one, does. */
  predicate Straddles(xs: seq<Item>, len: nat, j: nat)
    requires 0 < j <= |xs|
  {
    Size(xs[..j - 1]) + 4 <= len < Size(xs[..j])
  }

  /** s holds the frames of xs, n bytes, but for padding behind its end. */
  ghost predicate Holds(s: seq<Byte>, n: nat, xs: seq<Item>) {
    if n <= |s| then Framed(s[..n], xs) else forall pad: seq<Byte> :: |pad| == n - |s| ==> Framed(s + pad, xs)
  }

  /** One more frame in place, at position p. */
  lemma HoldsMore(before: seq<Byte>, xs: seq<Item>, k: nat, after: seq<Byte>, p: nat)
    requires k < |xs| && Framed(before, xs[..k]) && p + 4 + |xs[k].bytes| <= |after| && after[..p] == before
    requires Sane(xs[k]) && after[p..p + 4] == Header(xs[k].code)
    requires after[p + 4..][..|xs[k].bytes|] == xs[k].bytes
    ensures Holds(after, p + 4 + Padded(xs[k].code), xs[..k + 1])
  {
    hide Framed, Padded, Header, Sane;
    var x, n := xs[k], p + 4 + Padded(xs[k].code);
    if n <= |after| {
      FrameInPlace(after, p, x);
      AddFrame(before, xs, k, after, p, n);
    } else {
      forall pad: seq<Byte> | |pad| == n - |after| ensures Framed(after + pad, xs[..k + 1]) {
        var s := after + pad;
        assert s[p..p + 4] == after[p..p + 4] && s[..p] == after[..p] && s[..n] == s;
        assert s[p + 4..][..|x.bytes|] == after[p + 4..][..|x.bytes|];
        FrameInPlace(s, p, x);
        AddFrame(before, xs, k, s, p, n);
      }
    }
  }

  /** local_read_all_dev_attrs: k values make a block of n bytes. past says that padding ran
      over the end and the next header lands outside dst. */
  method ReadAll(xs: seq<Item>, dst: array<Byte>) returns (n: nat, k: nat, past: bool)
    requires (forall x :: x in xs ==> Sane(x)) && RoomHeeded(xs, dst.Length)
    modifies dst
    ensures past <==> HeaderOutside(xs, dst.Length)
    ensures k <= |xs| && n == Size(xs[..k]) && Holds(dst[..], n, xs[..k])
    ensures past ==> k < |xs| && n > dst.Length
    ensures !past && k < |xs| ==> n <= dst.Length < n + 4
    ensures dst.Length % 4 == 0 ==> !past && n <= dst.Length && (k < |xs| ==> n == dst.Length)
  {
    hide Padded, Framed, Size, RoomHeeded, Holds, Straddles, HeaderOutside, Sane, Header;
    NothingHeld(dst[..]);
    n, k, past := 0, 0, false;
    var len: int := dst.Length;
    while len >= 4 && k < |xs|
      invariant 0 <= k <= |xs| && len == dst.Length - n && len >= 0
      invariant n == Size(xs[..k]) && Framed(dst[..n], xs[..k])
      invariant forall j: nat :: 0 < j <= k ==> !Straddles(xs, dst.Length, j)
    {
      var x := xs[k];
      HeededAt(xs, dst.Length, k);
      SizeMore(xs, k);
      BytesOf(x);
      ghost var before := dst[..n];
      PutFrame(dst, n, x);
      HoldsMore(before, xs, k, dst[..], n);
      PaddedBounds(x.code);
      var ret := 0;
      if x.code > 0 {
        ret := AlignLength(x.code);
      }
      n := n + 4 + ret;
      len := len - (4 + ret);
      k := k + 1;
      StraddlesWhen(xs, dst.Length, k);
      if len < 0 {
        past := k < |xs|;
        FirstStraddle(xs, dst.Length, k);
        AlignedInside(xs, dst.Length, k);
        return;
      }
      HeldInside(dst[..], n, xs[..k]);
    }
    NoneBehind(xs, dst.Length, k);
    HeldInside(dst[..], n, xs[..k]);
    if dst.Length % 4 == 0 {
      SizeAligned(xs[..k]);
      WholeWords(n, dst.Length);
    }
  }

  lemma NothingHeld(s: seq<Byte>)
    ensures Size([]) == 0 && Framed(s[..0], [])
  {
  }

  lemma BytesOf(x: Item)
    requires Sane(x)
    ensures InRange(x.code) && |x.bytes| == if x.code > 0 then x.code else 0
  {
  }

  lemma HeldInside(s: seq<Byte>, n: nat, xs: seq<Item>)
    requires n <= |s|
    ensures Holds(s, n, xs) <==> Framed(s[..n], xs)
  {
    hide Framed;
  }

  lemma StraddlesWhen(xs: seq<Item>, len: nat, j: nat)
    requires 0 < j <= |xs|
    ensures Straddles(xs, len, j) <==> Size(xs[..j - 1]) + 4 <= len < Size(xs[..j])
  {
    hide Size;
  }

  lemma FirstStraddle(xs: seq<Item>, len: nat, k: nat)
    requires 0 < k <= |xs| && Straddles(xs, len, k)
    requires forall j: nat :: 0 < j < k ==> !Straddles(xs, len, j)
    ensures HeaderOutside(xs, len) <==> k < |xs|
  {
    hide Straddles;
  }

  /** In whole words no frame does. */
  lemma AlignedInside(xs: seq<Item>, len: nat, j: nat)
    requires RoomHeeded(xs, len) && 0 < j <= |xs| && Straddles(xs, len, j)
    ensures len % 4 != 0
  {
    hide RoomHeeded;
    if len % 4 == 0 {
      var next := FrameRoom(xs, len, j - 1);
    }
    hide Size;
  }

  /** Nor one behind the place where less than a header's room, or nothing to read, is left. */
  lemma NoneBehind(xs: seq<Item>, len: nat, k: nat)
    requires k <= |xs| && (k == |xs| || len < Size(xs[..k]) + 4)
    requires forall j: nat :: 0 < j <= k ==> !Straddles(xs, len, j)
    ensures !HeaderOutside(xs, len)
  {
    hide Size;
    forall j: nat | 0 < j < |xs| ensures !Straddles(xs, len, j) {
      if j > k {
        assert xs[..j - 1][..k] == xs[..k];
        SizeGrows(xs[..j - 1], k);
      }
    }
  }

  lemma {:induction false} SizeOfEmpty(n: nat)
    ensures Size(seq(n, _ => Item(0, []))) == 4 * n
  {
    if n > 0 {
      SizeOfEmpty(n - 1);
      assert seq(n, _ => Item(0, []))[..n - 1] == seq(n - 1, _ => Item(0, []));
    }
  }

  /** m empty values, one of r bytes and another empty one. */
  function Filled(m: nat, r: nat): seq<Item> {
    seq(m, _ => Item(0, [])) + [Item(r, Zeros(r)), Item(0, [])]
  }

  lemma FilledSize(m: nat, r: nat)
    ensures Size(Filled(m, r)[..m]) == 4 * m && Size(Filled(m, r)[..m + 1]) == 4 * m + 4 + Padded(r)
  {
    SizeOfEmpty(m);
    assert Filled(m, r)[..m] == seq(m, _ => Item(0, []));
    SizeMore(Filled(m, r), m);
  }

  /** They run over a block that ends with the r bytes, if those need padding. */
  lemma FilledRunsOver(m: nat, r: nat, len: nat)
    requires 0 < r < 4 && len == 4 * m + 4 + r
    ensures HeaderOutside(Filled(m, r), len)
  {
    FilledSize(m, r);
    assert Padded(r) == 4;
    hide Size, Filled, Padded;
    assert |Filled(m, r)| == m + 2 by {
      FilledLength(m, r);
    }
    assert Straddles(Filled(m, r), len, m + 1);
  }

  lemma FilledLength(m: nat, r: nat)
    ensures |Filled(m, r)| == m + 2
  {
  }

  /** And no value is longer than the room it is told. */
  lemma FilledHeeds(m: nat, r: nat, len: nat)
    requires 0 < r < 4 && len == 4 * m + 4 + r
    ensures (forall x :: x in Filled(m, r) ==> Sane(x)) && RoomHeeded(Filled(m, r), len)
  {
    FilledSize(m, r);
    hide Size, Padded;
  }

  /** Callers are safe, whatever the attributes, exactly with blocks of whole words, or too
      short for a header. */
  lemma OverrunExactly(len: nat)
    ensures (forall xs: seq<Item> :: (forall x :: x in xs ==> Sane(x)) && RoomHeeded(xs, len) ==>
                                       !HeaderOutside(xs, len))
            <==> len % 4 == 0 || len < 4
  {
    hide RoomHeeded, Sane, Filled;
    if len % 4 == 0 || len < 4 {
      forall xs: seq<Item> | RoomHeeded(xs, len) ensures !HeaderOutside(xs, len) {
        forall j: nat | 0 < j < |xs| ensures !Straddles(xs, len, j) {
          if Straddles(xs, len, j) {
            AlignedInside(xs, len, j);
          }
        }
      }
    } else {
      var m, r := len / 4 - 1, len % 4;
      FilledRunsOver(m, r, len);
      FilledHeeds(m, r, len);
    }
  }

  lemma WholeWords(n: nat, len: nat)
    requires n % 4 == 0 && len % 4 == 0 && n <= len
    ensures len - n < 4 ==> n == len
  {
  }

  lemma {:induction false} NoMoreItems(s: seq<Byte>, xs: seq<Item>, n: nat)
    requires Framed(s, xs) && |xs| < n
    ensures !Readable(s, n)
    decreases |xs|
  {
    hide HeaderCode, Padded;
    if xs != [] {
      NoMoreItems(s[4 + Padded(xs[0].code)..], xs[1..], n - 1);
    }
  }

  /** iio_device_*_attr_read_all through the local backend: the callback sees every value that
      could be read, and a block too small for all attributes is a protocol error. */
  method FetchAll(xs: seq<Item>, buf: array<Byte>, callback: Delivery -> int)
    returns (r: int, log: seq<Delivery>)
    requires buf.Length % 4 == 0 && buf.Length <= MAX_BLOCK
    requires (forall x :: x in xs ==> Sane(x)) && RoomHeeded(xs, buf.Length)
    modifies buf
    ensures NoneFailed(log, callback) ==>
              if Size(xs) <= buf.Length then r == 0 && log == Deliveries(xs) else r == -EPROTO
    ensures !NoneFailed(log, callback) ==>
              NoneFailed(log[..|log| - 1], callback)
              && r == callback(log[|log| - 1]) < 0
  {
    hide Size, RoomHeeded, Framed, WellFormed, Readable, Items, Deliveries, NoneFailed;
    var n, k, past := ReadAll(xs, buf);
    SizeGrows(xs, k);
    assert xs[..|xs|] == xs;
    if k == |xs| {
      FramedWellFormed(buf[..n], xs);
    } else {
      NoMoreItems(buf[..n], xs[..k], |xs|);
    }
    r, log := ReadEach(|xs|, buf[..n], callback);
  }

  lemma {:induction false} SizeGrows(xs: seq<Item>, k: nat)
    requires k <= |xs|
    ensures Size(xs) >= Size(xs[..k]) && (k < |xs| ==> Size(xs) > Size(xs[..k]))
  {
    if k < |xs| {
      SizeGrows(xs[..|xs| - 1], k);
      assert xs[..|xs| - 1][..k] == xs[..k];
    } else {
      assert xs[..k] == xs;
    }
  }
}
