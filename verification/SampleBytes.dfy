/** The byte-level operations of the sample conversion on a little-endian host, as
    functions on byte strings, and what each does to the value. */
module SampleBytes {
  import opened Powers
  import opened Bytes

  function Reversed(b: seq<Byte>): (r: seq<Byte>)
    ensures |r| == |b|
  {
    seq(|b|, i requires 0 <= i < |b| => b[|b| - i - 1])
  }

  /** Reversing changes from one byte order to the other. */
  lemma {:induction false} ReversedValue(b: seq<Byte>)
    ensures Val(Reversed(b)) == BigVal(b)
    decreases |b|
  {
    if |b| > 0 {
      var front := b[..|b| - 1];
      ReversedValue(front);
      assert Reversed(b)[1..] == Reversed(front);
    }
  }

  // --------------------------------------------------------- shifts by less than 8

  lemma PowersOfByte(s: nat)
    requires 1 <= s <= 7
    ensures Pow2(s) * Pow2(8 - s) == 256 && Pow2(s) <= 128 && Pow2(8 - s) <= 128
  {
    Pow2Of8();
    Pow2Add(s, 8 - s);
    Pow2Mono(s, 7);
    Pow2Mono(8 - s, 7);
    assert Pow2(3) == 8;
    assert Pow2(7) == 128;
  }

  /** The bits of a byte from number s on. */
  function Upper(x: Byte, s: nat): (c: nat)
    requires 1 <= s <= 7
    ensures c == x / Pow2(s) && c < Pow2(8 - s)
  {
    PowersOfByte(s);
    QuotientBound(x, Pow2(s), Pow2(8 - s));
    x / Pow2(s)
  }

  /** Byte j after a right shift by s bits: its own high bits and the low bits of the
      next byte, cut to 8 bits. */
  function ShrByte(b: seq<Byte>, j: nat, s: nat): nat
    requires j < |b| && 1 <= s <= 7
  {
    if j + 1 < |b| then BitOr(Upper(b[j], s), b[j + 1] * Pow2(8 - s)) % 256 else Upper(b[j], s)
  }

  lemma ShrByteValue(x: Byte, y: Byte, s: nat)
    requires 1 <= s <= 7
    ensures BitOr(Upper(x, s), y * Pow2(8 - s)) % 256 == Upper(x, s) + (y % Pow2(s)) * Pow2(8 - s) < 256
  {
    PowersOfByte(s);
    OrAbove(Upper(x, s), y, 8 - s);
    hide BitOr, Pow2;
    CutHigh(Upper(x, s), y, Pow2(s), Pow2(8 - s));
  }

  lemma QuotientBound(x: nat, p: nat, q: nat)
    requires p >= 1 && x < p * q
    ensures x / p < q
  {
    if x / p >= q {
      MulMono(q, x / p, p);
    }
  }

  lemma CutHigh(a: nat, y: nat, p: nat, q: nat)
    requires p >= 1 && q >= 1 && p * q == 256 && a < q
    ensures (a + y * q) % 256 == a + (y % p) * q < 256
  {
    var h, l := Parts(y, p);
    Factored(y, h, p, l, q, a);
    SmallRest(q, p, a, l);
    DivModUnique(a + y * q, 256, h, l * q + a);
  }

  lemma Factored(y: nat, h: nat, p: nat, l: nat, q: nat, a: nat)
    requires y == h * p + l && p * q == 256
    ensures a + y * q == h * 256 + (l * q + a)
  {
    assert (h * p + l) * q == h * (p * q) + l * q;
  }

  function Shr(b: seq<Byte>, s: nat): (r: seq<Byte>)
    requires 1 <= s <= 7
    ensures |r| == |b|
  {
    ShrBytesFit(b, s);
    seq(|b|, j requires 0 <= j < |b| && ShrByte(b, j, s) < 256 => ShrByte(b, j, s))
  }

  lemma ShrBytesFit(b: seq<Byte>, s: nat)
    requires 1 <= s <= 7
    ensures forall j :: 0 <= j < |b| ==> ShrByte(b, j, s) < 256
  {
    forall j | 0 <= j < |b| ensures ShrByte(b, j, s) < 256 {
      if j + 1 == |b| {
        PowersOfByte(s);
      }
    }
  }

  lemma {:induction false} ShrValue(b: seq<Byte>, s: nat)
    requires 1 <= s <= 7
    ensures Val(Shr(b, s)) == Val(b) / Pow2(s)
  {
    hide Pow2, BitOr;
    if |b| == 0 {
    } else if |b| == 1 {
      assert Shr(b, s) == [Upper(b[0], s)];
    } else {
      ShrValue(b[1..], s);
      ShrJoined(b, s);
    }
  }

  lemma ShrJoined(b: seq<Byte>, s: nat)
    requires 1 <= s <= 7 && |b| >= 2 && Val(Shr(b[1..], s)) == Val(b[1..]) / Pow2(s)
    ensures Val(Shr(b, s)) == Val(b) / Pow2(s)
  {
    hide *;
    var rest := b[1..];
    PowersOfByte(s);
    ShrTail(b, s);
    ShrHead(b, s);
    ShrByteValue(b[0], b[1], s);
    ValStep(b);
    ValStep(rest);
    ShrArithmetic(b[0], b[1], Val(rest), Val(rest[1..]), Pow2(s), Pow2(8 - s));
  }

  lemma ShrHead(b: seq<Byte>, s: nat)
    requires 1 <= s <= 7 && |b| >= 2
    ensures Val(Shr(b, s)) == BitOr(Upper(b[0], s), b[1] * Pow2(8 - s)) % 256 + 256 * Val(Shr(b, s)[1..])
  {
    hide BitOr, Pow2, Upper;
    assert Shr(b, s)[0] == ShrByte(b, 0, s);
  }

  lemma ShrTail(b: seq<Byte>, s: nat)
    requires 1 <= s <= 7 && |b| >= 2
    ensures Shr(b, s)[1..] == Shr(b[1..], s)
  {
    hide BitOr, Pow2;
    forall j | 0 <= j < |b| - 1 ensures ShrByte(b, j + 1, s) == ShrByte(b[1..], j, s) {
    }
    hide ShrByte;
  }

  lemma ShrArithmetic(b0: nat, b1: nat, v: nat, w: nat, p: nat, q: nat)
    requires p >= 1 && p * q == 256 && v == b1 + 256 * w
    ensures b0 / p + (b1 % p) * q + 256 * (v / p) == (b0 + 256 * v) / p
  {
    hide *;
    var h, l := Parts(v, p);
    ByteTimes(w, q, p);
    ModShift(b1, w * q, p);
    ByteTimes(v, q, p);
    ModShift(b0, v * q, p);
    Factored(v, h, p, l, q, 0);
  }

  lemma ByteTimes(w: nat, q: nat, p: nat)
    requires p * q == 256
    ensures 256 * w == (w * q) * p
  {
    assert (w * q) * p == w * (p * q);
  }

  /** Byte j after a left shift by s bits, with the bits c entering at the bottom. */
  function ShlByte(b: seq<Byte>, j: nat, s: nat): nat
    requires j < |b| && 1 <= s <= 7
  {
    if j > 0 then BitOr((b[j] * Pow2(s)) % 256, Upper(b[j - 1], 8 - s)) % 256 else (b[j] * Pow2(s)) % 256
  }

  function Shl(b: seq<Byte>, s: nat): (r: seq<Byte>)
    requires 1 <= s <= 7
    ensures |r| == |b|
  {
    seq(|b|, j requires 0 <= j < |b| => ShlByte(b, j, s))
  }

  lemma {:induction false} OrCommutes(a: nat, b: nat)
    ensures BitOr(a, b) == BitOr(b, a)
    decreases a + b
  {
    if a > 0 || b > 0 {
      OrCommutes(a / 2, b / 2);
    }
  }

  lemma ShlByteValue(x: Byte, y: Byte, s: nat)
    requires 1 <= s <= 7
    ensures (x * Pow2(s)) % 256 == (x % Pow2(8 - s)) * Pow2(s)
    ensures BitOr((x * Pow2(s)) % 256, Upper(y, 8 - s)) % 256 == (x % Pow2(8 - s)) * Pow2(s) + Upper(y, 8 - s)
    ensures (x % Pow2(8 - s)) * Pow2(s) + Upper(y, 8 - s) < 256
  {
    hide *;
    var p, q, u := Pow2(s), Pow2(8 - s), Upper(y, 8 - s);
    var l := LowBits(x, q, p);
    PowersOfByte(s);
    CutHigh(0, x, q, p);
    OrAbove(u, l, s);
    OrCommutes(u, l * p);
    SpaceLeft(u, l, q, p);
  }

  lemma LowBits(x: nat, q: nat, p: nat) returns (l: nat)
    requires q >= 1
    ensures l == x % q < q && l * p == (x % q) * p
  {
    l := x % q;
  }

  lemma SpaceLeft(u: nat, l: nat, q: nat, p: nat)
    requires l < q && u < p && q * p == 256
    ensures (u + l * p) % 256 == l * p + u < 256
  {
    SmallRest(p, q, u, l);
    SmallMod(u + l * p, 256);
  }

  /** Left shift with the bits c entering at the bottom, byte by byte from the bottom. */
  function ShlFrom(b: seq<Byte>, c: nat, s: nat): nat
    requires 1 <= s <= 7
  {
    if |b| == 0 then 0
    else (b[0] % Pow2(8 - s)) * Pow2(s) + c + 256 * ShlFrom(b[1..], Upper(b[0], 8 - s), s)
  }

  function CarryOut(b: seq<Byte>, c: nat, s: nat): nat
    requires 1 <= s <= 7
  {
    if |b| == 0 then c else CarryOut(b[1..], Upper(b[0], 8 - s), s)
  }

  lemma {:induction false} ShlFromValue(b: seq<Byte>, c: nat, s: nat)
    requires 1 <= s <= 7
    ensures ShlFrom(b, c, s) + CarryOut(b, c, s) * Pow2(8 * |b|) == Val(b) * Pow2(s) + c
  {
    if |b| == 0 {
      assert Pow2(0) == 1;
    } else {
      var p, q := Pow2(s), Pow2(8 - s);
      var d, rest := Upper(b[0], 8 - s), b[1..];
      ShlFromValue(rest, d, s);
      PowersOfByte(s);
      Pow256Step(|b|);
      assert Val(b) == b[0] + 256 * Val(rest);
      var f, o, w := ShlFrom(rest, d, s), CarryOut(rest, d, s), Pow2(8 * |rest|);
      assert ShlFrom(b, c, s) == (b[0] % q) * p + c + 256 * f && CarryOut(b, c, s) == o;
      hide Pow2, Val, ShlFrom, CarryOut, Upper;
      ShlArithmetic(b[0], c, f, o, w, Val(rest), p, q);
    }
  }

  lemma ShlArithmetic(b0: nat, c: nat, f: nat, o: nat, w: nat, v: nat, p: nat, q: nat)
    requires q >= 1 && p * q == 256 && f + o * w == v * p + b0 / q
    ensures (b0 % q) * p + c + 256 * f + o * (256 * w) == (b0 + 256 * v) * p + c
  {
    var h, l := b0 / q, b0 % q;
    assert b0 == h * q + l;
    assert (h * q + l) * p == h * (p * q) + l * p;
    assert o * (256 * w) == 256 * (o * w);
    assert (b0 + 256 * v) * p == b0 * p + 256 * (v * p);
  }

  lemma {:induction false} ShlIsShlFrom(b: seq<Byte>, from: nat, s: nat)
    requires 1 <= s <= 7 && from <= |b|
    ensures Val(Shl(b, s)[from..]) == ShlFrom(b[from..], if from > 0 then Upper(b[from - 1], 8 - s) else 0, s)
    decreases |b| - from
  {
    if from < |b| {
      ShlIsShlFrom(b, from + 1, s);
      assert Shl(b, s)[from..][1..] == Shl(b, s)[from + 1..];
      assert b[from..][1..] == b[from + 1..];
      hide BitOr, Pow2, Upper;
      ShlByteValue(b[from], if from > 0 then b[from - 1] else 0, s);
    }
  }

  lemma ShlValue(b: seq<Byte>, s: nat)
    requires 1 <= s <= 7
    ensures Val(Shl(b, s)) == (Val(b) * Pow2(s)) % Pow2(8 * |b|)
  {
    hide Pow2, Val, ShlFrom, CarryOut, Shl;
    ShlIsShlFrom(b, 0, s);
    ShlFromValue(b, 0, s);
    ValBound(Shl(b, s));
    assert Shl(b, s)[0..] == Shl(b, s) && b[0..] == b;
    var f, o, w, t := Val(Shl(b, s)), CarryOut(b, 0, s), Pow2(8 * |b|), Val(b) * Pow2(s);
    assert f < w && f + o * w == t;
    hide *;
    DivModUnique(t, w, o, f);
  }

  // -------------------------------------------------------- shifts by any amount

  /** The bytes moved down by k, zeros moving in at the top. */
  function DropBytes(b: seq<Byte>, k: nat): (r: seq<Byte>)
    requires k <= |b|
    ensures |r| == |b|
  {
    b[k..] + Repeated(0, k)
  }

  function PushBytes(b: seq<Byte>, k: nat): (r: seq<Byte>)
    requires k <= |b|
    ensures |r| == |b|
  {
    Repeated(0, k) + b[..|b| - k]
  }

  lemma DropBytesValue(b: seq<Byte>, k: nat)
    requires k <= |b|
    ensures Val(DropBytes(b, k)) == Val(b) / Pow2(8 * k)
  {
    hide Pow2, Val;
    var low, high := b[..k], b[k..];
    ValConcat(high, Repeated(0, k));
    ValRepeated(k);
    TimesZero(Pow2(8 * |high|));
    ValConcat(low, high);
    assert b == low + high;
    ValBound(low);
    QuotientOf(Val(low), Pow2(8 * k), Val(high));
  }

  lemma TimesZero(p: nat)
    ensures p * 0 == 0
  {
  }

  lemma QuotientOf(low: nat, w: nat, high: nat)
    requires low < w
    ensures (low + w * high) / w == high
  {
    DivModUnique(low + w * high, w, high, low);
  }

  lemma PushBytesValue(b: seq<Byte>, k: nat)
    requires k <= |b|
    ensures Val(PushBytes(b, k)) == (Val(b) * Pow2(8 * k)) % Pow2(8 * |b|)
  {
    hide Pow2, Val;
    var n := |b| - k;
    var low, high := b[..n], b[n..];
    ValConcat(Repeated(0, k), low);
    ValRepeated(k);
    ValConcat(low, high);
    assert b == low + high;
    ValBound(low);
    Pow2Add(8 * n, 8 * k);
    assert 8 * n + 8 * k == 8 * |b|;
    PushArithmetic(Val(low), Val(high), Pow2(8 * n), Pow2(8 * k));
  }

  lemma PushArithmetic(l: nat, h: nat, m: nat, w: nat)
    requires l < m && w >= 1
    ensures m * w >= 1 && ((l + m * h) * w) % (m * w) == w * l
  {
    assert (l + m * h) * w == w * l + h * (m * w);
    SmallRest(w, m, 0, l);
    DivModUnique((l + m * h) * w, m * w, h, w * l);
  }

  /** The whole right shift: bytes first, then the remaining bits. */
  function ShiftRight(b: seq<Byte>, shift: nat): (r: seq<Byte>)
    requires shift / 8 <= |b|
    ensures |r| == |b|
  {
    var moved := if shift / 8 > 0 then DropBytes(b, shift / 8) else b;
    if shift % 8 > 0 then Shr(moved, shift % 8) else moved
  }

  function ShiftLeft(b: seq<Byte>, shift: nat): (r: seq<Byte>)
    requires shift / 8 <= |b|
    ensures |r| == |b|
  {
    var moved := if shift / 8 > 0 then PushBytes(b, shift / 8) else b;
    if shift % 8 > 0 then Shl(moved, shift % 8) else moved
  }

  lemma ShiftRightValue(b: seq<Byte>, shift: nat)
    requires shift / 8 <= |b|
    ensures Val(ShiftRight(b, shift)) == Val(b) / Pow2(shift)
  {
    hide Pow2, Val, Shr, DropBytes;
    var k, s := shift / 8, shift % 8;
    var moved := if k > 0 then DropBytes(b, k) else b;
    MovedDown(b, k);
    assert shift == 8 * k + s;
    if s > 0 {
      ShrValue(moved, s);
      Pow2Add(8 * k, s);
      var v, w, p, r := Val(b), Pow2(8 * k), Pow2(s), Val(ShiftRight(b, shift));
      assert r == v / w / p && Pow2(shift) == w * p;
      hide *;
      DivDiv(v, w, p);
    }
  }

  lemma MovedDown(b: seq<Byte>, k: nat)
    requires k <= |b|
    ensures Val(if k > 0 then DropBytes(b, k) else b) == Val(b) / Pow2(8 * k)
  {
    if k > 0 {
      DropBytesValue(b, k);
    } else {
      assert Pow2(0) == 1;
    }
  }

  lemma MovedUp(b: seq<Byte>, k: nat)
    requires k <= |b|
    ensures Val(if k > 0 then PushBytes(b, k) else b) == (Val(b) * Pow2(8 * k)) % Pow2(8 * |b|)
  {
    if k > 0 {
      PushBytesValue(b, k);
    } else {
      assert Pow2(0) == 1;
      ValBound(b);
      hide Pow2;
      SmallMod(Val(b), Pow2(8 * |b|));
    }
  }

  lemma ShiftLeftValue(b: seq<Byte>, shift: nat)
    requires shift / 8 <= |b|
    ensures Val(ShiftLeft(b, shift)) == (Val(b) * Pow2(shift)) % Pow2(8 * |b|)
  {
    hide Pow2, Val, Shl, PushBytes;
    var k, s := shift / 8, shift % 8;
    var moved := if k > 0 then PushBytes(b, k) else b;
    MovedUp(b, k);
    assert shift == 8 * k + s;
    if s > 0 {
      ShlValue(moved, s);
      Pow2Add(8 * k, s);
      TwoShifts(Val(b), Pow2(8 * k), Pow2(s), Pow2(8 * |b|));
    }
  }

  lemma TwoShifts(v: nat, w: nat, p: nat, m: nat)
    requires m >= 1
    ensures (((v * w) % m) * p) % m == (v * (w * p)) % m
  {
    ModMul(v * w, p, m);
    assert (v * w) * p == v * (w * p);
  }

  lemma SmallMod(x: nat, n: nat)
    requires x < n
    ensures x % n == x
  {
  }

  // --------------------------------------------------------- masks and signs

  function MaskByte(b: seq<Byte>, bits: nat, j: nat): Byte
    requires j < |b|
  {
    if j < bits / 8 then b[j]
    else if j == bits / 8 && bits % 8 > 0 then
      AndMask(b[j], bits % 8);
      MaskedFits(b[j], bits % 8);
      BitAnd(b[j], Pow2(bits % 8) - 1)
    else 0
  }

  lemma MaskedFits(x: Byte, k: nat)
    ensures x % Pow2(k) < 256
  {
    hide Pow2;
  }

  function Masked(b: seq<Byte>, bits: nat): (r: seq<Byte>)
    ensures |r| == |b|
  {
    seq(|b|, j requires 0 <= j < |b| => MaskByte(b, bits, j))
  }

  lemma {:induction false} MaskedValue(b: seq<Byte>, bits: nat)
    requires bits <= 8 * |b|
    ensures Val(Masked(b, bits)) == Val(b) % Pow2(bits)
  {
    if |b| == 0 {
      assert Pow2(0) == 1;
    } else if bits >= 8 {
      MaskedValue(b[1..], bits - 8);
      MaskTail(b, bits);
      Pow2Of8();
      Pow2Add(8, bits - 8);
      var p, v, x, m := Pow2(bits - 8), Val(b[1..]), b[0], Val(Masked(b, bits));
      assert Pow2(bits) == 256 * p && Val(b) == x + 256 * v && m == x + 256 * (v % p);
      hide *;
      ByteDivMod(x, v, p);
    } else {
      MaskedLow(b, bits);
      MaskPower(bits);
      var p, v, x := Pow2(bits), Val(b[1..]), b[0];
      assert Val(b) == x + 256 * v;
      hide *;
      ByteModSmall(x, v, p);
    }
  }

  lemma MaskedLow(b: seq<Byte>, bits: nat)
    requires |b| >= 1 && bits < 8
    ensures Val(Masked(b, bits)) == b[0] % Pow2(bits)
  {
    MaskedBytes(b, bits);
    ValRepeated(|b| - 1);
    hide Pow2, Masked;
    ValStep(Masked(b, bits));
  }

  lemma MaskedBytes(b: seq<Byte>, bits: nat)
    requires |b| >= 1 && bits < 8
    ensures Masked(b, bits)[0] == b[0] % Pow2(bits)
    ensures Masked(b, bits)[1..] == Repeated(0, |b| - 1)
  {
    hide Pow2, BitAnd;
    AndMask(b[0], bits);
    if bits == 0 {
      ModOfOne(b[0]);
    }
  }

  lemma ModOfOne(x: nat)
    ensures x % Pow2(0) == 0
  {
  }

  lemma MaskPower(bits: nat)
    requires bits < 8
    ensures Pow2(bits) <= 128 && 256 % Pow2(bits) == 0
  {
    if bits > 0 {
      PowersOfByte(bits);
      hide Pow2;
      var p, q := Pow2(bits), Pow2(8 - bits);
      ModShift(0, q, p);
      assert q * p == 256;
    } else {
      assert Pow2(0) == 1;
    }
  }

  lemma MaskTail(b: seq<Byte>, bits: nat)
    requires |b| >= 1 && bits >= 8
    ensures Masked(b, bits)[1..] == Masked(b[1..], bits - 8)
    ensures Masked(b, bits)[0] == b[0]
  {
    hide BitAnd, Pow2;
  }

  lemma ByteModSmall(x: Byte, v: nat, p: nat)
    requires 1 <= p && 256 % p == 0
    ensures (x + 256 * v) % p == x % p
  {
    var d := 256 / p;
    assert 256 == d * p;
    assert 256 * v == (d * v) * p;
    ModShift(x, d * v, p);
  }

  /** The byte that holds the sign bit, as the code finds it from the other end. */
  function SignByte(bits: nat, len: nat): (j: nat)
    requires 1 <= bits <= 8 * len
    ensures j < len && j == (bits - 1) / 8
  {
    len - 1 - (8 * len - bits) / 8
  }

  predicate SignBitSet(b: seq<Byte>, bits: nat)
    requires 1 <= bits <= 8 * |b|
  {
    BitAnd(b[SignByte(bits, |b|)], Pow2((bits - 1) % 8)) != 0
  }

  /** The sign byte itself: the bits from the sign on all set, or all cleared. */
  function SignedByte(x: Byte, m: nat, negative: bool): (y: nat)
    requires m < 8 && 1 <= Pow2(m) <= 256
  {
    if negative then BitOr(x, 256 - Pow2(m)) else BitAnd(x, Pow2(m) - 1)
  }

  lemma SignedByteValue(x: Byte, m: nat, negative: bool)
    requires m < 8
    ensures 1 <= Pow2(m) <= 128
    ensures SignedByte(x, m, negative) == x % Pow2(m) + (if negative then 256 - Pow2(m) else 0) < 256
  {
    hide BitOr, BitAnd, Pow2;
    MaskPower(m);
    RestBelow(x, Pow2(m));
    if negative {
      SetFrom(x, m);
    } else {
      AndMask(x, m);
    }
  }

  lemma SetFrom(x: Byte, m: nat)
    requires m < 8
    ensures 1 <= Pow2(m) <= 128
    ensures BitOr(x, 256 - Pow2(m)) == x % Pow2(m) + (256 - Pow2(m))
  {
    hide BitOr, Pow2;
    MaskPower(m);
    Pow2Of8();
    OrHigh(x, m, 8);
  }

  lemma RestBelow(x: nat, p: nat)
    requires p >= 1
    ensures x % p < p
  {
  }

  function ExtendedByte(b: seq<Byte>, bits: nat, j: nat): Byte
    requires 1 <= bits <= 8 * |b| && j < |b|
  {
    var at := SignByte(bits, |b|);
    var negative := SignBitSet(b, bits);
    SignedByteValue(b[at], (bits - 1) % 8, negative);
    if j < at then b[j]
    else if j == at then SignedByte(b[at], (bits - 1) % 8, negative)
    else if negative then 255 else 0
  }

  function Extended(b: seq<Byte>, bits: nat): (r: seq<Byte>)
    requires 1 <= bits <= 8 * |b|
    ensures |r| == |b|
  {
    seq(|b|, j requires 0 <= j < |b| => ExtendedByte(b, bits, j))
  }

  /** Two's-complement extension of the low bits of v to the full width. */
  function SignExtended(v: nat, bits: nat, width: nat): int
    requires 1 <= bits <= width
  {
    SignFill(v, Pow2(bits - 1), Pow2(width))
  }

  function SignFill(v: nat, p: nat, top: nat): int
    requires p >= 1
  {
    if (v / p) % 2 == 1 then v % p + (top - p) else v % p
  }

  lemma SignParity(x: Byte, v: nat, m: nat)
    requires m < 8
    ensures (x + 256 * v) % Pow2(m) == x % Pow2(m)
    ensures ((x + 256 * v) / Pow2(m)) % 2 == (x / Pow2(m)) % 2
  {
    hide Pow2;
    MaskPower(m);
    EvenQuotient(m);
    ParityKept(x, v, Pow2(7 - m), Pow2(m));
  }

  lemma ParityKept(x: Byte, v: nat, d: nat, p: nat)
    requires p >= 1 && 256 == 2 * (d * p)
    ensures (x + 256 * v) % p == x % p && ((x + 256 * v) / p) % 2 == (x / p) % 2
  {
    assert 256 * v == (2 * (d * v)) * p by {
      assert 256 * v == 2 * (d * p) * v;
    }
    ModShift(x, 2 * (d * v), p);
    Parity(x / p, d * v);
  }

  lemma Parity(a: nat, b: nat)
    ensures (a + 2 * b) % 2 == a % 2
  {
  }

  lemma EvenQuotient(m: nat)
    requires m < 8
    ensures 256 == 2 * (Pow2(7 - m) * Pow2(m))
  {
    Pow2Of8();
    Pow2Add(7 - m, m);
    assert Pow2(8) == 2 * Pow2(7);
  }

  lemma {:induction false} ExtendedValue(b: seq<Byte>, bits: nat)
    requires 1 <= bits <= 8 * |b|
    ensures Val(Extended(b, bits)) == SignExtended(Val(b), bits, 8 * |b|)
  {
    if bits > 8 {
      ExtendedValue(b[1..], bits - 8);
      ExtendedTail(b, bits);
      ExtendStep(b[0], Val(b[1..]), bits, |b|);
    } else {
      ExtendedLow(b, bits);
      SignParity(b[0], Val(b[1..]), bits - 1);
      Pow256Step(|b|);
    }
  }

  lemma ExtendedTail(b: seq<Byte>, bits: nat)
    requires 8 < bits <= 8 * |b|
    ensures Extended(b, bits)[0] == b[0]
    ensures Extended(b, bits)[1..] == Extended(b[1..], bits - 8)
  {
    hide BitAnd, Pow2, SignedByte;
    assert SignByte(bits, |b|) == SignByte(bits - 8, |b| - 1) + 1;
    assert (bits - 1) % 8 == (bits - 8 - 1) % 8;
    hide SignByte;
  }

  lemma ExtendStep(x: Byte, v: nat, bits: nat, len: nat)
    requires 8 < bits <= 8 * len
    ensures x + 256 * SignExtended(v, bits - 8, 8 * (len - 1)) == SignExtended(x + 256 * v, bits, 8 * len)
  {
    hide Pow2;
    Pow256Step(len);
    Pow2Of8();
    Pow2Add(8, bits - 9);
    ByteDivMod(x, v, Pow2(bits - 9));
    assert 8 + (bits - 9) == bits - 1 && bits - 8 - 1 == bits - 9;
  }

  lemma ByteDivMod(x: Byte, v: nat, p: nat)
    requires p >= 1
    ensures (x + 256 * v) % (256 * p) == x + 256 * (v % p)
    ensures (x + 256 * v) / (256 * p) == v / p
  {
    var q, r := Parts(v, p);
    assert q * (256 * p) == 256 * (q * p);
    DivModUnique(x + 256 * v, 256 * p, q, 256 * r + x);
  }

  /** The sign is in the lowest byte: all the others are filled with it. */
  lemma ExtendedLow(b: seq<Byte>, bits: nat)
    requires 1 <= bits <= 8 && |b| >= 1
    ensures var p, negative := Pow2(bits - 1), (b[0] / Pow2(bits - 1)) % 2 == 1;
            Val(Extended(b, bits)) == b[0] % p + (if negative then Pow2(8 * |b|) - p else 0)
  {
    var m, n, e := bits - 1, |b| - 1, Extended(b, bits);
    var negative := SignBitSet(b, bits);
    AndBit(b[0], m);
    assert SignByte(bits, |b|) == 0 && m % 8 == m;
    assert negative == ((b[0] / Pow2(m)) % 2 == 1);
    SignedByteValue(b[0], m, negative);
    hide BitAnd, Pow2, SignedByte, SignBitSet;
    assert e[1..] == Repeated(if negative then 255 else 0, n);
    ValRepeated(n);
    Pow256Step(|b|);
  }
}
