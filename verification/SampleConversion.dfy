/** Conversion of samples between the hardware format of a channel and host integers. */
module SampleConversion {
  import opened Powers
  import opened Bytes
  import opened SampleBytes

  /** length, bits and shift are in bits. */
  datatype Format = Format(length: nat, bits: nat, shift: nat, isSigned: bool, isFullyDefined: bool, isBe: bool,
                           repeat: nat)

  function Len(f: Format): nat {
    f.length / 8
  }

  /** The significant bits lie inside the sample. */
  predicate Fits(f: Format) {
    f.bits >= 1 && f.bits + f.shift <= 8 * Len(f)
  }

  /** Converting to the host touches no byte outside the sample. */
  predicate Inside(f: Format) {
    && f.shift / 8 <= Len(f)
    && (f.isFullyDefined ||
        if f.isSigned then 1 <= f.bits <= 8 * Len(f) else f.bits % 8 == 0 || f.bits / 8 < Len(f))
  }

  const SCRATCH := 1024

  lemma ScratchSize()
    ensures SCRATCH == 1024
  {
  }

  /** The inverse works on a scratch buffer, and gives up on samples that are longer. */
  predicate InsideInverse(f: Format) {
    f.shift / 8 <= Len(f) && (Len(f) > SCRATCH || f.bits % 8 == 0 || f.bits / 8 < SCRATCH)
  }

  /** The loops over the samples of a group have something to do. */
  predicate HasTurns(f: Format) {
    Len(f) >= 1 && f.repeat >= 1
  }

  /** A size_t. */
  function Word(x: int): nat {
    x % 0x1_0000_0000_0000_0000
  }

  /** The same in terms of what one turn of the code computes: the count it moves, the bytes
      above the sign and the position of the sign byte, the position of the byte it masks. */
  predicate TouchesOnlySample(f: Format) {
    && Word(Len(f) - f.shift / 8) <= Len(f)
    && (!f.isFullyDefined && f.isSigned ==>
          var upper := Word(8 * Len(f) - f.bits) / 8;
          upper <= Len(f) && Word(Len(f) - 1 - upper) < Len(f))
    && (!f.isFullyDefined && !f.isSigned && f.bits % 8 > 0 ==> f.bits / 8 < Len(f))
  }

  lemma InsideExactly(f: Format)
    requires f.length < 0x1_0000_0000 && f.bits < 0x1_0000_0000 && f.shift < 0x1_0000_0000
    ensures TouchesOnlySample(f) <==> Inside(f)
  {
    Wraps(Len(f) - f.shift / 8);
    Wraps(8 * Len(f) - f.bits);
    Wraps(Len(f) - 1 - Word(8 * Len(f) - f.bits) / 8);
    hide Word;
  }

  /** A turn of the inverse, which masks and moves in the scratch buffer. */
  predicate TouchesOnlyScratch(f: Format) {
    && Word(Len(f) - f.shift / 8) <= Len(f)
    && (f.bits % 8 > 0 ==> f.bits / 8 < SCRATCH)
  }

  lemma InsideInverseExactly(f: Format)
    requires f.length < 0x1_0000_0000 && f.bits < 0x1_0000_0000 && f.shift < 0x1_0000_0000 && Len(f) <= SCRATCH
    ensures TouchesOnlyScratch(f) <==> InsideInverse(f)
  {
    Wraps(Len(f) - f.shift / 8);
    hide Word;
  }

  lemma Wraps(x: int)
    requires -0x2000_0000_0000_0000 <= x < 0x2000_0000_0000_0000
    ensures Word(x) == if x < 0 then x + 0x1_0000_0000_0000_0000 else x
  {
  }

  /** Twelve significant bits in one byte: masking reaches the byte behind the sample. */
  lemma TwelveBitsInOneByte()
    ensures var f := Format(8, 12, 0, false, false, false, 1); !Inside(f) && !TouchesOnlySample(f)
  {
  }

  function Swapped(f: Format, s: seq<Byte>): (r: seq<Byte>)
    ensures |r| == |s|
  {
    if |s| == 1 || !f.isBe then s else Reversed(s)
  }

  lemma SwapTwice(f: Format, s: seq<Byte>)
    ensures Swapped(f, Swapped(f, s)) == s
  {
  }

  /** One sample from hardware to host format, byte by byte as the code does it. */
  function Converted(f: Format, s: seq<Byte>): (r: seq<Byte>)
    requires Inside(f) && |s| == Len(f)
    ensures |r| == |s|
  {
    var a := Swapped(f, s);
    var b := if f.shift > 0 then ShiftRight(a, f.shift) else a;
    if f.isFullyDefined then b else if f.isSigned then Extended(b, f.bits) else Masked(b, f.bits)
  }

  /** One sample from host to hardware format. */
  function Inverted(f: Format, s: seq<Byte>): (r: seq<Byte>)
    requires f.shift / 8 <= Len(f) && |s| == Len(f)
    ensures |r| == |s|
  {
    var a := Masked(s, f.bits);
    var b := if f.shift > 0 then ShiftLeft(a, f.shift) else a;
    Swapped(f, b)
  }

  // --------------------------------------------------------- what it means

  /** The host's order is little-endian: a big-endian sample is read from its other end. */
  lemma SwappedValue(f: Format, s: seq<Byte>)
    ensures Val(Swapped(f, s)) == if f.isBe then BigVal(s) else Val(s)
    ensures (if f.isBe then BigVal(Swapped(f, s)) else Val(Swapped(f, s))) == Val(s)
  {
    hide Reversed;
    ReversedValue(s);
    ReversedValue(Swapped(f, s));
    SwapTwice(f, s);
    if |s| == 1 {
      assert s[..0] == [] && s[1..] == [];
    }
  }

  function ConvertValue(f: Format, raw: nat): int
    requires Inside(f)
  {
    hide Pow2;
    var w := raw / Pow2(f.shift);
    QuotientNat(raw, Pow2(f.shift));
    if f.isFullyDefined then w
    else if f.isSigned then SignExtended(w, f.bits, 8 * Len(f))
    else w % Pow2(f.bits)
  }

  /** Converting is dividing by 2^shift, rounding down, and extending or masking. */
  lemma ConvertedValue(f: Format, s: seq<Byte>)
    requires Inside(f) && |s| == Len(f)
    ensures Val(Converted(f, s)) == ConvertValue(f, if f.isBe then BigVal(s) else Val(s))
  {
    hide Val, BigVal, ShiftRight, Extended, Masked, Swapped, SignExtended, Len;
    SwappedValue(f, s);
    var a := Swapped(f, s);
    var b := if f.shift > 0 then ShiftRight(a, f.shift) else a;
    if f.shift > 0 {
      ShiftRightValue(a, f.shift);
    } else {
      Pow2Zero();
    }
    hide Pow2;
    if !f.isFullyDefined && f.isSigned {
      ExtendedValue(b, f.bits);
    }
    MaskedValueAny(b, f.bits);
  }

  /** v read as an n-bit number with a sign. */
  function Signed(v: nat, n: nat): int
    requires n >= 1
  {
    if v >= Pow2(n - 1) then v - Pow2(n) else v
  }

  /** In full: the shift, and then the mask or, for signed formats, the same signed number in
      the width of the sample. */
  lemma ConvertedMeaning(f: Format, s: seq<Byte>)
    requires Inside(f) && |s| == Len(f)
    ensures var w := (if f.isBe then BigVal(s) else Val(s)) / Pow2(f.shift);
            var r := Val(Converted(f, s));
            && (f.isFullyDefined ==> r == w)
            && (!f.isFullyDefined && !f.isSigned ==> r == w % Pow2(f.bits))
            && (!f.isFullyDefined && f.isSigned ==> Signed(r, 8 * Len(f)) == Signed(w % Pow2(f.bits), f.bits))
  {
    ConvertedValue(f, s);
    hide Pow2, Val, BigVal, Converted, Len, SignExtended, Signed;
    var raw := if f.isBe then BigVal(s) else Val(s);
    QuotientNat(raw, Pow2(f.shift));
    if !f.isFullyDefined && f.isSigned {
      SameSigned(raw / Pow2(f.shift), f.bits, 8 * Len(f));
    }
  }

  lemma SameSigned(w: nat, bits: nat, width: nat)
    requires 1 <= bits <= width
    ensures SignExtended(w, bits, width) >= 0
    ensures Signed(SignExtended(w, bits, width), width) == Signed(w % Pow2(bits), bits)
  {
    hide *;
    var p, half, low := Pow2(bits - 1), Pow2(width - 1), w % Pow2(bits);
    Pow2Mono(bits - 1, width - 1);
    var negative, l, filled := SignAndRest(w, bits, width, low);
    SignedBelow(low, bits);
    SignedBelow(filled, width);
  }

  lemma SignAndRest(w: nat, bits: nat, width: nat, low: nat) returns (negative: bool, l: nat, filled: nat)
    requires 1 <= bits <= width && low == w % Pow2(bits)
    ensures l < Pow2(bits - 1) <= Pow2(width - 1) && low == if negative then l + Pow2(bits - 1) else l
    ensures filled == SignExtended(w, bits, width)
    ensures filled == if negative then 2 * Pow2(width - 1) + l - Pow2(bits - 1) else l
  {
    Pow2Mono(bits - 1, width - 1);
    var p, half := Pow2(bits - 1), Pow2(width - 1);
    assert Pow2(bits) == 2 * p && Pow2(width) == 2 * half;
    hide Pow2;
    HalfOfDouble(w, p);
    negative, l := (w / p) % 2 == 1, w % p;
    filled := if negative then 2 * half + l - p else l;
  }

  lemma SignedBelow(v: nat, n: nat)
    requires n >= 1
    ensures Signed(v, n) == if v >= Pow2(n - 1) then v - 2 * Pow2(n - 1) else v
  {
  }

  /** Masking beyond the width changes nothing. */
  lemma MaskedValueAny(b: seq<Byte>, bits: nat)
    ensures Val(Masked(b, bits)) == Val(b) % Pow2(bits)
  {
    if bits <= 8 * |b| {
      MaskedValue(b, bits);
    } else {
      hide Val, Pow2;
      assert Masked(b, bits) == b;
      ValBound(b);
      Pow2Mono(8 * |b|, bits);
      SmallMod(Val(b), Pow2(bits));
    }
  }

  /** The inverse keeps the low bits and multiplies by 2^shift, within the sample. */
  lemma InvertedValue(f: Format, s: seq<Byte>)
    requires f.shift / 8 <= Len(f) && |s| == Len(f)
    ensures (if f.isBe then BigVal(Inverted(f, s)) else Val(Inverted(f, s)))
         == ((Val(s) % Pow2(f.bits)) * Pow2(f.shift)) % Pow2(8 * Len(f))
    ensures Fits(f) ==>
              (if f.isBe then BigVal(Inverted(f, s)) else Val(Inverted(f, s)))
              == (Val(s) % Pow2(f.bits)) * Pow2(f.shift)
  {
    hide Val, BigVal, ShiftLeft, Masked, Len, Pow2, Swapped;
    var a := Masked(s, f.bits);
    MaskedValueAny(s, f.bits);
    var b := if f.shift > 0 then ShiftLeft(a, f.shift) else a;
    SwappedValue(f, b);
    if f.shift > 0 {
      ShiftLeftValue(a, f.shift);
    } else {
      Pow2Zero();
      ValBound(a);
      SmallMod(Val(a), Pow2(8 * |a|));
    }
    if Fits(f) {
      RoomForShift(Val(s), f.bits, f.shift, 8 * |s|);
    }
  }

  lemma Pow2Zero()
    ensures Pow2(0) == 1
  {
  }

  lemma RoomForShift(v: nat, bits: nat, shift: nat, width: nat)
    requires bits + shift <= width
    ensures ((v % Pow2(bits)) * Pow2(shift)) % Pow2(width) == (v % Pow2(bits)) * Pow2(shift)
  {
    hide *;
    var p, q := Pow2(bits), Pow2(shift);
    Pow2Add(shift, bits);
    Pow2Mono(bits + shift, width);
    RestBelow(v, p);
    SmallRest(q, p, 0, v % p);
    SmallMod((v % p) * q, Pow2(width));
  }

  /** A host value as the format can carry it. */
  function Normalised(f: Format, v: nat): int
    requires Fits(f)
  {
    if !f.isFullyDefined && f.isSigned then SignExtended(v, f.bits, 8 * Len(f)) else v % Pow2(f.bits)
  }

  /** Host to hardware and back normalises the value. */
  lemma HostRoundTrip(f: Format, s: seq<Byte>)
    requires Fits(f) && |s| == Len(f)
    ensures Val(Converted(f, Inverted(f, s))) == Normalised(f, Val(s))
  {
    hide Val, BigVal, Pow2, Converted, Inverted, SignExtended, Len;
    InvertedValue(f, s);
    ConvertedValue(f, Inverted(f, s));
    var v := Val(s);
    TimesThenDiv(v % Pow2(f.bits), Pow2(f.shift));
    ModTwice(v, Pow2(f.bits));
    SignOfLowBits(v, f.bits, 8 * Len(f));
  }

  lemma QuotientNat(x: nat, p: nat)
    requires p >= 1
    ensures x / p >= 0
  {
  }

  lemma TimesThenDiv(x: nat, p: nat)
    requires p >= 1
    ensures (x * p) / p == x
  {
    DivModUnique(x * p, p, x, 0);
  }

  lemma ModTwice(x: nat, p: nat)
    requires p >= 1
    ensures (x % p) % p == x % p
  {
  }

  lemma SignOfLowBits(v: nat, bits: nat, width: nat)
    requires 1 <= bits <= width
    ensures SignExtended(v % Pow2(bits), bits, width) == SignExtended(v, bits, width)
  {
    var p := Pow2(bits - 1);
    assert Pow2(bits) == 2 * p;
    hide Pow2;
    HalfOfDouble(v, p);
  }

  /** Quotient parity and remainder by p see only v modulo 2p. */
  lemma HalfOfDouble(v: nat, p: nat)
    requires p >= 1
    ensures ((v % (2 * p)) / p) % 2 == (v / p) % 2 && (v % (2 * p)) % p == v % p
    ensures v % (2 * p) == v % p + (if (v / p) % 2 == 1 then p else 0)
  {
    var h, l := Parts(v, p);
    var x, y := h / 2, h % 2;
    assert h == 2 * x + y;
    assert v == x * (2 * p) + (y * p + l) by {
      assert (2 * x + y) * p == x * (2 * p) + y * p;
    }
    assert y * p + l < 2 * p by {
      if y == 0 {
        assert y * p == 0;
      } else {
        assert y * p == p;
      }
    }
    DivModUnique(v, 2 * p, x, y * p + l);
    DivModUnique(y * p + l, p, y, l);
  }

  /** Hardware to host and back keeps the significant bits and clears the others. */
  lemma RawRoundTrip(f: Format, s: seq<Byte>)
    requires Fits(f) && |s| == Len(f)
    ensures var raw, back := s, Inverted(f, Converted(f, s));
            (if f.isBe then BigVal(back) else Val(back))
            == (((if f.isBe then BigVal(raw) else Val(raw)) / Pow2(f.shift)) % Pow2(f.bits)) * Pow2(f.shift)
  {
    hide Val, BigVal, Pow2, Converted, Inverted, SignExtended, Len;
    ConvertedValue(f, s);
    InvertedValue(f, Converted(f, s));
    var w := (if f.isBe then BigVal(s) else Val(s)) / Pow2(f.shift);
    ModTwice(w, Pow2(f.bits));
    LowBitsOfSign(w, f.bits, 8 * Len(f));
  }

  lemma LowBitsOfSign(w: nat, bits: nat, width: nat)
    requires 1 <= bits <= width
    ensures SignExtended(w, bits, width) % Pow2(bits) == w % Pow2(bits)
  {
    hide Pow2, SignFill;
    PowerMultiple(bits, width);
    SignMod(w, Pow2(bits - 1), Pow2(width - bits), Pow2(bits), Pow2(width));
  }

  lemma PowerMultiple(bits: nat, width: nat)
    requires 1 <= bits <= width
    ensures Pow2(bits) == 2 * Pow2(bits - 1) && Pow2(width) == Pow2(width - bits) * Pow2(bits)
  {
    Pow2Add(width - bits, bits);
    assert width - bits + bits == width;
  }

  lemma SignMod(w: nat, p: nat, q: nat, d: nat, top: nat)
    requires p >= 1 && q >= 1 && d == 2 * p && top == q * d
    ensures SignFill(w, p, top) % d == w % d
  {
    HalfOfDouble(w, p);
    var h, l := Parts(w, p);
    if h % 2 == 1 {
      FilledTop(l, p, q);
    } else {
      SmallMod(l, 2 * p);
    }
  }

  lemma FilledTop(l: nat, p: nat, q: nat)
    requires l < p && q >= 1
    ensures (l + (q * (2 * p) - p)) % (2 * p) == l + p
  {
    assert q * (2 * p) == (q - 1) * (2 * p) + 2 * p;
    MulMono(0, q - 1, 2 * p);
    DivModUnique(l + (q * (2 * p) - p), 2 * p, q - 1, l + p);
  }

  /** A host sample that is already normalised survives the round trip byte for byte. */
  lemma HostRoundTripExact(f: Format, s: seq<Byte>)
    requires Fits(f) && |s| == Len(f)
    ensures Converted(f, Inverted(f, s)) == s <==> Val(s) == Normalised(f, Val(s))
  {
    HostRoundTrip(f, s);
    if Val(s) == Normalised(f, Val(s)) {
      ValInjective(Converted(f, Inverted(f, s)), s);
    }
    hide *;
  }

  // ------------------------------------------------------------- in memory

  /** a with the part from position at on replaced by b. */
  function Splice(a: seq<Byte>, at: nat, b: seq<Byte>): (r: seq<Byte>)
    requires at + |b| <= |a|
    ensures |r| == |a|
    ensures forall j :: 0 <= j < |a| ==> r[j] == if at <= j < at + |b| then b[j - at] else a[j]
  {
    a[..at] + b + a[at + |b|..]
  }

  lemma SpliceTwice(a: seq<Byte>, at: nat, b: seq<Byte>, c: seq<Byte>)
    requires at + |b| <= |a| && |c| == |b|
    ensures Splice(a, at, b)[at..at + |b|] == b
    ensures Splice(Splice(a, at, b), at, c) == Splice(a, at, c)
  {
  }

  lemma SplicedPart(a: seq<Byte>, r: seq<Byte>, d: nat, b: seq<Byte>)
    requires d + |b| <= |a| && r == Splice(a, d, b)
    ensures r[d..d + |b|] == b
  {
  }

  method ByteSwap(dst: array<Byte>, d: nat, src: array<Byte>, s: nat, len: nat)
    requires dst != src && d + len <= dst.Length && s + len <= src.Length
    modifies dst
    ensures dst[..] == Splice(old(dst[..]), d, Reversed(src[s..s + len]))
  {
    ghost var a, b := dst[..], src[s..s + len];
    var i := 0;
    while i < len
      invariant 0 <= i <= len
      invariant forall j :: 0 <= j < dst.Length ==>
                  dst[j] == if d <= j < d + i then Reversed(b)[j - d] else a[j]
    {
      dst[d + i] := src[s + (len - i - 1)];
      i := i + 1;
    }
  }

  method Copy(dst: array<Byte>, d: nat, src: array<Byte>, s: nat, len: nat)
    requires dst != src && d + len <= dst.Length && s + len <= src.Length
    modifies dst
    ensures dst[..] == Splice(old(dst[..]), d, src[s..s + len]) && dst[d..d + len] == src[s..s + len]
  {
    ghost var a, b := dst[..], src[s..s + len];
    forall i | 0 <= i < len {
      dst[d + i] := src[s + i];
    }
    assert forall j :: 0 <= j < dst.Length ==> dst[j] == Splice(a, d, b)[j];
  }

  /** memmove towards the bottom, then memset of the top. */
  method MoveDown(dst: array<Byte>, d: nat, k: nat, len: nat)
    requires d + len <= dst.Length && k <= len
    modifies dst
    ensures dst[..] == Splice(old(dst[..]), d, DropBytes(old(dst[d..d + len]), k))
  {
    ghost var a, b := dst[..], dst[d..d + len];
    forall i | 0 <= i < len - k {
      dst[d + i] := dst[d + k + i];
    }
    forall i | len - k <= i < len {
      dst[d + i] := 0;
    }
    assert forall j :: 0 <= j < dst.Length ==> dst[j] == Splice(a, d, DropBytes(b, k))[j];
  }

  method MoveUp(dst: array<Byte>, d: nat, k: nat, len: nat)
    requires d + len <= dst.Length && k <= len
    modifies dst
    ensures dst[..] == Splice(old(dst[..]), d, PushBytes(old(dst[d..d + len]), k))
  {
    ghost var a, b := dst[..], dst[d..d + len];
    forall i | k <= i < len {
      dst[d + i] := dst[d + i - k];
    }
    forall i | 0 <= i < k {
      dst[d + i] := 0;
    }
    assert forall j :: 0 <= j < dst.Length ==> dst[j] == Splice(a, d, PushBytes(b, k))[j];
  }

  method ShiftDownBits(dst: array<Byte>, d: nat, shift: nat, len: nat)
    requires d + len <= dst.Length && 1 <= shift <= 7
    modifies dst
    ensures dst[..] == Splice(old(dst[..]), d, Shr(old(dst[d..d + len]), shift))
  {
    hide BitOr, Pow2;
    ghost var a, b := dst[..], dst[d..d + len];
    ShrBytesFit(b, shift);
    var i := 0;
    while i < len
      invariant 0 <= i <= len
      invariant forall j :: 0 <= j < dst.Length ==>
                  dst[j] == if d <= j < d + i then ShrByte(b, j - d, shift) else a[j]
    {
      assert dst[d + i] == b[i] && (i + 1 < len ==> dst[d + i + 1] == b[i + 1]);
      assert ShrByte(b, i, shift) < 256;
      var v := Upper(dst[d + i], shift);
      if i < len - 1 {
        v := BitOr(v, dst[d + i + 1] * Pow2(8 - shift)) % 256;
      }
      dst[d + i] := v;
      i := i + 1;
    }
  }

  method ShiftUpBits(dst: array<Byte>, d: nat, shift: nat, len: nat)
    requires d + len <= dst.Length && 1 <= shift <= 7
    modifies dst
    ensures dst[..] == Splice(old(dst[..]), d, Shl(old(dst[d..d + len]), shift))
  {
    hide BitOr, Pow2;
    ghost var a, b := dst[..], dst[d..d + len];
    var i := len;
    while i > 0
      invariant 0 <= i <= len
      invariant forall j :: 0 <= j < dst.Length ==>
                  dst[j] == if d + i <= j < d + len then ShlByte(b, j - d, shift) else a[j]
    {
      assert dst[d + i - 1] == b[i - 1] && (i > 1 ==> dst[d + i - 2] == b[i - 2]);
      var v := (dst[d + i - 1] * Pow2(shift)) % 256;
      if i > 1 {
        v := BitOr(v, Upper(dst[d + i - 2], 8 - shift)) % 256;
      }
      dst[d + i - 1] := v;
      i := i - 1;
    }
  }

  /** Shift len bytes in place, as one little-endian number. */
  method ShiftBits(dst: array<Byte>, d: nat, shift: nat, len: nat, left: bool)
    requires d + len <= dst.Length && shift / 8 <= len
    modifies dst
    ensures dst[..] == Splice(old(dst[..]), d,
                              if left then ShiftLeft(old(dst[d..d + len]), shift)
                              else ShiftRight(old(dst[d..d + len]), shift))
    ensures dst[d..d + len] == if left then ShiftLeft(old(dst[d..d + len]), shift)
                               else ShiftRight(old(dst[d..d + len]), shift)
  {
    hide Shr, Shl, DropBytes, PushBytes;
    ghost var a, b := dst[..], dst[d..d + len];
    var shiftBytes, rest := shift / 8, shift % 8;
    if left {
      if shiftBytes > 0 {
        MoveUp(dst, d, shiftBytes, len);
        SpliceTwice(a, d, PushBytes(b, shiftBytes), ShiftLeft(b, shift));
      }
      if rest > 0 {
        ShiftUpBits(dst, d, rest, len);
      }
    } else {
      if shiftBytes > 0 {
        MoveDown(dst, d, shiftBytes, len);
        SpliceTwice(a, d, DropBytes(b, shiftBytes), ShiftRight(b, shift));
      }
      if rest > 0 {
        ShiftDownBits(dst, d, rest, len);
      }
    }
    assert shiftBytes == 0 && rest == 0 ==> dst[..] == Splice(a, d, b);
    SplicedPart(a, dst[..], d, if left then ShiftLeft(b, shift) else ShiftRight(b, shift));
  }

  method SignExtend(dst: array<Byte>, d: nat, bits: nat, len: nat)
    requires d + len <= dst.Length && 1 <= bits <= 8 * len
    modifies dst
    ensures dst[..] == Splice(old(dst[..]), d, Extended(old(dst[d..d + len]), bits))
  {
    hide BitOr, BitAnd, Pow2;
    ghost var a, b := dst[..], dst[d..d + len];
    var upperBytes := (len * 8 - bits) / 8;
    var at := len - 1 - upperBytes;
    assert at == SignByte(bits, len) && dst[d + at] == b[at];
    SignedByteValue(b[at], (bits - 1) % 8, SignBitSet(b, bits));
    var msbBit := Pow2((bits - 1) % 8);
    var msb := BitAnd(dst[d + at], msbBit);
    if upperBytes > 0 {
      forall i | len - upperBytes <= i < len {
        dst[d + i] := if msb != 0 then 255 else 0;
      }
    }
    if msb != 0 {
      dst[d + at] := BitOr(dst[d + at], 256 - msbBit);
    } else {
      dst[d + at] := BitAnd(dst[d + at], msbBit - 1);
    }
    hide SignedByte;
    SplicedByte(a, dst[..], d, b, bits);
  }

  lemma SplicedByte(a: seq<Byte>, r: seq<Byte>, d: nat, b: seq<Byte>, bits: nat)
    requires d + |b| <= |a| == |r| && 1 <= bits <= 8 * |b|
    requires forall j :: 0 <= j < |a| ==> r[j] == if d <= j < d + |b| then ExtendedByte(b, bits, j - d) else a[j]
    ensures r == Splice(a, d, Extended(b, bits))
  {
    hide ExtendedByte;
  }

  /** Bits beyond the sample reach into the byte behind it. */
  method MaskUpperBits(dst: array<Byte>, d: nat, bits: nat, len: nat)
    requires d + len <= dst.Length && (bits % 8 == 0 || d + bits / 8 < dst.Length)
    modifies dst
    ensures dst[d..d + len] == Masked(old(dst[d..d + len]), bits)
    ensures bits % 8 == 0 || bits / 8 < len ==> dst[..] == Splice(old(dst[..]), d, Masked(old(dst[d..d + len]), bits))
  {
    hide BitAnd, Pow2;
    ghost var a, b := dst[..], dst[d..d + len];
    if bits % 8 > 0 {
      assert bits / 8 < len ==> b[bits / 8] == dst[d + bits / 8];
      AndMask(dst[d + bits / 8], bits % 8);
      MaskedFits(dst[d + bits / 8], bits % 8);
      dst[d + bits / 8] := BitAnd(dst[d + bits / 8], Pow2(bits % 8) - 1);
    }
    var from := (bits + 7) / 8;
    var i := from;
    while i < len
      invariant from <= i && (i <= len || from > len)
      invariant forall j :: d <= j < d + len && j < d + i ==> dst[j] == MaskByte(b, bits, j - d)
      invariant forall j :: d + i <= j < d + len ==> dst[j] == a[j]
      invariant forall j :: 0 <= j < dst.Length && !(d <= j < d + len) && (bits % 8 == 0 || j != d + bits / 8) ==>
                  dst[j] == a[j]
    {
      dst[d + i] := 0;
      i := i + 1;
    }
    assert forall j :: 0 <= j < len ==> dst[d..d + len][j] == Masked(b, bits)[j];
  }

  // ------------------------------------------------------- whole sample groups

  /** The ways a sample is mapped: read, written, written and read back, read and written back. */
  datatype Way = ToHost | ToHardware | ThereAndBack | BackAndThere

  /** The routines a way goes through keep to the sample. */
  predicate Handles(f: Format, way: Way) {
    (way != ToHardware ==> Inside(f)) && (way != ToHost ==> InsideInverse(f))
  }

  lemma Handled(f: Format)
    ensures Inside(f) ==> Handles(f, ToHost)
    ensures InsideInverse(f) ==> Handles(f, ToHardware)
  {
  }

  function Mapped(f: Format, way: Way, s: seq<Byte>): (r: seq<Byte>)
    requires Handles(f, way) && |s| == Len(f)
    ensures |r| == |s|
  {
    match way
    case ToHost => Converted(f, s)
    case ToHardware => Inverted(f, s)
    case ThereAndBack => Converted(f, Inverted(f, s))
    case BackAndThere => Inverted(f, Converted(f, s))
  }

  /** The bytes of n samples. */
  function Total(f: Format, n: nat): nat {
    n * Len(f)
  }

  /** n samples side by side, each mapped on its own. */
  function MappedAll(f: Format, way: Way, s: seq<Byte>, n: nat): (r: seq<Byte>)
    requires Handles(f, way) && |s| == Total(f, n)
    ensures |r| == |s|
  {
    if n == 0 then []
    else
      OneLess(n, Len(f));
      MappedAll(f, way, s[..|s| - Len(f)], n - 1) + Mapped(f, way, s[|s| - Len(f)..])
  }

  lemma OneLess(n: nat, d: nat)
    requires n >= 1
    ensures n * d == (n - 1) * d + d && n * d >= d
  {
    MulMono(1, n, d);
  }

  /** The last sample of a group, and those before it. */
  lemma LastOfGroup(f: Format, way: Way, s: seq<Byte>, n: nat)
    requires Handles(f, way) && |s| == Total(f, n) && n > 0
    ensures Total(f, n - 1) + Len(f) == Total(f, n) && |s| >= Len(f)
    ensures var k := |s| - Len(f);
            && MappedAll(f, way, s, n)[..k] == MappedAll(f, way, s[..k], n - 1)
            && MappedAll(f, way, s, n)[k..] == Mapped(f, way, s[k..])
            && MappedAll(f, way, s, n) == MappedAll(f, way, s[..k], n - 1) + Mapped(f, way, s[k..])
  {
    hide Mapped, Len, Handles;
    OneLess(n, Len(f));
    var k := |s| - Len(f);
    var front, last := MappedAll(f, way, s[..k], n - 1), Mapped(f, way, s[k..]);
    assert MappedAll(f, way, s, n) == front + last;
    assert |front| == k;
  }

  lemma LastPart(s: seq<Byte>, k: nat)
    requires k <= |s|
    ensures s[k..k + (|s| - k)] == s[k..]
  {
  }

  /** Sample i of a mapped group is sample i, mapped. */
  lemma {:induction false} SampleOf(f: Format, way: Way, s: seq<Byte>, n: nat, i: nat)
    requires Handles(f, way) && |s| == Total(f, n) && i < n
    ensures Total(f, i) + Len(f) <= |s|
    ensures MappedAll(f, way, s, n)[Total(f, i)..Total(f, i) + Len(f)]
         == Mapped(f, way, s[Total(f, i)..Total(f, i) + Len(f)])
    decreases n
  {
    hide *;
    LastOfGroup(f, way, s, n);
    var k, all := |s| - Len(f), MappedAll(f, way, s, n);
    if i < n - 1 {
      SampleOf(f, way, s[..k], n - 1, i);
      PartOfPart(all, 0, k, Total(f, i), Len(f));
      PartOfPart(s, 0, k, Total(f, i), Len(f));
    } else {
      LastPart(all, k);
      LastPart(s, k);
    }
  }

  /** Writing a group of samples and reading it back is the round trip of each. */
  lemma {:induction false} WriteThenRead(f: Format, s: seq<Byte>, n: nat)
    requires Handles(f, ThereAndBack) && |s| == Total(f, n)
    ensures MappedAll(f, ToHost, MappedAll(f, ToHardware, s, n), n) == MappedAll(f, ThereAndBack, s, n)
    decreases n
  {
    hide Converted, Inverted, Len, Total;
    if n > 0 {
      LastOfGroup(f, ToHardware, s, n);
      LastOfGroup(f, ToHost, MappedAll(f, ToHardware, s, n), n);
      LastOfGroup(f, ThereAndBack, s, n);
      hide MappedAll;
      WriteThenRead(f, s[..|s| - Len(f)], n - 1);
    }
  }

  /** And the other way round. */
  lemma {:induction false} ReadThenWrite(f: Format, s: seq<Byte>, n: nat)
    requires Handles(f, BackAndThere) && |s| == Total(f, n)
    ensures MappedAll(f, ToHardware, MappedAll(f, ToHost, s, n), n) == MappedAll(f, BackAndThere, s, n)
    decreases n
  {
    hide Converted, Inverted, Len, Total;
    if n > 0 {
      LastOfGroup(f, ToHost, s, n);
      LastOfGroup(f, ToHardware, MappedAll(f, ToHost, s, n), n);
      LastOfGroup(f, BackAndThere, s, n);
      hide MappedAll;
      ReadThenWrite(f, s[..|s| - Len(f)], n - 1);
    }
  }

  /** a with n samples from position d on, mapped from those in s from position from on. */
  function Progress(f: Format, way: Way, a: seq<Byte>, d: nat, s: seq<Byte>, from: nat, n: nat): (r: seq<Byte>)
    requires Handles(f, way) && from + Total(f, n) <= |s| && d + Total(f, n) <= |a|
    ensures |r| == |a|
  {
    Splice(a, d, MappedAll(f, way, s[from..from + Total(f, n)], n))
  }

  /** Sample i of the destination is sample i of the source, mapped. */
  lemma ProgressAt(f: Format, way: Way, a: seq<Byte>, d: nat, s: seq<Byte>, from: nat, n: nat, i: nat)
    requires Handles(f, way) && from + Total(f, n) <= |s| && d + Total(f, n) <= |a| && i < n
    ensures Total(f, i) + Len(f) <= Total(f, n)
    ensures Progress(f, way, a, d, s, from, n)[d + Total(f, i)..d + Total(f, i) + Len(f)]
         == Mapped(f, way, s[from + Total(f, i)..from + Total(f, i) + Len(f)])
  {
    hide Mapped, MappedAll, Handles, Total, Len, Splice;
    var r, at := Progress(f, way, a, d, s, from, n), Total(f, i);
    var part := s[from..from + Total(f, n)];
    SampleOf(f, way, part, n, i);
    SplicedPart(a, r, d, MappedAll(f, way, part, n));
    PartOfPart(r, d, Total(f, n), at, Len(f));
    PartOfPart(s, from, Total(f, n), at, Len(f));
  }

  /** The host sample at d is what the hardware sample at s stands for. */
  predicate ReadsAs(f: Format, src: seq<Byte>, s: nat, dst: seq<Byte>, d: nat)
    requires Inside(f)
  {
    && s + Len(f) <= |src| && d + Len(f) <= |dst|
    && var raw := src[s..s + Len(f)];
       Val(dst[d..d + Len(f)]) == ConvertValue(f, if f.isBe then BigVal(raw) else Val(raw))
  }

  /** The hardware sample at d stands for the low bits of the host sample at s, shifted. */
  predicate WritesAs(f: Format, src: seq<Byte>, s: nat, dst: seq<Byte>, d: nat) {
    && s + Len(f) <= |src| && d + Len(f) <= |dst|
    && var raw := dst[d..d + Len(f)];
       (if f.isBe then BigVal(raw) else Val(raw))
       == ((Val(src[s..s + Len(f)]) % Pow2(f.bits)) * Pow2(f.shift)) % Pow2(8 * Len(f))
  }

  lemma ConvertedGroup(f: Format, a: seq<Byte>, d: nat, s: seq<Byte>, from: nat)
    requires Inside(f) && from + Total(f, f.repeat) <= |s| && d + Total(f, f.repeat) <= |a|
    ensures Handles(f, ToHost)
    ensures forall i: nat :: i < f.repeat ==>
              ReadsAs(f, s, from + Total(f, i), Progress(f, ToHost, a, d, s, from, f.repeat), d + Total(f, i))
  {
    hide Inside, Converted, ConvertValue, Total, Len, Progress, Val, BigVal;
    forall i: nat | i < f.repeat
      ensures ReadsAs(f, s, from + Total(f, i), Progress(f, ToHost, a, d, s, from, f.repeat), d + Total(f, i))
    {
      ProgressAt(f, ToHost, a, d, s, from, f.repeat, i);
      ConvertedValue(f, s[from + Total(f, i)..from + Total(f, i) + Len(f)]);
    }
  }

  lemma InvertedGroup(f: Format, a: seq<Byte>, d: nat, s: seq<Byte>, from: nat)
    requires InsideInverse(f) && from + Total(f, f.repeat) <= |s| && d + Total(f, f.repeat) <= |a|
    ensures Handles(f, ToHardware)
    ensures forall i: nat :: i < f.repeat ==>
              WritesAs(f, s, from + Total(f, i), Progress(f, ToHardware, a, d, s, from, f.repeat), d + Total(f, i))
  {
    hide Inverted, Total, Len, Progress, Val, BigVal, Pow2;
    forall i: nat | i < f.repeat
      ensures WritesAs(f, s, from + Total(f, i), Progress(f, ToHardware, a, d, s, from, f.repeat), d + Total(f, i))
    {
      ProgressAt(f, ToHardware, a, d, s, from, f.repeat, i);
      InvertedValue(f, s[from + Total(f, i)..from + Total(f, i) + Len(f)]);
    }
  }

  lemma ProgressStart(f: Format, way: Way, a: seq<Byte>, d: nat, s: seq<Byte>, from: nat)
    requires Handles(f, way) && from <= |s| && d <= |a|
    ensures Total(f, 0) == 0 && Progress(f, way, a, d, s, from, 0) == a
  {
  }

  lemma NothingMapped(f: Format, way: Way, a: seq<Byte>, d: nat, s: seq<Byte>, from: nat)
    requires from <= |s| && d <= |a|
    ensures Total(f, 0) == 0
    ensures Handles(f, way) ==> Progress(f, way, a, d, s, from, 0) == a
    ensures Handles(f, way) && Total(f, f.repeat) == 0 ==> Progress(f, way, a, d, s, from, f.repeat) == a
  {
    if Handles(f, way) {
      ProgressStart(f, way, a, d, s, from);
      if Total(f, f.repeat) == 0 {
        WholeGroup(f, way, a, d, s, from, 0);
      }
    }
    hide Handles, Progress;
  }

  /** One more sample behind n of them. */
  lemma ProgressStep(f: Format, way: Way, a: seq<Byte>, d: nat, s: seq<Byte>, from: nat, n: nat, at: nat)
    requires Handles(f, way) && at == Total(f, n) && from + at + Len(f) <= |s| && d + at + Len(f) <= |a|
    ensures at + Len(f) == Total(f, n + 1)
    ensures Progress(f, way, a, d, s, from, n + 1)
         == Splice(Progress(f, way, a, d, s, from, n), d + at, Mapped(f, way, s[from + at..from + at + Len(f)]))
  {
    hide Mapped, MappedAll, Len, Total, Handles, Splice;
    NextTotal(f, n);
    var group, next := s[from..from + at + Len(f)], s[from + at..from + at + Len(f)];
    LastOfGroup(f, way, group, n + 1);
    assert group[..at] == s[from..from + at];
    assert group[at..] == next;
    SpliceAppend(a, d, MappedAll(f, way, s[from..from + at], n), Mapped(f, way, next));
  }

  lemma NextTotal(f: Format, n: nat)
    ensures Total(f, n + 1) == Total(f, n) + Len(f)
  {
    hide Len;
    OneLess(n + 1, Len(f));
  }

  lemma SpliceAppend(a: seq<Byte>, d: nat, b: seq<Byte>, c: seq<Byte>)
    requires d + |b| + |c| <= |a|
    ensures Splice(Splice(a, d, b), d + |b|, c) == Splice(a, d, b + c)
  {
  }

  lemma NextSampleFits(f: Format, n: nat)
    requires Total(f, n) < Total(f, f.repeat)
    ensures n < f.repeat && Total(f, n) + Len(f) <= Total(f, f.repeat) && Len(f) >= 1
  {
    hide Len;
    if n >= f.repeat {
      MulMono(f.repeat, n, Len(f));
    } else {
      MulMono(n + 1, f.repeat, Len(f));
      OneLess(n + 1, Len(f));
    }
  }

  lemma AllSamples(f: Format, n: nat)
    requires n <= f.repeat && Total(f, n) >= Total(f, f.repeat)
    ensures n == f.repeat || Len(f) == 0
  {
    hide Len;
    if n < f.repeat {
      MulMono(n + 1, f.repeat, Len(f));
    }
  }

  /** The loop has covered the whole group. */
  lemma WholeGroup(f: Format, way: Way, a: seq<Byte>, d: nat, s: seq<Byte>, from: nat, n: nat)
    requires Handles(f, way) && from + Total(f, f.repeat) <= |s| && d + Total(f, f.repeat) <= |a|
    requires n <= f.repeat && Total(f, n) == Total(f, f.repeat)
    ensures Progress(f, way, a, d, s, from, n) == Progress(f, way, a, d, s, from, f.repeat)
  {
    hide *;
    AllSamples(f, n);
    if n != f.repeat {
      NoBytes(f, way, a, d, s, from, n);
      NoBytes(f, way, a, d, s, from, f.repeat);
    }
  }

  lemma NoBytes(f: Format, way: Way, a: seq<Byte>, d: nat, s: seq<Byte>, from: nat, n: nat)
    requires Handles(f, way) && Len(f) == 0 && from + Total(f, n) <= |s| && d + Total(f, n) <= |a|
    ensures Progress(f, way, a, d, s, from, n) == a
  {
    hide MappedAll, Handles, Len;
    assert Total(f, n) == 0;
  }

  /** The copy of a sample, at the start of the conversion and at the end of its inverse. */
  method LoadSample(f: Format, dst: array<Byte>, d: nat, src: array<Byte>, s: nat)
    requires dst != src && d + Len(f) <= dst.Length && s + Len(f) <= src.Length
    modifies dst
    ensures dst[..] == Splice(old(dst[..]), d, Swapped(f, src[s..s + Len(f)]))
  {
    var len := f.length / 8;
    if len == 1 || !f.isBe {
      Copy(dst, d, src, s, len);
    } else {
      ByteSwap(dst, d, src, s, len);
    }
  }

  method ConvertSample(f: Format, dst: array<Byte>, d: nat, src: array<Byte>, s: nat)
    requires Inside(f) && dst != src && d + Len(f) <= dst.Length && s + Len(f) <= src.Length
    modifies dst
    ensures dst[..] == Splice(old(dst[..]), d, Converted(f, src[s..s + Len(f)]))
  {
    hide ShiftRight, Extended, Masked, Swapped, Splice, Len;
    ghost var a, x := dst[..], Swapped(f, src[s..s + Len(f)]);
    ghost var y := if f.shift > 0 then ShiftRight(x, f.shift) else x;
    LoadSample(f, dst, d, src, s);
    SpliceTwice(a, d, x, y);
    if f.shift > 0 {
      ShiftBits(dst, d, f.shift, Len(f), false);
    }
    SpliceTwice(a, d, y, Converted(f, src[s..s + Len(f)]));
    if !f.isFullyDefined {
      if f.isSigned {
        SignExtend(dst, d, f.bits, Len(f));
      } else {
        MaskUpperBits(dst, d, f.bits, Len(f));
      }
    }
  }

  method InvertSample(f: Format, dst: array<Byte>, d: nat, src: array<Byte>, s: nat)
    requires InsideInverse(f) && dst != src && d + Len(f) <= dst.Length && s + Len(f) <= src.Length
    requires Len(f) <= SCRATCH
    modifies dst
    ensures dst[..] == Splice(old(dst[..]), d, Inverted(f, src[s..s + Len(f)]))
  {
    hide ShiftLeft, Masked, Swapped, Splice, Len;
    var buf := new Byte[SCRATCH];
    Copy(buf, 0, src, s, Len(f));
    MaskUpperBits(buf, 0, f.bits, Len(f));
    if f.shift > 0 {
      ShiftBits(buf, 0, f.shift, Len(f), true);
    }
    LoadSample(f, dst, d, buf, 0);
  }

  /** One turn of the conversion loop. */
  method ConvertNext(f: Format, dst: array<Byte>, d: nat, src: array<Byte>, s: nat, at: nat,
                     ghost a: seq<Byte>, ghost n: nat)
    requires Handles(f, ToHost) && dst != src && at == Total(f, n) && |a| == dst.Length
    requires d + at + Len(f) <= dst.Length && s + at + Len(f) <= src.Length
    requires dst[..] == Progress(f, ToHost, a, d, src[..], s, n)
    modifies dst
    ensures at + Len(f) == Total(f, n + 1)
    ensures dst[..] == Progress(f, ToHost, a, d, src[..], s, n + 1)
  {
    hide Progress, Splice, MappedAll, Converted, Inside, Len, Total;
    ghost var b := src[..];
    ProgressStep(f, ToHost, a, d, b, s, n, at);
    assert src[s + at..s + at + Len(f)] == b[s + at..s + at + Len(f)];
    ConvertSample(f, dst, d + at, src, s + at);
  }

  method InvertNext(f: Format, dst: array<Byte>, d: nat, src: array<Byte>, s: nat, at: nat,
                    ghost a: seq<Byte>, ghost n: nat)
    requires Handles(f, ToHardware) && Len(f) <= SCRATCH && dst != src && at == Total(f, n) && |a| == dst.Length
    requires d + at + Len(f) <= dst.Length && s + at + Len(f) <= src.Length
    requires dst[..] == Progress(f, ToHardware, a, d, src[..], s, n)
    modifies dst
    ensures at + Len(f) == Total(f, n + 1)
    ensures dst[..] == Progress(f, ToHardware, a, d, src[..], s, n + 1)
  {
    hide Progress, Splice, MappedAll, Inverted, InsideInverse, Len, Total;
    ghost var b := src[..];
    ProgressStep(f, ToHardware, a, d, b, s, n, at);
    assert src[s + at..s + at + Len(f)] == b[s + at..s + at + Len(f)];
    InvertSample(f, dst, d + at, src, s + at);
  }

  lemma Turns(f: Format)
    ensures HasTurns(f) <==> Total(f, f.repeat) > 0
  {
    if HasTurns(f) {
      OneLess(f.repeat, Len(f));
    } else {
      assert Total(f, f.repeat) == 0;
    }
  }

  /** iio_channel_convert: repeat samples from src to dst. */
  method Convert(f: Format, dst: array<Byte>, d: nat, src: array<Byte>, s: nat)
    requires (HasTurns(f) ==> Inside(f)) && dst != src
    requires d + Total(f, f.repeat) <= dst.Length && s + Total(f, f.repeat) <= src.Length
    modifies dst
    ensures !HasTurns(f) ==> dst[..] == old(dst[..])
    ensures Inside(f) ==> dst[..] == Progress(f, ToHost, old(dst[..]), d, src[..], s, f.repeat)
    ensures Inside(f) ==>
              forall i: nat :: i < f.repeat ==> ReadsAs(f, src[..], s + Total(f, i), dst[..], d + Total(f, i))
  {
    hide *;
    ghost var a, b := dst[..], src[..];
    var len, end := Len(f), Total(f, f.repeat);
    Turns(f);
    Handled(f);
    NothingMapped(f, ToHost, a, d, b, s);
    var at := 0;
    ghost var n: nat := 0;
    while at < end
      invariant at == Total(f, n) <= end && n <= f.repeat
      invariant if end == 0 then dst[..] == a else Inside(f) && dst[..] == Progress(f, ToHost, a, d, b, s, n)
      decreases end - at
    {
      NextSampleFits(f, n);
      ConvertNext(f, dst, d, src, s, at, a, n);
      n := n + 1;
      at := at + len;
    }
    if end > 0 {
      WholeGroup(f, ToHost, a, d, b, s, n);
    }
    if Inside(f) {
      ConvertedGroup(f, a, d, b, s);
    }
  }

  /** iio_channel_convert_inverse: repeat samples from src to dst; nothing at all for
      samples of more than 1024 bytes. */
  method ConvertInverse(f: Format, dst: array<Byte>, d: nat, src: array<Byte>, s: nat)
    requires (HasTurns(f) && Len(f) <= SCRATCH ==> InsideInverse(f)) && dst != src
    requires d + Total(f, f.repeat) <= dst.Length && s + Total(f, f.repeat) <= src.Length
    modifies dst
    ensures !HasTurns(f) || Len(f) > 1024 ==> dst[..] == old(dst[..])
    ensures InsideInverse(f) && Len(f) <= 1024 ==>
              dst[..] == Progress(f, ToHardware, old(dst[..]), d, src[..], s, f.repeat)
              && forall i: nat :: i < f.repeat ==> WritesAs(f, src[..], s + Total(f, i), dst[..], d + Total(f, i))
  {
    hide *;
    ghost var a, b := dst[..], src[..];
    var len, end := Len(f), Total(f, f.repeat);
    ScratchSize();
    if len > SCRATCH {
      return;
    }
    Turns(f);
    Handled(f);
    NothingMapped(f, ToHardware, a, d, b, s);
    var at := 0;
    ghost var n: nat := 0;
    while at < end
      invariant at == Total(f, n) <= end && n <= f.repeat
      invariant if end == 0 then dst[..] == a else InsideInverse(f) && dst[..] == Progress(f, ToHardware, a, d, b, s, n)
      decreases end - at
    {
      NextSampleFits(f, n);
      InvertNext(f, dst, d, src, s, at, a, n);
      n := n + 1;
      at := at + len;
    }
    if end > 0 {
      WholeGroup(f, ToHardware, a, d, b, s, n);
    }
    if InsideInverse(f) {
      InvertedGroup(f, a, d, b, s);
    }
  }
}
