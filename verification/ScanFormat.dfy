/** The text form of a data format: printed into the context's XML and read back from it. */
module ScanFormat {
  import opened Errors
  import opened SampleConversion

  const WORD := 0x1_0000_0000

  // ---------------------------------------------------------------- printing

  function Digit(d: nat): char
    requires d < 10
  {
    ['0', '1', '2', '3', '4', '5', '6', '7', '8', '9'][d]
  }

  /** %u. */
  function Decimal(n: nat): (s: string)
    ensures |s| >= 1
  {
    if n < 10 then [Digit(n)] else Decimal(n / 10) + [Digit(n % 10)]
  }

  function SignChar(f: Format): char {
    if f.isFullyDefined then if f.isSigned then 'S' else 'U' else if f.isSigned then 's' else 'u'
  }

  /** What iio_snprintf_scan_element_xml puts between the quotes of the format attribute. */
  function Print(f: Format): string {
    [if f.isBe then 'b' else 'l', 'e', ':', SignChar(f)] + Decimal(f.bits) + ['/'] + Decimal(f.length)
    + (if f.repeat > 1 then ['X'] + Decimal(f.repeat) else []) + "&gt;&gt;" + Decimal(f.shift)
  }

  /** Attribute text with the predefined entities of XML replaced. */
  function Decoded(s: string): string
    decreases |s|
  {
    if s == [] then []
    else if "&gt;" <= s then ['>'] + Decoded(s[4..])
    else if "&lt;" <= s then ['<'] + Decoded(s[4..])
    else if "&amp;" <= s then ['&'] + Decoded(s[5..])
    else if "&quot;" <= s then ['"'] + Decoded(s[6..])
    else if "&apos;" <= s then ['\''] + Decoded(s[6..])
    else [s[0]] + Decoded(s[1..])
  }

  // ---------------------------------------------------------------- scanning

  predicate IsDigit(c: char) {
    '0' <= c <= '9'
  }

  predicate IsSpace(c: char) {
    c in {' ', '\t', '\n', '\r'} || c as int == 11 || c as int == 12
  }

  function SkipSpaces(s: string): (r: string)
    ensures |r| <= |s|
  {
    if s != [] && IsSpace(s[0]) then SkipSpaces(s[1..]) else s
  }

  /** How many digits s begins with. */
  function DigitCount(s: string): (n: nat)
    ensures n <= |s|
  {
    if s != [] && IsDigit(s[0]) then 1 + DigitCount(s[1..]) else 0
  }

  function DigitsValue(s: string): nat
    requires forall i :: 0 <= i < |s| ==> IsDigit(s[i])
  {
    if s == [] then 0
    else
      assert IsDigit(s[|s| - 1]);
      10 * DigitsValue(s[..|s| - 1]) + (s[|s| - 1] as int - '0' as int)
  }

  lemma {:induction false} LeadingDigits(s: string, i: nat)
    requires i < DigitCount(s)
    ensures IsDigit(s[i])
  {
    if i > 0 {
      LeadingDigits(s[1..], i - 1);
    }
  }

  datatype Directive = Literal(c: char) | CharConversion | UnsignedConversion

  datatype Conversion = Character(c: char) | Number(n: nat)

  /** Length of the sign a number may have. */
  function SignLength(s: string): nat {
    if s != [] && (s[0] == '-' || s[0] == '+') then 1 else 0
  }

  /** A number of sscanf in an unsigned int; digits is its text without the sign. */
  function Unsigned(negative: bool, digits: string): nat
    requires forall i :: 0 <= i < |digits| ==> IsDigit(digits[i])
  {
    var v: int := DigitsValue(digits);
    (if negative then -v else v) % WORD
  }

  /** The conversions sscanf makes before it stops. */
  function Scan(s: string, format: seq<Directive>): (r: seq<Conversion>)
    ensures |r| <= |format|
    decreases |format|
  {
    if format == [] then []
    else
      match format[0]
      case Literal(c) => if s != [] && s[0] == c then Scan(s[1..], format[1..]) else []
      case CharConversion => if s != [] then [Character(s[0])] + Scan(s[1..], format[1..]) else []
      case UnsignedConversion =>
        var t := SkipSpaces(s);
        var d := t[SignLength(t)..];
        var n := DigitCount(d);
        if n == 0 then []
        else
          assert forall i :: 0 <= i < n ==> IsDigit(d[i]) by {
            forall i | 0 <= i < n ensures IsDigit(d[i]) {
              LeadingDigits(d, i);
            }
          }
          [Number(Unsigned(t != [] && t[0] == '-', d[..n]))] + Scan(d[n..], format[1..])
  }

  const HEAD := [CharConversion, Literal('e'), Literal(':'), CharConversion, UnsignedConversion, Literal('/'),
                 UnsignedConversion]
  const TAIL := [Literal('>'), Literal('>'), UnsignedConversion]
  const REPEATED := [Literal('X'), UnsignedConversion]

  // ------------------------------------------------------------ the scan element

  function Num(r: seq<Conversion>, i: nat, otherwise: nat): nat {
    if i < |r| && r[i].Number? then r[i].n else otherwise
  }

  function Letter(r: seq<Conversion>, i: nat): char {
    if i < |r| && r[i].Character? then r[i].c else ' '
  }

  /** The fields sscanf has stored, on top of those of f. */
  function Stored(f: Format, r: seq<Conversion>, hasRepeat: bool): Format {
    if hasRepeat then
      f.(bits := Num(r, 2, f.bits), length := Num(r, 3, f.length), repeat := Num(r, 4, f.repeat),
         shift := Num(r, 5, f.shift))
    else
      f.(bits := Num(r, 2, f.bits), length := Num(r, 3, f.length), repeat := 1, shift := Num(r, 4, f.shift))
  }

  function Finished(f: Format, r: seq<Conversion>): Format {
    var e, s := Letter(r, 0), Letter(r, 1);
    f.(isBe := e == 'b', isSigned := s == 's' || s == 'S',
       isFullyDefined := s == 'S' || s == 'U' || f.bits == f.length)
  }

  function Directives(content: string): seq<Directive> {
    if 'X' in content then HEAD + REPEATED + TAIL else HEAD + TAIL
  }

  /** The conversions there are: two letters and three or four numbers. */
  function Expected(content: string): nat {
    if 'X' in content then 6 else 5
  }

  class ScanElement {
    var format: Format

    constructor (f: Format)
      ensures format == f
    {
      format := f;
    }

    /** The format attribute in setup_scan_element; a failing scan leaves what it had stored. */
    method SetupFormat(content: string) returns (ret: int)
      modifies this
      ensures var r := Scan(content, Directives(content));
              var stored := Stored(old(format), r, 'X' in content);
              if |r| == Expected(content) then ret == 0 && format == Finished(stored, r)
              else ret == -EINVAL && format == stored
    {
      hide Scan;
      var r: seq<Conversion>;
      if 'X' in content {
        r := Scan(content, HEAD + REPEATED + TAIL);
        format := Stored(format, r, true);
        if |r| != 6 {
          return -EINVAL;
        }
      } else {
        format := format.(repeat := 1);
        r := Scan(content, HEAD + TAIL);
        format := Stored(format, r, false);
        if |r| != 5 {
          return -EINVAL;
        }
      }
      var e, s := Letter(r, 0), Letter(r, 1);
      format := format.(isBe := e == 'b');
      format := format.(isSigned := s == 's' || s == 'S');
      format := format.(isFullyDefined := s == 'S' || s == 'U' || format.bits == format.length);
      return 0;
    }
  }

  // -------------------------------------------------------------- round trip

  predicate AllDigits(s: string) {
    forall i :: 0 <= i < |s| ==> IsDigit(s[i])
  }

  lemma DigitIs(d: nat)
    requires d < 10
    ensures IsDigit(Digit(d)) && Digit(d) as int - '0' as int == d
  {
  }

  lemma {:induction false} DecimalValue(n: nat)
    ensures AllDigits(Decimal(n)) && DigitsValue(Decimal(n)) == n
  {
    DigitIs(n % 10);
    hide Digit;
    if n >= 10 {
      DecimalValue(n / 10);
      assert Decimal(n)[..|Decimal(n)| - 1] == Decimal(n / 10);
    } else {
      assert Decimal(n)[..0] == [];
    }
  }

  predicate NoDigitFirst(s: string) {
    s == [] || !IsDigit(s[0])
  }

  lemma {:induction false} CountDigits(d: string, rest: string)
    requires AllDigits(d) && NoDigitFirst(rest)
    ensures DigitCount(d + rest) == |d|
  {
    if d == [] {
      assert d + rest == rest;
    } else {
      assert IsDigit(d[0]);
      CountDigits(d[1..], rest);
      assert (d + rest)[1..] == d[1..] + rest;
    }
  }

  lemma ScanNumber(n: nat, rest: string, format: seq<Directive>)
    requires n < WORD && NoDigitFirst(rest)
    ensures Scan(Decimal(n) + rest, [UnsignedConversion] + format) == [Number(n)] + Scan(rest, format)
  {
    var d := Decimal(n);
    DecimalValue(n);
    CountDigits(d, rest);
    hide Decimal, DigitsValue;
    var s := d + rest;
    assert IsDigit(d[0]) && s[0] == d[0];
    assert !IsSpace(s[0]) && SignLength(s) == 0;
    assert SkipSpaces(s) == s && s[0..] == s;
    assert s[..|d|] == d && s[|d|..] == rest;
    assert Unsigned(false, d) == n;
    assert ([UnsignedConversion] + format)[1..] == format;
  }

  lemma ScanLiteral(c: char, rest: string, format: seq<Directive>)
    ensures Scan([c] + rest, [Literal(c)] + format) == Scan(rest, format)
  {
    assert ([Literal(c)] + format)[1..] == format && ([c] + rest)[1..] == rest;
  }

  lemma ScanCharacter(c: char, rest: string, format: seq<Directive>)
    ensures Scan([c] + rest, [CharConversion] + format) == [Character(c)] + Scan(rest, format)
  {
    assert ([CharConversion] + format)[1..] == format && ([c] + rest)[1..] == rest;
  }

  // The printed text after decoding, front to back.

  function TailText(f: Format): string {
    ['>'] + (['>'] + Decimal(f.shift))
  }

  function RepeatText(f: Format): string {
    if f.repeat > 1 then ['X'] + (Decimal(f.repeat) + TailText(f)) else TailText(f)
  }

  function Plain(f: Format): string {
    [if f.isBe then 'b' else 'l'] + (['e'] + ([':'] + ([SignChar(f)] +
    (Decimal(f.bits) + (['/'] + (Decimal(f.length) + RepeatText(f)))))))
  }

  lemma ScanTail(f: Format)
    requires f.shift < WORD
    ensures Scan(TailText(f), TAIL) == [Number(f.shift)]
  {
    var d := Decimal(f.shift);
    ScanLiteral('>', ['>'] + d, [Literal('>'), UnsignedConversion]);
    ScanLiteral('>', d, [UnsignedConversion]);
    ScanNumber(f.shift, [], []);
    assert d + [] == d && [UnsignedConversion] + [] == [UnsignedConversion];
    assert [Literal('>')] + [UnsignedConversion] == [Literal('>'), UnsignedConversion];
    assert [Literal('>')] + [Literal('>'), UnsignedConversion] == TAIL;
    hide Scan;
  }

  lemma ScanRepeat(n: nat, rest: string, format: seq<Directive>)
    requires n < WORD && NoDigitFirst(rest)
    ensures Scan(['X'] + (Decimal(n) + rest), REPEATED + format) == [Number(n)] + Scan(rest, format)
  {
    hide Scan, Decimal;
    ScanLiteral('X', Decimal(n) + rest, [UnsignedConversion] + format);
    ScanNumber(n, rest, format);
    assert [Literal('X')] + ([UnsignedConversion] + format) == REPEATED + format;
  }

  lemma ScanHead(f: Format, rest: string, format: seq<Directive>)
    requires f.bits < WORD && f.length < WORD && NoDigitFirst(rest)
    ensures Scan([if f.isBe then 'b' else 'l'] + (['e'] + ([':'] + ([SignChar(f)] +
                 (Decimal(f.bits) + (['/'] + (Decimal(f.length) + rest)))))), HEAD + format)
         == [Character(if f.isBe then 'b' else 'l'), Character(SignChar(f)), Number(f.bits), Number(f.length)]
            + Scan(rest, format)
  {
    hide Scan, Decimal, SignChar;
    var t6 := Decimal(f.length) + rest;
    var t5 := ['/'] + t6;
    var t4 := Decimal(f.bits) + t5;
    var t3 := [SignChar(f)] + t4;
    var t2 := [':'] + t3;
    var t1 := ['e'] + t2;
    var d6 := [UnsignedConversion] + format;
    var d5 := [Literal('/')] + d6;
    var d4 := [UnsignedConversion] + d5;
    var d3 := [CharConversion] + d4;
    var d2 := [Literal(':')] + d3;
    var d1 := [Literal('e')] + d2;
    assert [CharConversion] + d1 == HEAD + format;
    ScanCharacter(if f.isBe then 'b' else 'l', t1, d1);
    ScanLiteral('e', t2, d2);
    ScanLiteral(':', t3, d3);
    ScanCharacter(SignChar(f), t4, d4);
    ScanNumber(f.bits, t5, d5);
    ScanLiteral('/', t6, d6);
    ScanNumber(f.length, rest, format);
  }

  /** Every number in a format fits an unsigned int. */
  predicate Printable(f: Format) {
    f.bits < WORD && f.length < WORD && f.repeat < WORD && f.shift < WORD
  }

  lemma ScanPlain(f: Format)
    requires Printable(f)
    ensures Scan(Plain(f), if f.repeat > 1 then HEAD + REPEATED + TAIL else HEAD + TAIL)
         == [Character(if f.isBe then 'b' else 'l'), Character(SignChar(f)), Number(f.bits), Number(f.length)]
            + (if f.repeat > 1 then [Number(f.repeat)] else []) + [Number(f.shift)]
  {
    hide Scan, Decimal, SignChar;
    ScanTail(f);
    if f.repeat > 1 {
      ScanHead(f, RepeatText(f), REPEATED + TAIL);
      ScanRepeat(f.repeat, TailText(f), TAIL);
      assert HEAD + (REPEATED + TAIL) == HEAD + REPEATED + TAIL;
    } else {
      ScanHead(f, RepeatText(f), TAIL);
    }
  }

  lemma RepeatMarked(f: Format)
    ensures 'X' in Plain(f) <==> f.repeat > 1
  {
    DecimalValue(f.bits);
    DecimalValue(f.length);
    DecimalValue(f.shift);
    DecimalValue(f.repeat);
    hide Decimal, DigitsValue;
    DigitsHaveNoX(Decimal(f.bits));
    DigitsHaveNoX(Decimal(f.length));
    DigitsHaveNoX(Decimal(f.shift));
  }

  lemma DigitsHaveNoX(s: string)
    requires AllDigits(s)
    ensures 'X' !in s && '&' !in s
  {
  }

  lemma NoPrefix(e: string, t: string)
    requires e != [] && t != [] && e[0] != t[0]
    ensures !(e <= t)
  {
  }

  lemma DecodedOne(c: char, s: string)
    requires c != '&'
    ensures Decoded([c] + s) == [c] + Decoded(s)
  {
    var t := [c] + s;
    assert t[0] == c && t[1..] == s;
    NoPrefix("&gt;", t);
    NoPrefix("&lt;", t);
    NoPrefix("&amp;", t);
    NoPrefix("&quot;", t);
    NoPrefix("&apos;", t);
  }

  lemma {:induction false} DecodedPlain(a: string, b: string)
    requires '&' !in a
    ensures Decoded(a + b) == a + Decoded(b)
  {
    hide Decoded;
    if a == [] {
      assert a + b == b;
    } else {
      DecodedPlain(a[1..], b);
      DecodedOne(a[0], a[1..] + b);
      assert a + b == [a[0]] + (a[1..] + b);
    }
  }

  lemma DecodedArrow(d: string)
    requires '&' !in d
    ensures Decoded("&gt;&gt;" + d) == ['>'] + (['>'] + d)
  {
    DecodedPlain(d, []);
    assert d + [] == d && Decoded([]) == [];
    hide Decoded;
    OneArrow(d);
    OneArrow("&gt;" + d);
    assert "&gt;&gt;" + d == "&gt;" + ("&gt;" + d);
  }

  lemma OneArrow(d: string)
    ensures Decoded("&gt;" + d) == ['>'] + Decoded(d)
  {
    var s := "&gt;" + d;
    assert s[4..] == d && "&gt;" <= s;
  }

  /** The text before the arrow. */
  function HeadText(f: Format): string {
    [if f.isBe then 'b' else 'l', 'e', ':', SignChar(f)] + Decimal(f.bits) + ['/'] + Decimal(f.length)
    + (if f.repeat > 1 then ['X'] + Decimal(f.repeat) else [])
  }

  lemma NothingToDecode(f: Format)
    ensures '&' !in HeadText(f) && '&' !in Decimal(f.shift)
  {
    DecimalValue(f.bits);
    DecimalValue(f.length);
    DecimalValue(f.shift);
    DecimalValue(f.repeat);
    hide Decimal, DigitsValue;
    DigitsHaveNoX(Decimal(f.bits));
    DigitsHaveNoX(Decimal(f.length));
    DigitsHaveNoX(Decimal(f.shift));
    DigitsHaveNoX(Decimal(f.repeat));
  }

  lemma PlainSplit(f: Format)
    ensures Plain(f) == HeadText(f) + TailText(f)
  {
    hide Decimal, SignChar, TailText;
    var b, l, t := Decimal(f.bits), Decimal(f.length), TailText(f);
    var e, c := if f.isBe then 'b' else 'l', SignChar(f);
    var x := if f.repeat > 1 then ['X'] + Decimal(f.repeat) else [];
    assert RepeatText(f) == x + t;
    assert [e] + (['e'] + ([':'] + ([c] + (b + (['/'] + (l + (x + t))))))) == [e, 'e', ':', c] + b + ['/'] + l + x + t;
  }

  lemma DecodedPrint(f: Format)
    ensures Decoded(Print(f)) == Plain(f)
  {
    NothingToDecode(f);
    PlainSplit(f);
    assert Print(f) == HeadText(f) + ("&gt;&gt;" + Decimal(f.shift));
    hide Decimal, Decoded, HeadText, Plain, Print;
    DecodedPlain(HeadText(f), "&gt;&gt;" + Decimal(f.shift));
    DecodedArrow(Decimal(f.shift));
  }

  /** What a printed format is read back as. */
  function Restored(f: Format): Format {
    f.(repeat := if f.repeat > 1 then f.repeat else 1, isFullyDefined := f.isFullyDefined || f.bits == f.length)
  }

  lemma Assembled(before: Format, f: Format, r: seq<Conversion>)
    requires r == [Character(if f.isBe then 'b' else 'l'), Character(SignChar(f)), Number(f.bits), Number(f.length)]
                  + (if f.repeat > 1 then [Number(f.repeat)] else []) + [Number(f.shift)]
    ensures |r| == if f.repeat > 1 then 6 else 5
    ensures Finished(Stored(before, r, f.repeat > 1), r) == Restored(f)
  {
    assert Letter(r, 0) == (if f.isBe then 'b' else 'l') && Letter(r, 1) == SignChar(f);
    assert Num(r, 2, 0) == f.bits && Num(r, 3, 0) == f.length;
  }

  /** Printing, decoding and scanning restore the format, up to what the text cannot say. */
  lemma FormatRoundTrip(before: Format, f: Format)
    requires Printable(f)
    ensures var content := Decoded(Print(f));
            var r := Scan(content, Directives(content));
            |r| == Expected(content) && Finished(Stored(before, r, 'X' in content), r) == Restored(f)
  {
    DecodedPrint(f);
    RepeatMarked(f);
    ScanPlain(f);
    hide Scan, Print, Decoded, Plain, Finished, Stored, Restored, SignChar;
    Assembled(before, f, Scan(Plain(f), Directives(Plain(f))));
  }

  /** Nothing at all is lost exactly for these formats. */
  lemma RestoredExactly(f: Format)
    ensures Restored(f) == f <==> f.repeat >= 1 && (f.bits == f.length ==> f.isFullyDefined)
  {
    if f.repeat >= 1 && (f.bits == f.length ==> f.isFullyDefined) {
      assert Restored(f).repeat == f.repeat && Restored(f).isFullyDefined == f.isFullyDefined;
    }
  }

  /** What the two letters of a complete scan mean. */
  lemma LettersMean(f: Format, r: seq<Conversion>)
    requires |r| >= 2 && r[0].Character? && r[1].Character?
    ensures var g, e, s := Finished(f, r), r[0].c, r[1].c;
            && (g.isBe <==> e == 'b')
            && (g.isSigned <==> s == 's' || s == 'S')
            && (g.isFullyDefined <==> s == 'S' || s == 'U' || f.bits == f.length)
            && g.bits == f.bits && g.length == f.length && g.repeat == f.repeat && g.shift == f.shift
  {
  }

  lemma TwoDigits(n: nat)
    requires 10 <= n < 100
    ensures Decimal(n) == [Digit(n / 10), Digit(n % 10)]
  {
  }

  /** A scan that stops early leaves the numbers it did not reach; without an X in the text
      the repeat count is one. */
  lemma StoredInOrder(f: Format, r: seq<Conversion>, hasRepeat: bool)
    requires forall i :: 0 <= i < |r| ==> (r[i].Number? <==> i >= 2)
    ensures var g := Stored(f, r, hasRepeat);
            && g.bits == (if |r| > 2 then r[2].n else f.bits)
            && g.length == (if |r| > 3 then r[3].n else f.length)
            && g.repeat == (if !hasRepeat then 1 else if |r| > 4 then r[4].n else f.repeat)
            && g.shift == (if hasRepeat then if |r| > 5 then r[5].n else f.shift
                           else if |r| > 4 then r[4].n else f.shift)
            && g.isSigned == f.isSigned && g.isBe == f.isBe && g.isFullyDefined == f.isFullyDefined
  {
  }

  /** Two formats in full: twelve signed bits of sixteen, the highest ones. */
  lemma PrintedLittle()
    ensures Print(Format(16, 12, 4, true, false, false, 1)) == "le:s12/16&gt;&gt;4"
  {
    TwoDigits(12);
    TwoDigits(16);
    assert Decimal(4) == ['4'];
    hide Decimal;
    assert Print(Format(16, 12, 4, true, false, false, 1))
        == ['l', 'e', ':', 's'] + ['1', '2'] + ['/'] + ['1', '6'] + [] + "&gt;&gt;" + ['4'];
  }

  /** And three times twenty-four of thirty-two, unsigned, fully defined and big-endian. */
  lemma PrintedBig()
    ensures Print(Format(32, 24, 8, false, true, true, 3)) == "be:U24/32X3&gt;&gt;8"
  {
    TwoDigits(24);
    TwoDigits(32);
    assert Decimal(8) == ['8'] && Decimal(3) == ['3'];
    hide Decimal;
    assert Print(Format(32, 24, 8, false, true, true, 3))
        == ['b', 'e', ':', 'U'] + ['2', '4'] + ['/'] + ['3', '2'] + (['X'] + ['3']) + "&gt;&gt;" + ['8'];
  }

  /** A number behind blanks. */
  lemma BlankBefore()
    ensures Scan(" 7", [UnsignedConversion]) == [Number(7)]
  {
    assert " 7"[1..] == "7" && "7"[0..] == "7" && "7"[1..] == "" && "7"[..1] == "7" && "7"[..0] == "";
    assert DigitsValue("7") == 7 && DigitCount("7") == 1 && SkipSpaces(" 7") == "7";
  }

  /** A number with a sign counts modulo 2^32. */
  lemma SignBefore()
    ensures Scan("-1", [UnsignedConversion]) == [Number(0xffff_ffff)]
  {
    assert "-1"[1..] == "1" && "1"[1..] == "" && "1"[..1] == "1" && "1"[..0] == "";
    assert DigitsValue("1") == 1 && DigitCount("1") == 1 && SkipSpaces("-1") == "-1";
  }

  /** A text that does not go on as expected ends the scan. */
  lemma NoNumber()
    ensures Scan("x1", [CharConversion, Literal('e'), UnsignedConversion]) == [Character('x')]
    ensures Scan("x", [UnsignedConversion]) == []
  {
    assert "x1"[1..] == "1" && Scan("1", [Literal('e'), UnsignedConversion]) == [];
    assert "x"[0..] == "x" && DigitCount("x") == 0 && SkipSpaces("x") == "x";
  }
}
