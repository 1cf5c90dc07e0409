/** Strings of RFC 8785: escapes (`_string`), UTF-8 output, and the UTF-16 order of member names. */
module JcsString {
  import opened Texts

  const QUOTE := 0x22
  const BACKSLASH := 0x5C

  /** Not a surrogate: strict UTF-8 encodes exactly these code points. */
  predicate Scalar(c: int) { 0 <= c < 0xD800 || 0xE000 <= c <= 0x10FFFF }

  predicate AllScalars(t: Text) { t.Cons? ==> Scalar(t.head) && AllScalars(t.tail) }

  lemma {:induction false} AllScalarsCat(a: Text, b: Text)
    ensures AllScalars(Cat(a, b)) <==> AllScalars(a) && AllScalars(b)
  {
    if a.Cons? { AllScalarsCat(a.tail, b); }
  }

  // ----- Escapes

  function HexDigit(d: int): int
    requires 0 <= d < 16
  {
    if d < 10 then ZERO + d else 0x61 + (d - 10)
  }

  /** `\uXXXX` of a UTF-16 code unit, in lower case, and then `rest`. */
  function UnicodeEscape(u: int, rest: Text): Text
    requires 0 <= u < 0x10000
  {
    Cons(BACKSLASH, Cons(0x75, Cons(HexDigit(u / 4096), Cons(HexDigit((u / 256) % 16),
      Cons(HexDigit((u / 16) % 16), Cons(HexDigit(u % 16), rest))))))
  }

  function ShortEscape(letter: int, rest: Text): Text { Cons(BACKSLASH, Cons(letter, rest)) }

  /** One character as `encode_basestring` writes it, and then `rest`. */
  function EscapeChar(c: int, rest: Text): Text {
    if c == QUOTE || c == BACKSLASH then ShortEscape(c, rest)
    else if c == 0x08 then ShortEscape(0x62, rest)
    else if c == 0x09 then ShortEscape(0x74, rest)
    else if c == 0x0A then ShortEscape(0x6E, rest)
    else if c == 0x0C then ShortEscape(0x66, rest)
    else if c == 0x0D then ShortEscape(0x72, rest)
    else if 0 <= c < 0x20 then UnicodeEscape(c, rest)
    else Cons(c, rest)
  }

  /** One character as `encode_basestring_ascii` writes it, and then `rest`. */
  function EscapeCharAscii(c: int, rest: Text): Text
    requires 0 <= c <= 0x10FFFF
  {
    if c < 0x7F then EscapeChar(c, rest)
    else if c < 0x10000 then UnicodeEscape(c, rest)
    else UnicodeEscape(0xD800 + (c - 0x10000) / 0x400, UnicodeEscape(0xDC00 + (c - 0x10000) % 0x400, rest))
  }

  predicate CodePoints(t: Text) { t.Cons? ==> 0 <= t.head <= 0x10FFFF && CodePoints(t.tail) }

  /** The characters of `t` escaped, a closing quote, and `rest`. */
  function Escaped(t: Text, rest: Text): Text {
    if t.Nil? then Cons(QUOTE, rest) else EscapeChar(t.head, Escaped(t.tail, rest))
  }

  function EscapedAscii(t: Text, rest: Text): Text
    requires CodePoints(t)
  {
    if t.Nil? then Cons(QUOTE, rest) else EscapeCharAscii(t.head, EscapedAscii(t.tail, rest))
  }

  predicate IsAscii(t: Text) { t.Cons? ==> 0 <= t.head < 0x80 && IsAscii(t.tail) }

  predicate HasDelete(t: Text) { t.Cons? && (t.head == 0x7F || HasDelete(t.tail)) }

  /** `_string`: the ASCII encoder for ASCII text without U+007F, else the general one for text that
      strict UTF-8 accepts; None is the ValueError. */
  function StringText(t: Text): Option<Text> {
    if IsAscii(t) && !HasDelete(t) then
      FastPathAgrees(t, Nil);
      Some(Cons(QUOTE, EscapedAscii(t, Nil)))
    else if !AllScalars(t) then None
    else Some(Cons(QUOTE, Escaped(t, Nil)))
  }

  /** The fast encoder agrees with the general one wherever it is used. */
  lemma {:induction false} FastPathAgrees(t: Text, rest: Text)
    requires IsAscii(t) && !HasDelete(t)
    ensures CodePoints(t) && AllScalars(t) && EscapedAscii(t, rest) == Escaped(t, rest)
  {
    if t.Cons? { FastPathAgrees(t.tail, rest); }
  }

  lemma StringTextIs(t: Text)
    ensures StringText(t) == if AllScalars(t) then Some(Cons(QUOTE, Escaped(t, Nil))) else None
  {
    if IsAscii(t) && !HasDelete(t) { FastPathAgrees(t, Nil); }
  }

  lemma EscapeCharCat(c: int, t: Text, rest: Text)
    ensures Cat(EscapeChar(c, t), rest) == EscapeChar(c, Cat(t, rest))
  {
    var e := EscapeChar(c, t);
    if 0 <= c < 0x20 && e == UnicodeEscape(c, t) {
      assert Cat(e.tail.tail.tail.tail, rest)
        == Cons(e.tail.tail.tail.tail.head, Cons(e.tail.tail.tail.tail.tail.head, Cat(t, rest)));
      assert Cat(e.tail.tail, rest)
        == Cons(e.tail.tail.head, Cons(e.tail.tail.tail.head, Cat(e.tail.tail.tail.tail, rest)));
    }
  }

  lemma {:induction false} EscapedCat(t: Text, rest: Text)
    ensures Cat(Escaped(t, Nil), rest) == Escaped(t, rest)
  {
    if t.Cons? {
      EscapeCharCat(t.head, Escaped(t.tail, Nil), rest);
      EscapedCat(t.tail, rest);
    }
  }

  lemma EscapeCharScalars(c: int, rest: Text)
    requires Scalar(c) && AllScalars(rest)
    ensures AllScalars(EscapeChar(c, rest))
  {
    var e := EscapeChar(c, rest);
    if 0 <= c < 0x20 && e == UnicodeEscape(c, rest) {
      assert AllScalars(e.tail.tail.tail.tail);
      assert AllScalars(e.tail.tail);
    }
  }

  lemma {:induction false} EscapedScalars(t: Text, rest: Text)
    requires AllScalars(t) && AllScalars(rest)
    ensures AllScalars(Escaped(t, rest))
  {
    if t.Cons? {
      EscapedScalars(t.tail, rest);
      EscapeCharScalars(t.head, Escaped(t.tail, rest));
    }
  }

  // ----- Reading a JSON string (section 7 of RFC 8259)

  function HexValue(c: int): Option<int> {
    if IsDigit(c) then Some(c - ZERO)
    else if 0x61 <= c <= 0x66 then Some(c - 0x61 + 10)
    else if 0x41 <= c <= 0x46 then Some(c - 0x41 + 10)
    else None
  }

  datatype HexRead = BadHex | HexRead(unit: int, rest: Text)

  /** Four hexadecimal digits. */
  function ReadHex4(t: Text): (r: HexRead)
    ensures r.HexRead? ==> Len(r.rest) < Len(t)
  {
    if t.Cons? && t.tail.Cons? && t.tail.tail.Cons? && t.tail.tail.tail.Cons? then
      assert Len(t) == 2 + Len(t.tail.tail) && Len(t.tail.tail) == 2 + Len(t.tail.tail.tail.tail);
      var a, b, c, d := HexValue(t.head), HexValue(t.tail.head), HexValue(t.tail.tail.head),
        HexValue(t.tail.tail.tail.head);
      if a.Some? && b.Some? && c.Some? && d.Some?
      then HexRead(4096 * a.value + 256 * b.value + 16 * c.value + d.value, t.tail.tail.tail.tail)
      else BadHex
    else BadHex
  }

  /** The character that a one-letter escape stands for. */
  function Unescape(letter: int): Option<int> {
    if letter == QUOTE || letter == BACKSLASH || letter == 0x2F then Some(letter)
    else if letter == 0x62 then Some(0x08)
    else if letter == 0x66 then Some(0x0C)
    else if letter == 0x6E then Some(0x0A)
    else if letter == 0x72 then Some(0x0D)
    else if letter == 0x74 then Some(0x09)
    else None
  }

  datatype StringRead = BadString | StringRead(text: Text, rest: Text)

  function Prepend(c: int, r: StringRead): StringRead {
    if r.BadString? then r else StringRead(Cons(c, r.text), r.rest)
  }

  /** The rest of a JSON string after its opening quote. A `\u` escape of a high surrogate joins with
      the escape of a low surrogate after it. */
  function ReadString(t: Text): (r: StringRead)
    ensures r.StringRead? ==> Len(r.rest) < Len(t)
    decreases Len(t)
  {
    assert t.Cons? ==> Len(t) == 1 + Len(t.tail);
    assert t.Cons? && t.tail.Cons? ==> Len(t) == 2 + Len(t.tail.tail);
    if t.Nil? || 0 <= t.head < 0x20 then BadString
    else if t.head == QUOTE then StringRead(Nil, t.tail)
    else if t.head != BACKSLASH then Prepend(t.head, ReadString(t.tail))
    else if t.tail.Nil? then BadString
    else if t.tail.head != 0x75 then
      if Unescape(t.tail.head).None? then BadString else Prepend(Unescape(t.tail.head).value, ReadString(t.tail.tail))
    else
      var first := ReadHex4(t.tail.tail);
      if first.BadHex? then BadString
      else if 0xD800 <= first.unit < 0xDC00 && StartsWith(first.rest, BACKSLASH)
        && StartsWith(first.rest.tail, 0x75) then
        assert Len(first.rest) == 2 + Len(first.rest.tail.tail);
        var second := ReadHex4(first.rest.tail.tail);
        if second.HexRead? && 0xDC00 <= second.unit < 0xE000
        then Prepend(0x10000 + (first.unit - 0xD800) * 0x400 + (second.unit - 0xDC00), ReadString(second.rest))
        else Prepend(first.unit, ReadString(first.rest))
      else Prepend(first.unit, ReadString(first.rest))
  }

  lemma HexDigitReads(d: int)
    requires 0 <= d < 16
    ensures HexValue(HexDigit(d)) == Some(d)
  {}

  /** The digits of a control character. */
  lemma ControlDigits(c: int)
    requires 0 <= c < 0x20
    ensures c / 4096 == 0 && (c / 256) % 16 == 0 && 0 <= (c / 16) % 16 < 2 && c == 16 * ((c / 16) % 16) + c % 16
  {}

  lemma ReadControl(c: int, rest: Text)
    requires 0 <= c < 0x20
    ensures ReadString(UnicodeEscape(c, rest)) == Prepend(c, ReadString(rest))
  {
    var e := UnicodeEscape(c, rest);
    ControlDigits(c);
    HexDigitReads(0);
    HexDigitReads((c / 16) % 16);
    HexDigitReads(c % 16);
    assert ReadHex4(e.tail.tail) == HexRead(c, rest);
  }

  lemma ReadShort(letter: int, c: int, rest: Text)
    requires Unescape(letter) == Some(c)
    ensures ReadString(ShortEscape(letter, rest)) == Prepend(c, ReadString(rest))
  {}

  lemma ReadPlain(c: int, rest: Text)
    requires c >= 0x20 && c != QUOTE && c != BACKSLASH
    ensures ReadString(Cons(c, rest)) == Prepend(c, ReadString(rest))
  {}

  lemma ReadEscapedChar(c: int, rest: Text)
    requires Scalar(c)
    ensures ReadString(EscapeChar(c, rest)) == Prepend(c, ReadString(rest))
  {
    if c == QUOTE || c == BACKSLASH { ReadShort(c, c, rest); }
    else if c == 0x08 { ReadShort(0x62, c, rest); }
    else if c == 0x09 { ReadShort(0x74, c, rest); }
    else if c == 0x0A { ReadShort(0x6E, c, rest); }
    else if c == 0x0C { ReadShort(0x66, c, rest); }
    else if c == 0x0D { ReadShort(0x72, c, rest); }
    else if c < 0x20 { ReadControl(c, rest); }
    else { ReadPlain(c, rest); }
  }

  /** The escapes of a string, read back, are the string. */
  lemma {:induction false} ReadEscaped(t: Text, rest: Text)
    requires AllScalars(t)
    ensures ReadString(Escaped(t, rest)) == StringRead(t, rest)
  {
    if t.Cons? {
      ReadEscapedChar(t.head, Escaped(t.tail, rest));
      ReadEscaped(t.tail, rest);
    }
  }

  // ----- UTF-8

  /** One character in UTF-8, and then `rest`. */
  function Utf8Char(c: int, rest: Bytes): Bytes {
    if c < 0x80 then Cons(c, rest)
    else if c < 0x800 then Cons(0xC0 + c / 64, Cons(0x80 + c % 64, rest))
    else if c < 0x10000 then Cons(0xE0 + c / 4096, Cons(0x80 + (c / 64) % 64, Cons(0x80 + c % 64, rest)))
    else Cons(0xF0 + c / 262144, Cons(0x80 + (c / 4096) % 64, Cons(0x80 + (c / 64) % 64, Cons(0x80 + c % 64, rest))))
  }

  function Utf8(t: Text): Bytes {
    if t.Nil? then Nil else Utf8Char(t.head, Utf8(t.tail))
  }

  predicate Continues(bs: Bytes) { bs.Cons? && 0x80 <= bs.head < 0xC0 }

  datatype CharRead = BadChar | CharRead(c: int, rest: Bytes)

  /** One character of strict UTF-8 (section 3 of RFC 3629): no overlong form, no surrogate. */
  function ReadUtf8Char(bs: Bytes): (r: CharRead)
    ensures r.CharRead? ==> r.rest < bs
  {
    if bs.Nil? then BadChar
    else if 0 <= bs.head < 0x80 then CharRead(bs.head, bs.tail)
    else if 0xC0 <= bs.head < 0xE0 && Continues(bs.tail) then
      var c := (bs.head - 0xC0) * 64 + (bs.tail.head - 0x80);
      if c >= 0x80 then CharRead(c, bs.tail.tail) else BadChar
    else if 0xE0 <= bs.head < 0xF0 && Continues(bs.tail) && Continues(bs.tail.tail) then
      var c := (bs.head - 0xE0) * 4096 + (bs.tail.head - 0x80) * 64 + (bs.tail.tail.head - 0x80);
      if c >= 0x800 && Scalar(c) then CharRead(c, bs.tail.tail.tail) else BadChar
    else if 0xF0 <= bs.head < 0xF8 && Continues(bs.tail) && Continues(bs.tail.tail) && Continues(bs.tail.tail.tail) then
      var c := (bs.head - 0xF0) * 262144 + (bs.tail.head - 0x80) * 4096 + (bs.tail.tail.head - 0x80) * 64
        + (bs.tail.tail.tail.head - 0x80);
      if c >= 0x10000 && Scalar(c) then CharRead(c, bs.tail.tail.tail.tail) else BadChar
    else BadChar
  }

  function ReadUtf8(bs: Bytes): Option<Text>
    decreases bs
  {
    if bs.Nil? then Some(Nil) else
      var first := ReadUtf8Char(bs);
      if first.BadChar? then None else
        var rest := ReadUtf8(first.rest);
        if rest.None? then None else Some(Cons(first.c, rest.value))
  }

  lemma Base64Digits(c: int)
    requires 0 <= c
    ensures c == 64 * (c / 64) + c % 64
    ensures c / 64 == 64 * (c / 4096) + (c / 64) % 64
    ensures c / 4096 == 64 * (c / 262144) + (c / 4096) % 64
  {
    assert c / 4096 == (c / 64) / 64 && c / 262144 == (c / 4096) / 64;
  }

  lemma ReadTwo(c: int, a: int, b: int, rest: Bytes)
    requires 0x80 <= c < 0x800 && c == 64 * a + b && 0 <= b < 64
    ensures ReadUtf8Char(Cons(0xC0 + a, Cons(0x80 + b, rest))) == CharRead(c, rest)
  {}

  lemma ReadThree(c: int, a: int, b: int, d: int, rest: Bytes)
    requires 0x800 <= c < 0x10000 && Scalar(c) && c == 4096 * a + 64 * b + d && 0 <= b < 64 && 0 <= d < 64
    ensures ReadUtf8Char(Cons(0xE0 + a, Cons(0x80 + b, Cons(0x80 + d, rest)))) == CharRead(c, rest)
  {}

  lemma ReadFour(c: int, a: int, b: int, d: int, f: int, rest: Bytes)
    requires 0x10000 <= c <= 0x10FFFF && c == 262144 * a + 4096 * b + 64 * d + f
    requires 0 <= b < 64 && 0 <= d < 64 && 0 <= f < 64
    ensures ReadUtf8Char(Cons(0xF0 + a, Cons(0x80 + b, Cons(0x80 + d, Cons(0x80 + f, rest))))) == CharRead(c, rest)
  {}

  lemma TwoBytes(c: int, rest: Bytes)
    requires 0x80 <= c < 0x800
    ensures ReadUtf8Char(Utf8Char(c, rest)) == CharRead(c, rest)
  {
    Base64Digits(c);
    ReadTwo(c, c / 64, c % 64, rest);
  }

  lemma ThreeBytes(c: int, rest: Bytes)
    requires 0x800 <= c < 0x10000 && Scalar(c)
    ensures ReadUtf8Char(Utf8Char(c, rest)) == CharRead(c, rest)
  {
    Base64Digits(c);
    ReadThree(c, c / 4096, (c / 64) % 64, c % 64, rest);
  }

  lemma FourBytes(c: int, rest: Bytes)
    requires 0x10000 <= c <= 0x10FFFF
    ensures ReadUtf8Char(Utf8Char(c, rest)) == CharRead(c, rest)
  {
    Base64Digits(c);
    ReadFour(c, c / 262144, (c / 4096) % 64, (c / 64) % 64, c % 64, rest);
  }

  lemma ReadUtf8CharOf(c: int, rest: Bytes)
    requires Scalar(c)
    ensures ReadUtf8Char(Utf8Char(c, rest)) == CharRead(c, rest)
  {
    if c < 0x80 {
    } else if c < 0x800 {
      TwoBytes(c, rest);
    } else if c < 0x10000 {
      ThreeBytes(c, rest);
    } else {
      FourBytes(c, rest);
    }
  }

  lemma {:induction false} ReadUtf8Of(t: Text)
    requires AllScalars(t)
    ensures ReadUtf8(Utf8(t)) == Some(t)
  {
    if t.Cons? {
      ReadUtf8CharOf(t.head, Utf8(t.tail));
      ReadUtf8Of(t.tail);
    }
  }

  // ----- The order of member names

  /** The UTF-16 code units of a text. */
  function Units(t: Text): List<int> {
    if t.Nil? then Nil
    else if t.head < 0x10000 then Cons(t.head, Units(t.tail))
    else Cons(0xD800 + (t.head - 0x10000) / 0x400, Cons(0xDC00 + (t.head - 0x10000) % 0x400, Units(t.tail)))
  }

  /** The code units as bytes, high byte first. */
  function BigEndian(us: List<int>): Bytes {
    if us.Nil? then Nil else Cons(us.head / 256, Cons(us.head % 256, BigEndian(us.tail)))
  }

  /** `_utf16_units`: the sort key of a member name. */
  function Utf16Key(t: Text): Bytes { BigEndian(Units(t)) }

  /** Lexicographic order, as Python compares `bytes`. */
  predicate LexLe(a: List<int>, b: List<int>) {
    a.Nil? || (b.Cons? && (a.head < b.head || (a.head == b.head && LexLe(a.tail, b.tail))))
  }

  lemma {:induction false} LexTotal(a: List<int>, b: List<int>)
    ensures LexLe(a, b) || LexLe(b, a)
  {
    if a.Cons? && b.Cons? { LexTotal(a.tail, b.tail); }
  }

  lemma {:induction false} LexAntisymmetric(a: List<int>, b: List<int>)
    requires LexLe(a, b) && LexLe(b, a)
    ensures a == b
  {
    if a.Cons? && b.Cons? { LexAntisymmetric(a.tail, b.tail); }
  }

  lemma {:induction false} LexTransitive(a: List<int>, b: List<int>, c: List<int>)
    requires LexLe(a, b) && LexLe(b, c)
    ensures LexLe(a, c)
  {
    if a.Cons? && b.Cons? && c.Cons? && a.head == b.head == c.head { LexTransitive(a.tail, b.tail, c.tail); }
  }

  predicate CodeUnits(us: List<int>) { us.Cons? ==> 0 <= us.head < 0x10000 && CodeUnits(us.tail) }

  lemma {:induction false} UnitsAreCodeUnits(t: Text)
    requires AllScalars(t)
    ensures CodeUnits(Units(t))
  {
    if t.Cons? { UnitsAreCodeUnits(t.tail); }
  }

  /** Big-endian bytes compare like the code units. */
  lemma {:induction false} BigEndianOrder(a: List<int>, b: List<int>)
    requires CodeUnits(a) && CodeUnits(b)
    ensures LexLe(BigEndian(a), BigEndian(b)) <==> LexLe(a, b)
  {
    if a.Cons? && b.Cons? { BigEndianOrder(a.tail, b.tail); }
  }

  /** The text of UTF-16 code units (section 2.2 of RFC 2781): a high and a low surrogate make one
      character. */
  function ReadUnits(us: List<int>): Text {
    if us.Nil? then Nil
    else if 0xD800 <= us.head < 0xDC00 && us.tail.Cons? && 0xDC00 <= us.tail.head < 0xE000
    then Cons(0x10000 + (us.head - 0xD800) * 0x400 + (us.tail.head - 0xDC00), ReadUnits(us.tail.tail))
    else Cons(us.head, ReadUnits(us.tail))
  }

  lemma {:induction false} ReadUnitsOf(t: Text)
    requires AllScalars(t)
    ensures ReadUnits(Units(t)) == t
  {
    if t.Cons? { ReadUnitsOf(t.tail); }
  }

  /** Different names have different code units. */
  lemma UnitsInjective(a: Text, b: Text)
    requires AllScalars(a) && AllScalars(b) && Units(a) == Units(b)
    ensures a == b
  {
    ReadUnitsOf(a);
    ReadUnitsOf(b);
  }

  /** The sort order of member names is the order of their UTF-16 code units (section 3.2.3 of RFC 8785). */
  lemma KeyOrderIsUnitOrder(a: Text, b: Text)
    requires AllScalars(a) && AllScalars(b)
    ensures LexLe(Utf16Key(a), Utf16Key(b)) <==> LexLe(Units(a), Units(b))
    ensures LexLe(Utf16Key(a), Utf16Key(b)) && LexLe(Utf16Key(b), Utf16Key(a)) ==> a == b
  {
    UnitsAreCodeUnits(a);
    UnitsAreCodeUnits(b);
    BigEndianOrder(Units(a), Units(b));
    BigEndianOrder(Units(b), Units(a));
    if LexLe(Units(a), Units(b)) && LexLe(Units(b), Units(a)) {
      LexAntisymmetric(Units(a), Units(b));
      UnitsInjective(a, b);
    }
  }
}
