/** Which of the many JSON texts for a value RFC 8785 writes: the shortest strings, no blanks, one form of a number. */
module JcsForm {
  import opened Texts
  import opened PyValues
  import opened JcsNumber
  import opened JcsString
  import opened JsonReader
  import opened Jcs

  // ----- Strings: the shortest text, in lower case

  predicate UpperHex(c: int) { 0x41 <= c <= 0x46 }

  /** None of the next `n` characters is a letter A-F. */
  predicate Lower(t: Text, n: nat) { n == 0 || t.Nil? || (!UpperHex(t.head) && Lower(t.tail, n - 1)) }

  /** No `\u` escape of a string's text, up to its closing quote, has a letter A-F. */
  predicate LowerEscapes(u: Text)
    decreases u
  {
    if u.Nil? || u.head == QUOTE then true
    else if u.head != BACKSLASH then LowerEscapes(u.tail)
    else if u.tail.Nil? then true
    else if u.tail.head != 0x75 then LowerEscapes(u.tail.tail)
    else Lower(u.tail.tail, 4) && LowerEscapes(u.tail.tail)
  }

  lemma LenEscapeChar(c: int, rest: Text)
    ensures Len(EscapeChar(c, rest)) == Len(EscapeChar(c, Nil)) + Len(rest)
  {
    EscapeCharCat(c, Nil, rest);
    LenCat(EscapeChar(c, Nil), rest);
  }

  lemma {:induction false} LenFour(t: Text)
    requires t.Cons? && t.tail.Cons? && t.tail.tail.Cons? && t.tail.tail.tail.Cons?
    ensures Len(t) == 4 + Len(t.tail.tail.tail.tail)
  {
    assert Len(t.tail.tail) == 2 + Len(t.tail.tail.tail.tail);
  }

  lemma HexParts(w: int, x: int, y: int, z: int, c: int)
    requires 0 <= w < 16 && 0 <= x < 16 && 0 <= y < 16 && 0 <= z < 16
    requires c == 4096 * w + 256 * x + 16 * y + z && c < 0x20
    ensures w == 0 && x == 0 && y == (c / 16) % 16 && z == c % 16
  {
    assert 16 * y + z < 32;
  }

  /** Four lower-case digits of a control character are those that are written. */
  lemma LowerHex4(t: Text, c: int)
    requires ReadHex4(t).HexRead? && ReadHex4(t).unit == c && 0 <= c < 0x20 && Lower(t, 4)
    ensures Cons(BACKSLASH, Cons(0x75, t)) == UnicodeEscape(c, ReadHex4(t).rest)
  {
    var a, b, d, e := t.head, t.tail.head, t.tail.tail.head, t.tail.tail.tail.head;
    assert !UpperHex(a) && Lower(t.tail, 3) && !UpperHex(b);
    assert Lower(t.tail.tail, 2) && !UpperHex(d) && Lower(t.tail.tail.tail, 1) && !UpperHex(e);
    var w, x, y, z := HexValue(a).value, HexValue(b).value, HexValue(d).value, HexValue(e).value;
    ControlDigits(c);
    HexParts(w, x, y, z, c);
    assert HexValue(a) == Some(0) && HexValue(b) == Some(0);
    assert HexValue(d) == Some((c / 16) % 16) && HexValue(e) == Some(c % 16);
  }

  lemma EscapeCharLen(c: int)
    ensures Len(EscapeChar(c, Nil)) ==
      if c in {0x22, 0x5C, 0x08, 0x09, 0x0A, 0x0C, 0x0D} then 2 else if 0 <= c < 0x20 then 6 else 1
  {
    var e := EscapeChar(c, Nil);
    if 0 <= c < 0x20 && c !in {0x08, 0x09, 0x0A, 0x0C, 0x0D} {
      var last: Text := Cons(HexDigit(c % 16), Nil);
      assert e.tail.tail.tail.tail.tail == last && Len(last) == 1;
      assert Len(e.tail.tail.tail.tail) == 1 + Len(last);
      LenFour(e);
    }
  }

  /** A one-letter escape is at least as long as what is written, and the same when it is as long. */
  lemma ShortEscapeForm(letter: int, c: int, more: Text, rest: Text)
    requires Unescape(letter) == Some(c) && Len(more) <= Len(rest)
    ensures Len(EscapeChar(c, more)) <= 2 + Len(rest)
    ensures Len(EscapeChar(c, more)) == 2 + Len(rest) ==>
      Len(more) == Len(rest) && EscapeChar(c, more) == Cons(BACKSLASH, Cons(letter, more))
  {
    if c == 0x2F {
      assert EscapeChar(c, more) == Cons(c, more);
    } else {
      var written := Cons(letter, more);
      assert EscapeChar(c, more) == Cons(BACKSLASH, written);
      assert Len(written) == 1 + Len(more);
    }
  }

  /** A `\u` escape is at least as long as what is written, and the same when it is as long and in lower case. */
  lemma UnicodeEscapeForm(t: Text, c: int, more: Text)
    requires ReadHex4(t).HexRead? && ReadHex4(t).unit == c && Len(more) <= Len(ReadHex4(t).rest)
    ensures Len(EscapeChar(c, more)) <= 2 + Len(t)
    ensures Len(EscapeChar(c, more)) == 2 + Len(t) ==> Len(more) == Len(ReadHex4(t).rest)
    ensures Len(EscapeChar(c, more)) == 2 + Len(t) && Lower(t, 4) && more == ReadHex4(t).rest ==>
      EscapeChar(c, more) == Cons(BACKSLASH, Cons(0x75, t))
  {
    LenFour(t);
    LenEscapeChar(c, more);
    EscapeCharLen(c);
    if 0 <= c < 0x20 && Lower(t, 4) { LowerHex4(t, c); }
  }

  /** Past the four digits of an escape the text goes on as before. */
  lemma LowerPastHex(t: Text)
    requires ReadHex4(t).HexRead? && LowerEscapes(t)
    ensures LowerEscapes(ReadHex4(t).rest)
  {
    assert HexValue(t.head).Some? && LowerEscapes(t.tail);
    assert HexValue(t.tail.head).Some? && LowerEscapes(t.tail.tail);
    assert HexValue(t.tail.tail.head).Some? && LowerEscapes(t.tail.tail.tail);
  }

  /** No text of a string is shorter than the one that is written, and of those as short it is the one with
      lower-case escapes. */
  lemma {:induction false} ShortestString(u: Text, t: Text, rest: Text)
    requires ReadString(u) == StringRead(t, rest) && AllScalars(t)
    ensures Len(Escaped(t, rest)) <= Len(u)
    ensures Len(Escaped(t, rest)) == Len(u) && LowerEscapes(u) ==> u == Escaped(t, rest)
    decreases Len(u)
  {
    if u.head != QUOTE {
      var more := Escaped(t.tail, rest);
      if u.head != BACKSLASH {
        ShortestString(u.tail, t.tail, rest);
        LenEscapeChar(t.head, more);
        EscapeCharLen(t.head);
      } else if u.tail.head != 0x75 {
        assert Len(u) == 2 + Len(u.tail.tail);
        ShortestString(u.tail.tail, t.tail, rest);
        ShortEscapeForm(u.tail.head, t.head, more, u.tail.tail);
      } else {
        assert Len(u) == 2 + Len(u.tail.tail);
        ShortestUnicode(u.tail.tail, t, rest);
      }
    }
  }

  lemma {:induction false} ShortestUnicode(u: Text, t: Text, rest: Text)
    requires ReadString(Cons(BACKSLASH, Cons(0x75, u))) == StringRead(t, rest) && AllScalars(t)
    ensures Len(Escaped(t, rest)) <= 2 + Len(u)
    ensures Len(Escaped(t, rest)) == 2 + Len(u) && Lower(u, 4) && LowerEscapes(u) ==>
      Cons(BACKSLASH, Cons(0x75, u)) == Escaped(t, rest)
    decreases 1 + Len(u)
  {
    var first := ReadHex4(u);
    var more := Escaped(t.tail, rest);
    LenFour(u);
    if t.head == first.unit {
      ShortestString(first.rest, t.tail, rest);
      UnicodeEscapeForm(u, t.head, more);
      if LowerEscapes(u) { LowerPastHex(u); }
    } else {
      var second := ReadHex4(first.rest.tail.tail);
      LenFour(first.rest.tail.tail);
      assert Len(first.rest) == 2 + Len(first.rest.tail.tail);
      ShortestString(second.rest, t.tail, rest);
      LenEscapeChar(t.head, more);
      EscapeCharLen(t.head);
    }
  }

  lemma OneEscaped(c: int)
    ensures Len(Escaped(Cons(c, Nil), Nil)) == Len(EscapeChar(c, Nil)) + 1
  {
    var none: Text := Nil;
    var end := Cons(QUOTE, none);
    var one := Cons(c, none);
    assert Escaped(one.tail, none) == end;
    assert Len(end) == 1 + Len(none);
    LenEscapeChar(c, end);
  }

  /** A character is written in no more characters than in any text `u` of it and its closing quote. */
  lemma ShortestChar(c: int, u: Text)
    requires Scalar(c) && ReadString(u) == StringRead(Cons(c, Nil), Nil)
    ensures Len(EscapeChar(c, Nil)) + 1 <= Len(u)
  {
    var none: Text := Nil;
    assert AllScalars(none);
    OneEscaped(c);
    ShortestString(u, Cons(c, none), none);
  }

  /** `_string` writes the shortest text that a reader takes for the string, with lower-case escapes. */
  lemma StringForm(t: Text, u: Text)
    requires AllScalars(t) && ReadString(u) == StringRead(t, Nil)
    ensures var written := StringText(t);
            && written.Some? && written.value.Cons? && written.value.head == QUOTE
            && Len(written.value) <= 1 + Len(u)
            && (Len(written.value) == 1 + Len(u) && LowerEscapes(u) ==> written.value == Cons(QUOTE, u))
  {
    StringTextIs(t);
    ShortestString(u, t, Nil);
  }

  /** The text that is written has lower-case escapes itself. */
  lemma {:induction false} EscapedIsLower(t: Text, rest: Text)
    requires AllScalars(t)
    ensures LowerEscapes(Escaped(t, rest))
  {
    if t.Cons? {
      var more := Escaped(t.tail, rest);
      var e := EscapeChar(t.head, more);
      EscapedIsLower(t.tail, rest);
      if e.head == BACKSLASH && e.tail.head == 0x75 { LowerControl(t.head, more); }
    }
  }

  lemma LowerControl(c: int, more: Text)
    requires 0 <= c < 0x20 && LowerEscapes(more)
    ensures var digits := UnicodeEscape(c, more).tail.tail;
            Lower(digits, 4) && LowerEscapes(digits)
  {
    ControlDigits(c);
    var digits := UnicodeEscape(c, more).tail.tail;
    assert LowerEscapes(digits.tail.tail.tail) && LowerEscapes(digits.tail.tail);
    assert Lower(digits.tail.tail, 2) && Lower(digits.tail, 3);
  }

  // ----- No blanks between tokens

  /** No blank stands outside the strings of a text. */
  predicate NoBlanks(t: Text)
    decreases Len(t)
  {
    if t.Nil? then true
    else if t.head == QUOTE then ReadString(t.tail).StringRead? && NoBlanks(ReadString(t.tail).rest)
    else !IsBlank(t.head) && NoBlanks(t.tail)
  }

  /** A character of a number. */
  predicate NumberChar(c: int) { IsDigit(c) || c == MINUS || c == PLUS || c == POINT || c == EXP }

  predicate NumberChars(t: Text) { t.Cons? ==> NumberChar(t.head) && NumberChars(t.tail) }

  lemma {:induction false} NumberCharsCat(a: Text, b: Text)
    ensures NumberChars(Cat(a, b)) <==> NumberChars(a) && NumberChars(b)
  {
    if a.Cons? { NumberCharsCat(a.tail, b); }
  }

  lemma {:induction false} DigitsAreNumberChars(ds: Digits)
    ensures NumberChars(ds)
  {
    if ds.Cons? { DigitsAreNumberChars(ds.tail); }
  }

  lemma LayoutNumberChars(digits: Digits, exponent: int)
    requires digits.Cons?
    ensures NumberChars(Layout(digits, exponent))
  {
    var n := exponent + Len(digits);
    if Len(digits) <= n <= 21 {
      DigitsAreNumberChars(Cat(digits, Zeros(exponent)));
    } else if 0 < n <= 21 {
      DigitsAreNumberChars(Take(digits, n));
      DigitsAreNumberChars(Drop(digits, n));
      NumberCharsCat(Take(digits, n), Cons(POINT, Drop(digits, n)));
    } else if -6 < n <= 0 {
      DigitsAreNumberChars(Cat(Zeros(-n), digits));
      var fraction: Text := Cons(POINT, Cat(Zeros(-n), digits));
      assert NumberChars(fraction);
    } else {
      DigitsAreNumberChars(digits);
      var e := n - 1;
      DigitsAreNumberChars(NatDigits(if e >= 0 then e else -e));
      var sign := if e >= 0 then PLUS else MINUS;
      var power: Text := Cons(sign, NatDigits(if e >= 0 then e else -e));
      assert NumberChars(power);
      var fraction: Text := if digits.tail.Nil? then Nil else Cons(POINT, digits.tail);
      assert NumberChars(fraction);
      NumberCharsCat(Mantissa(digits), PowerText(e));
    }
  }

  lemma {:induction false} NoBlanksCat(a: Text, b: Text)
    requires NumberChars(a) && NoBlanks(b)
    ensures NoBlanks(Cat(a, b))
  {
    if a.Cons? { NoBlanksCat(a.tail, b); }
  }

  lemma NoBlanksWord(k: Token, rest: Text)
    requires (k.NullToken? || k.TrueToken? || k.FalseToken?) && NoBlanks(rest)
    ensures NoBlanks(TokenText(k, rest))
  {
    var t := TokenText(k, rest);
    if k.FalseToken? { assert NoBlanks(t.tail.tail.tail.tail); }
    assert NoBlanks(t.tail.tail.tail);
    assert NoBlanks(t.tail.tail);
    assert NoBlanks(t.tail);
  }

  lemma NoBlanksToken(k: Token, rest: Text)
    requires Printable(k) && NoBlanks(rest)
    ensures NoBlanks(TokenText(k, rest))
  {
    match k
    case StringToken(t) => ReadEscaped(t, rest);
    case NumberToken(d) =>
      if d.coefficient != 0 {
        NatDigitsValue(d.coefficient);
        LayoutNumberChars(NatDigits(d.coefficient), d.exponent);
      }
      NoBlanksCat(DecimalText(d), rest);
    case NullToken => NoBlanksWord(k, rest);
    case TrueToken => NoBlanksWord(k, rest);
    case FalseToken => NoBlanksWord(k, rest);
    case _ =>
  }

  lemma {:induction false} NoBlanksPrinted(ks: List<Token>)
    requires Separated(ks)
    ensures NoBlanks(Print(ks))
  {
    if ks.Cons? {
      NoBlanksPrinted(ks.tail);
      NoBlanksToken(ks.head, Print(ks.tail));
    }
  }

  /** The canonical bytes are UTF-8 of a text without a blank outside its strings. */
  lemma CanonicalHasNoBlanks(v: Value, floats: Floats)
    requires Accepted(v, floats)
    ensures var text := ReadUtf8(CanonicalBytes(v, floats)); text.Some? && NoBlanks(text.value)
  {
    var ks := Tokens(v, floats, Nil);
    TokensSeparated(v, floats, Nil);
    PrintedScalars(ks);
    ReadUtf8Of(Print(ks));
    NoBlanksPrinted(ks);
  }

  // ----- The form of a number

  predicate EndsNonzero(ds: Digits) { ds.Cons? && if ds.tail.Nil? then ds.head != ZERO else EndsNonzero(ds.tail) }

  /** Digits without a leading zero, and at most a point and digits that do not end in zero. */
  predicate PlainForm(t: Text) {
    var whole := SpanDigits(t);
    && whole.digits.Cons? && (whole.digits.head == ZERO ==> whole.digits.tail.Nil?)
    && (whole.rest.Nil? ||
        (StartsWith(whole.rest, POINT) && var fraction := SpanDigits(whole.rest.tail);
         EndsNonzero(fraction.digits) && fraction.rest.Nil?))
  }

  /** `e`, a sign, and digits without a leading zero. */
  predicate PowerForm(t: Text) {
    && StartsWith(t, 0x65) && (StartsWith(t.tail, PLUS) || StartsWith(t.tail, MINUS))
    && var power := SpanDigits(t.tail.tail);
       power.digits.Cons? && power.digits.head != ZERO && power.rest.Nil?
  }

  /** One digit that is not zero, at most a point and digits that do not end in zero, and a power. */
  predicate ScientificForm(t: Text) {
    var whole := SpanDigits(t);
    && whole.digits.Cons? && whole.digits.head != ZERO && whole.digits.tail.Nil?
    && (PowerForm(whole.rest) ||
        (StartsWith(whole.rest, POINT) && var fraction := SpanDigits(whole.rest.tail);
         EndsNonzero(fraction.digits) && PowerForm(fraction.rest)))
  }

  lemma {:induction false} StrippedEndsNonzero(ds: Digits)
    requires !AllZeros(ds)
    ensures EndsNonzero(RstripZeros(ds))
  {
    if !AllZeros(ds.tail) { StrippedEndsNonzero(ds.tail); }
  }

  lemma {:induction false} EndsNonzeroCat(a: Digits, b: Digits)
    requires EndsNonzero(b)
    ensures EndsNonzero(Cat(a, b))
  {
    if a.Cons? { EndsNonzeroCat(a.tail, b); }
  }

  lemma {:induction false} EndsNonzeroDrop(ds: Digits, n: nat)
    requires EndsNonzero(ds) && n < Len(ds)
    ensures EndsNonzero(Drop(ds, n))
  {
    if n > 0 { EndsNonzeroDrop(ds.tail, n - 1); }
  }

  lemma PowerTextForm(e: int)
    requires e != 0
    ensures PowerForm(PowerText(e))
  {
    var magnitude := if e >= 0 then e else -e;
    NatDigitsValue(magnitude);
    SpanAll(NatDigits(magnitude));
    assert PowerText(e).tail.tail == NatDigits(magnitude);
  }

  lemma SpanBefore(ds: Digits, c: int, rest: Text)
    requires !IsDigit(c)
    ensures SpanDigits(Cat(ds, Cons(c, rest))) == DigitRun(ds, Cons(c, rest))
  {
    SpanCat(ds, Cons(c, rest));
  }

  lemma SpanAll(ds: Digits)
    ensures SpanDigits(ds) == DigitRun(ds, Nil)
  {
    SpanCat(ds, Nil);
    CatNil(ds);
  }

  lemma MantissaForm(digits: Digits, e: int)
    requires EndsNonzero(digits) && digits.head != ZERO && e != 0
    ensures ScientificForm(Cat(Mantissa(digits), PowerText(e)))
  {
    var first: Digits := Cons(digits.head, Nil);
    var power := PowerText(e);
    PowerTextForm(e);
    if digits.tail.Nil? {
      SpanCat(first, power);
      assert Cat(Mantissa(digits), power) == Cat(first, power);
    } else {
      var rest := Cons(POINT, Cat(digits.tail, power));
      SpanCat(first, rest);
      SpanCat(digits.tail, power);
      assert Cat(Mantissa(digits), power) == Cons(digits.head, rest) == Cat(first, rest);
    }
  }

  lemma LayoutForms(digits: Digits, exponent: int)
    requires EndsNonzero(digits) && digits.head != ZERO
    ensures PlainForm(Layout(digits, exponent)) || ScientificForm(Layout(digits, exponent))
  {
    var n := exponent + Len(digits);
    if Len(digits) <= n <= 21 {
      SpanAll(Cat(digits, Zeros(exponent)));
    } else if 0 < n <= 21 {
      TakeDrop(digits, n);
      SpanBefore(Take(digits, n), POINT, Drop(digits, n));
      SpanAll(Drop(digits, n));
      EndsNonzeroDrop(digits, n);
    } else if -6 < n <= 0 {
      var zero: Digits := Cons(ZERO, Nil);
      var fraction := Cat(Zeros(-n), digits);
      SpanBefore(zero, POINT, fraction);
      assert Cat(zero, Cons(POINT, fraction)) == Layout(digits, exponent);
      SpanAll(fraction);
      EndsNonzeroCat(Zeros(-n), digits);
    } else {
      MantissaForm(digits, n - 1);
    }
  }

  /** Zero is "0". Every other number has a minus sign exactly when it is negative, and then one of two forms. */
  lemma NumberForm(r: Repr)
    ensures var t := NumberText(r);
            if DigitsValue(r.digits) == 0 then t == Cons(0x30, Nil)
            else
              && (StartsWith(t, MINUS) <==> r.neg)
              && var unsigned := if r.neg then t.tail else t; PlainForm(unsigned) || ScientificForm(unsigned)
  {
    NonzeroDigits(0, r.digits);
    if DigitsValue(r.digits) != 0 {
      var stripped := RstripZeros(r.digits);
      var exponent := r.exponent + Len(r.digits) - Len(stripped);
      StrippedShape(r.digits);
      StrippedEndsNonzero(r.digits);
      LayoutForms(stripped, exponent);
      LayoutStartsWithDigit(stripped, exponent);
    }
  }
}
