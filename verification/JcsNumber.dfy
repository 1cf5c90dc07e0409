/** The number text of RFC 8785, section 3.2.2.3 (`_number`), and a reader of JSON numbers. */
module JcsNumber {
  import opened Texts
  import opened PyValues

  const MINUS := 0x2D
  const PLUS := 0x2B
  const POINT := 0x2E
  const EXP := 0x65
  const UPPER_EXP := 0x45

  predicate AllZeros(ds: Digits) { ds.Cons? ==> ds.head == ZERO && AllZeros(ds.tail) }

  /** `digits.rstrip("0")`. */
  function RstripZeros(ds: Digits): Digits {
    if AllZeros(ds) then Nil else Cons(ds.head, RstripZeros(ds.tail))
  }

  function Take(ds: Digits, n: nat): Digits {
    if n == 0 || ds.Nil? then Nil else Cons(ds.head, Take(ds.tail, n - 1))
  }

  function Drop(ds: Digits, n: nat): Digits {
    if n == 0 || ds.Nil? then ds else Drop(ds.tail, n - 1)
  }

  function Mantissa(digits: Digits): Text
    requires digits.Cons?
  {
    Cons(digits.head, if digits.tail.Nil? then Nil else Cons(POINT, digits.tail))
  }

  function PowerText(e: int): Text {
    Cons(EXP, Cons(if e >= 0 then PLUS else MINUS, NatDigits(if e >= 0 then e else -e)))
  }

  /** The four layouts, for stripped digits and the exponent that goes with them. */
  function Layout(digits: Digits, exponent: int): Text
    requires digits.Cons?
  {
    var k := Len(digits);
    var n := exponent + k;
    if k <= n <= 21 then Cat(digits, Zeros(n - k))
    else if 0 < n <= 21 then Cat(Take(digits, n), Cons(POINT, Drop(digits, n)))
    else if -6 < n <= 0 then Cons(ZERO, Cons(POINT, Cat(Zeros(-n), digits)))
    else Cat(Mantissa(digits), PowerText(n - 1))
  }

  function WithSign(neg: bool, t: Text): Text { if neg then Cons(MINUS, t) else t }

  /** The text of a finite double; the sign of zero is dropped. */
  function NumberText(r: Repr): Text {
    if DigitsValue(r.digits) == 0 then Cons(ZERO, Nil) else
      var stripped := RstripZeros(r.digits);
      NonzeroDigits(0, r.digits);
      WithSign(r.neg, Layout(stripped, r.exponent + Len(r.digits) - Len(stripped)))
  }

  lemma {:induction false} NonzeroDigits(before: nat, ds: Digits)
    ensures Extend(before, ds) == 0 <==> before == 0 && AllZeros(ds)
    decreases ds
  {
    if ds.Cons? { NonzeroDigits(10 * before + (ds.head - ZERO), ds.tail); }
  }

  // ----- Reading a JSON number (section 6 of RFC 8259)

  datatype DigitRun = DigitRun(digits: Digits, rest: Text)

  /** The longest run of digits at the start of `t`, and what follows it. */
  function SpanDigits(t: Text): DigitRun {
    if t.Cons? && IsDigit(t.head) then
      var run := SpanDigits(t.tail);
      DigitRun(Cons(t.head, run.digits), run.rest)
    else DigitRun(Nil, t)
  }

  /** An optional fraction; a point without digits after it is left unread. */
  function ReadFraction(t: Text): DigitRun {
    if StartsWith(t, POINT) && SpanDigits(t.tail).digits.Cons? then SpanDigits(t.tail) else DigitRun(Nil, t)
  }

  datatype PowerRead = NoPower | PowerRead(exponent: int, rest: Text)

  /** An optional exponent: 0 when there is none. */
  function ReadPower(t: Text): PowerRead {
    if StartsWith(t, EXP) || StartsWith(t, UPPER_EXP) then
      var signed := StartsWith(t.tail, PLUS) || StartsWith(t.tail, MINUS);
      var run := SpanDigits(if signed then t.tail.tail else t.tail);
      if run.digits.Nil? then NoPower
      else
        var value := DigitsValue(run.digits);
        PowerRead(if StartsWith(t.tail, MINUS) then 0 - value else value, run.rest)
    else PowerRead(0, t)
  }

  datatype NumberRead = NoNumber | NumberRead(decimal: Decimal, rest: Text)

  function ReadUnsigned(neg: bool, t: Text): NumberRead {
    var whole := SpanDigits(t);
    var fraction := ReadFraction(whole.rest);
    var power := ReadPower(fraction.rest);
    if whole.digits.Nil? || (whole.digits.head == ZERO && whole.digits.tail.Cons?) || power.NoPower? then NoNumber
    else
      var digits := Extend(DigitsValue(whole.digits), fraction.digits);
      NumberRead(Decimal(neg, digits, power.exponent - Len(fraction.digits)), power.rest)
  }

  /** The JSON number at the start of `t`, as an exact decimal, and what follows it. */
  function ReadNumber(t: Text): NumberRead {
    if StartsWith(t, MINUS) then ReadUnsigned(true, t.tail) else ReadUnsigned(false, t)
  }

  lemma {:induction false} SpanDigitsLen(t: Text)
    ensures Len(SpanDigits(t).digits) + Len(SpanDigits(t).rest) == Len(t)
  {
    if t.Cons? && IsDigit(t.head) { SpanDigitsLen(t.tail); }
  }

  /** A number takes at least one character. */
  lemma ReadNumberShrinks(t: Text)
    ensures ReadNumber(t).NumberRead? ==> Len(ReadNumber(t).rest) < Len(t)
  {
    var start := if StartsWith(t, MINUS) then t.tail else t;
    var whole := SpanDigits(start);
    var fraction := ReadFraction(whole.rest);
    SpanDigitsLen(start);
    if StartsWith(whole.rest, POINT) { SpanDigitsLen(whole.rest.tail); }
    var r := fraction.rest;
    if r.Cons? {
      SpanDigitsLen(r.tail);
      if r.tail.Cons? { SpanDigitsLen(r.tail.tail); }
    }
  }

  // ----- The text denotes the decimal

  predicate NoDigit(rest: Text) { rest.Cons? ==> !IsDigit(rest.head) }

  /** A number followed by `rest` ends there. */
  predicate EndsNumber(rest: Text) {
    rest.Cons? ==> !IsDigit(rest.head) && rest.head != POINT && rest.head != EXP && rest.head != UPPER_EXP
  }

  lemma {:induction false} SpanCat(ds: Digits, rest: Text)
    requires NoDigit(rest)
    ensures SpanDigits(Cat(ds, rest)) == DigitRun(ds, rest)
  {
    if ds.Cons? { SpanCat(ds.tail, rest); }
  }

  lemma ReadPowerText(e: int, rest: Text)
    requires NoDigit(rest)
    ensures ReadPower(Cat(PowerText(e), rest)) == PowerRead(e, rest)
  {
    var magnitude := if e >= 0 then e else -e;
    SpanCat(NatDigits(magnitude), rest);
    NatDigitsValue(magnitude);
  }

  lemma {:induction false} TakeDrop(digits: Digits, n: nat)
    ensures Cat(Take(digits, n), Drop(digits, n)) == digits
    ensures n <= Len(digits) ==> Len(Take(digits, n)) == n
    ensures 0 < n && digits.Cons? ==> Take(digits, n).Cons? && Take(digits, n).head == digits.head
  {
    if n > 0 && digits.Cons? { TakeDrop(digits.tail, n - 1); }
  }

  function AfterWhole(fraction: Digits, tail: Text): Text {
    if fraction.Nil? then tail else Cons(POINT, Cat(fraction, tail))
  }

  /** What the reader makes of the digits before and after the point, and of the exponent after them. */
  lemma PartsRead(neg: bool, whole: Digits, fraction: Digits, tail: Text, e: int, rest: Text)
    requires whole.Cons? && (whole.head != ZERO || whole.tail.Nil?)
    requires NoDigit(tail) && !StartsWith(tail, POINT) && ReadPower(tail) == PowerRead(e, rest)
    ensures ReadUnsigned(neg, Cat(whole, AfterWhole(fraction, tail)))
         == NumberRead(Decimal(neg, Extend(DigitsValue(whole), fraction), e - Len(fraction)), rest)
  {
    var after := AfterWhole(fraction, tail);
    SpanCat(whole, after);
    if fraction.Cons? { SpanCat(fraction, tail); }
  }

  /** Digits, a point and digits, read back. */
  lemma PointReads(neg: bool, whole: Digits, fraction: Digits, rest: Text)
    requires whole.Cons? && (whole.head != ZERO || whole.tail.Nil?) && fraction.Cons? && EndsNumber(rest)
    ensures ReadUnsigned(neg, Cat(Cat(whole, Cons(POINT, fraction)), rest))
         == NumberRead(Decimal(neg, DigitsValue(Cat(whole, fraction)), 0 - Len(fraction)), rest)
  {
    CatAssoc(whole, Cons(POINT, fraction), rest);
    PartsRead(neg, whole, fraction, rest, 0, rest);
    ExtendCat(0, whole, fraction);
  }

  lemma ScientificReads(neg: bool, digits: Digits, e: int, rest: Text)
    requires digits.Cons? && digits.head != ZERO && EndsNumber(rest)
    ensures ReadUnsigned(neg, Cat(Cat(Mantissa(digits), PowerText(e)), rest))
         == NumberRead(Decimal(neg, DigitsValue(digits), e - Len(digits.tail)), rest)
  {
    var first: Digits := Cons(digits.head, Nil);
    CatAssoc(Mantissa(digits), PowerText(e), rest);
    ReadPowerText(e, rest);
    PartsRead(neg, first, digits.tail, Cat(PowerText(e), rest), e, rest);
    assert Cat(first, digits.tail) == digits;
    ExtendCat(0, first, digits.tail);
  }

  lemma IntegerReads(neg: bool, digits: Digits, zeros: nat, rest: Text)
    requires digits.Cons? && digits.head != ZERO && EndsNumber(rest)
    ensures ReadUnsigned(neg, Cat(Cat(digits, Zeros(zeros)), rest))
         == NumberRead(Decimal(neg, ScaleUp(DigitsValue(digits), zeros), 0), rest)
  {
    PartsRead(neg, Cat(digits, Zeros(zeros)), Nil, rest, 0, rest);
    ExtendCat(0, digits, Zeros(zeros));
    ExtendZeros(DigitsValue(digits), zeros);
  }

  lemma SmallReads(neg: bool, digits: Digits, zeros: nat, rest: Text)
    requires digits.Cons? && EndsNumber(rest)
    ensures ReadUnsigned(neg, Cat(Cons(ZERO, Cons(POINT, Cat(Zeros(zeros), digits))), rest))
         == NumberRead(Decimal(neg, DigitsValue(digits), 0 - (zeros + Len(digits))), rest)
  {
    var first: Digits := Cons(ZERO, Nil);
    var fraction := Cat(Zeros(zeros), digits);
    LeadingZeros(zeros, digits);
    PointReads(neg, first, fraction, rest);
  }

  lemma LeadingZeros(zeros: nat, digits: Digits)
    ensures DigitsValue(Cons(ZERO, Cat(Zeros(zeros), digits))) == DigitsValue(digits)
    ensures Len(Cat(Zeros(zeros), digits)) == zeros + Len(digits)
  {
    LenCat(Zeros(zeros), digits);
    LenZeros(zeros);
    ExtendCat(0, Zeros(zeros), digits);
    ExtendZeros(0, zeros);
    ScaleZero(zeros);
  }

  /** The layout of `digits` and `exponent`, read back, is digits * 10^exponent. */
  lemma LayoutReads(neg: bool, digits: Digits, exponent: int, rest: Text)
    requires digits.Cons? && digits.head != ZERO && EndsNumber(rest)
    ensures var read := ReadUnsigned(neg, Cat(Layout(digits, exponent), rest));
            && read.NumberRead? && read.rest == rest
            && Normal(read.decimal) == Normal(Decimal(neg, DigitsValue(digits), exponent))
  {
    var k := Len(digits);
    var n := exponent + k;
    if k <= n <= 21 {
      IntegerReads(neg, digits, exponent, rest);
      NormalScaled(neg, DigitsValue(digits), 0, exponent);
    } else if 0 < n <= 21 {
      TakeDrop(digits, n);
      LenCat(Take(digits, n), Drop(digits, n));
      PointReads(neg, Take(digits, n), Drop(digits, n), rest);
    } else if -6 < n <= 0 {
      SmallReads(neg, digits, -n, rest);
    } else {
      ScientificReads(neg, digits, n - 1, rest);
    }
  }

  lemma {:induction false} ScaleZero(k: nat)
    ensures ScaleUp(0, k) == 0
  {
    if k > 0 { ScaleZero(k - 1); }
  }

  lemma {:induction false} StrippedShape(ds: Digits)
    requires !AllZeros(ds)
    ensures RstripZeros(ds).Cons? && RstripZeros(ds).head == ds.head && Len(RstripZeros(ds)) <= Len(ds)
  {
    if AllZeros(ds.tail) { assert RstripZeros(ds.tail) == Nil; } else { StrippedShape(ds.tail); }
  }

  lemma {:induction false} StrippedDigits(before: nat, ds: Digits)
    requires !AllZeros(ds)
    ensures Len(RstripZeros(ds)) <= Len(ds)
    ensures Extend(before, ds) == ScaleUp(Extend(before, RstripZeros(ds)), Len(ds) - Len(RstripZeros(ds)))
    ensures Extend(before, RstripZeros(ds)) % 10 != 0
    decreases ds
  {
    StrippedShape(ds);
    var next := 10 * before + (ds.head - ZERO);
    var stripped := RstripZeros(ds.tail);
    assert RstripZeros(ds) == Cons(ds.head, stripped);
    assert Extend(before, RstripZeros(ds)) == Extend(next, stripped);
    if AllZeros(ds.tail) {
      LastDigit(before, ds.head - ZERO);
      ExtendAllZeros(next, ds.tail);
    } else {
      StrippedDigits(next, ds.tail);
    }
  }

  lemma LastDigit(before: nat, last: nat)
    requires 0 < last < 10
    ensures (10 * before + last) % 10 != 0
  {}

  lemma {:induction false} ExtendAllZeros(before: nat, ds: Digits)
    requires AllZeros(ds)
    ensures Extend(before, ds) == ScaleUp(before, Len(ds))
    decreases ds
  {
    if ds.Cons? { ExtendAllZeros(10 * before, ds.tail); }
  }

  /** The text of a normal decimal: what `NumberText` prints for every double with that value. */
  function DecimalText(d: Decimal): Text
    requires IsNormal(d)
  {
    NatDigitsValue(d.coefficient);
    if d.coefficient == 0 then Cons(ZERO, Nil)
    else WithSign(d.neg, Layout(NatDigits(d.coefficient), d.exponent))
  }

  /** The text depends on the decimal value only: trailing zeros may move between digits and exponent. */
  lemma NumberTextOfValue(r: Repr)
    ensures NumberText(r) == DecimalText(Normal(ReprValue(r)))
  {
    NonzeroDigits(0, r.digits);
    if DigitsValue(r.digits) != 0 {
      var stripped := RstripZeros(r.digits);
      var zeros := Len(r.digits) - Len(stripped);
      StrippedShape(r.digits);
      StrippedDigits(0, r.digits);
      NormalScaled(r.neg, DigitsValue(stripped), r.exponent, zeros);
      NormalOfNormal(Decimal(r.neg, DigitsValue(stripped), r.exponent + zeros));
      DigitsUnique(stripped);
    }
  }

  lemma {:induction false} LayoutStartsWithDigit(digits: Digits, exponent: int)
    requires digits.Cons?
    ensures Layout(digits, exponent).Cons? && IsDigit(Layout(digits, exponent).head)
  {}

  lemma DecimalTextReads(d: Decimal, rest: Text)
    requires IsNormal(d) && EndsNumber(rest)
    ensures var read := ReadNumber(Cat(DecimalText(d), rest));
            read.NumberRead? && read.rest == rest && Normal(read.decimal) == d
  {
    if d.coefficient == 0 {
      SpanCat(Cons(ZERO, Nil), rest);
    } else {
      NatDigitsValue(d.coefficient);
      LayoutStartsWithDigit(NatDigits(d.coefficient), d.exponent);
      LayoutReads(d.neg, NatDigits(d.coefficient), d.exponent, rest);
      NormalOfNormal(d);
    }
  }

  // ----- Main results

  /** The number text is a legal JSON number that denotes exactly digits * 10^exponent. */
  lemma NumberTextReads(r: Repr)
    ensures var read := ReadNumber(NumberText(r));
            read.NumberRead? && read.rest == Nil && SameValue(read.decimal, ReprValue(r))
  {
    var d := Normal(ReprValue(r));
    NumberTextOfValue(r);
    DecimalTextReads(d, Nil);
    CatNil(DecimalText(d));
    SameValueIffNormal(ReadNumber(NumberText(r)).decimal, ReprValue(r));
  }

  /** Two doubles have the same text exactly when they have the same decimal value. */
  lemma NumberTextInjective(a: Repr, b: Repr)
    ensures NumberText(a) == NumberText(b) <==> SameValue(ReprValue(a), ReprValue(b))
  {
    NumberTextOfValue(a);
    NumberTextOfValue(b);
    SameValueIffNormal(ReprValue(a), ReprValue(b));
    NumberTextReads(a);
    NumberTextReads(b);
    SameValueIffNormal(ReadNumber(NumberText(a)).decimal, ReprValue(a));
    SameValueIffNormal(ReadNumber(NumberText(b)).decimal, ReprValue(b));
  }

  /** |d| >= 10^p. */
  predicate AtLeastPow10(d: Decimal, p: int) {
    var m := Min(d.exponent, p);
    Scaled(d, m) >= ScaleUp(1, p - m)
  }

  lemma ValueBounds(ds: Digits)
    requires ds.Cons? && ds.head != ZERO
    ensures ScaleUp(1, Len(ds) - 1) <= DigitsValue(ds) < ScaleUp(1, Len(ds))
  {
    var k, first := Len(ds), ds.head - ZERO;
    ExtendBounds(first, ds.tail);
    ScaleUpMonotone(1, first, k - 1);
    ScaleUpMonotone(first + 1, 10, k - 1);
  }

  lemma Magnitude(neg: bool, v: nat, exponent: int, k: nat, p: int)
    requires k > 0 && ScaleUp(1, k - 1) <= v < ScaleUp(1, k)
    ensures AtLeastPow10(Decimal(neg, v, exponent), p) <==> p < exponent + k
  {
    if exponent <= p {
      if p - exponent < k { ScaleUpOrdered(p - exponent, k - 1); } else { ScaleUpOrdered(k, p - exponent); }
    } else {
      ScaleUpOrdered(0, k - 1);
      ScaleUpGrows(v, exponent - p);
    }
  }

  lemma ScaleUpOrdered(a: nat, b: nat)
    requires a <= b
    ensures ScaleUp(1, a) <= ScaleUp(1, b)
  {
    ScaleUpAdd(1, a, b - a);
    ScaleUpGrows(ScaleUp(1, a), b - a);
  }

  predicate Contains(t: Text, c: int) { t.Cons? && (t.head == c || Contains(t.tail, c)) }

  lemma {:induction false} ContainsCat(a: Text, b: Text, c: int)
    ensures Contains(Cat(a, b), c) <==> Contains(a, c) || Contains(b, c)
  {
    if a.Cons? { ContainsCat(a.tail, b, c); }
  }

  lemma {:induction false} DigitsHaveNoExp(ds: Digits)
    ensures !Contains(ds, EXP)
  {
    if ds.Cons? { DigitsHaveNoExp(ds.tail); }
  }

  /** An exponent is written exactly for magnitudes outside [10^-6, 10^21). */
  lemma ExponentForm(r: Repr)
    requires DigitsValue(r.digits) != 0
    ensures Contains(NumberText(r), EXP) <==> AtLeastPow10(ReprValue(r), 21) || !AtLeastPow10(ReprValue(r), -6)
  {
    NonzeroDigits(0, r.digits);
    ValueBounds(r.digits);
    Magnitude(r.neg, DigitsValue(r.digits), r.exponent, Len(r.digits), 21);
    Magnitude(r.neg, DigitsValue(r.digits), r.exponent, Len(r.digits), -6);
    StrippedShape(r.digits);
    var digits := RstripZeros(r.digits);
    LayoutForm(digits, r.exponent + Len(r.digits) - Len(digits));
  }

  lemma LayoutForm(digits: Digits, exponent: int)
    requires digits.Cons?
    ensures Contains(Layout(digits, exponent), EXP) <==> !(-6 < exponent + Len(digits) <= 21)
  {
    var n := exponent + Len(digits);
    if Len(digits) <= n <= 21 {
      DigitsHaveNoExp(Cat(digits, Zeros(exponent)));
    } else if 0 < n <= 21 {
      ContainsCat(Take(digits, n), Cons(POINT, Drop(digits, n)), EXP);
      DigitsHaveNoExp(Take(digits, n));
      DigitsHaveNoExp(Drop(digits, n));
    } else if -6 < n <= 0 {
      DigitsHaveNoExp(Cat(Zeros(-n), digits));
      var fraction: Text := Cons(POINT, Cat(Zeros(-n), digits));
      assert !Contains(fraction, EXP);
    } else {
      ContainsCat(Mantissa(digits), PowerText(n - 1), EXP);
    }
  }
}
