/** Texts as lists of characters, digits, and exact decimal numbers. */
module Texts {

  datatype Option<+T> = None | Some(value: T)

  datatype List<+T> = Nil | Cons(head: T, tail: List<T>)

  /** A text: its characters as Unicode code points, surrogates included, as in a Python `str`. */
  type Text = List<int>

  type Bytes = List<int>

  function Cat<T>(a: List<T>, b: List<T>): List<T> {
    match a
    case Nil => b
    case Cons(x, rest) => Cons(x, Cat(rest, b))
  }

  function Len<T>(a: List<T>): nat {
    match a
    case Nil => 0
    case Cons(_, rest) => 1 + Len(rest)
  }

  lemma {:induction false} CatAssoc<T>(a: List<T>, b: List<T>, c: List<T>)
    ensures Cat(Cat(a, b), c) == Cat(a, Cat(b, c))
  {
    if a.Cons? { CatAssoc(a.tail, b, c); }
  }

  /** Four elements in front of a concatenation. */
  lemma FourCat<T>(t: List<T>, rest: List<T>)
    requires t.Cons? && t.tail.Cons? && t.tail.tail.Cons? && t.tail.tail.tail.Cons?
    ensures Cat(t, rest) == Cons(t.head, Cons(t.tail.head, Cons(t.tail.tail.head, Cons(t.tail.tail.tail.head,
      Cat(t.tail.tail.tail.tail, rest)))))
  {
    assert Cat(t.tail.tail, rest)
      == Cons(t.tail.tail.head, Cons(t.tail.tail.tail.head, Cat(t.tail.tail.tail.tail, rest)));
  }

  lemma {:induction false} CatNil<T>(a: List<T>)
    ensures Cat(a, Nil) == a
  {
    if a.Cons? { CatNil(a.tail); }
  }

  lemma {:induction false} LenCat<T>(a: List<T>, b: List<T>)
    ensures Len(Cat(a, b)) == Len(a) + Len(b)
  {
    if a.Cons? { LenCat(a.tail, b); }
  }

  lemma {:induction false} CatInjective<T>(a: List<T>, b: List<T>, c: List<T>)
    requires Cat(a, b) == Cat(a, c)
    ensures b == c
  {
    if a.Cons? { CatInjective(a.tail, b, c); }
  }

  /** A literal as a text. */
  function Ascii(s: string): Text {
    if s == "" then Nil else Cons(s[0] as int, Ascii(s[1..]))
  }

  predicate StartsWith(t: Text, c: int) { t.Cons? && t.head == c }

  // ----- Digits

  const ZERO := 0x30
  const NINE := 0x39

  predicate IsDigit(c: int) { ZERO <= c <= NINE }

  type Digit = d: int | IsDigit(d) witness ZERO
  type Digits = List<Digit>

  /** c * 10^k. */
  function ScaleUp(c: nat, k: nat): nat
    decreases k
  {
    if k == 0 then c else ScaleUp(10 * c, k - 1)
  }

  lemma {:induction false} ScaleUpAdd(c: nat, k: nat, l: nat)
    ensures ScaleUp(ScaleUp(c, k), l) == ScaleUp(c, k + l)
    decreases k
  {
    if k > 0 { ScaleUpAdd(10 * c, k - 1, l); }
  }

  lemma {:induction false} ScaleUpMonotone(a: nat, b: nat, k: nat)
    requires a <= b
    ensures ScaleUp(a, k) <= ScaleUp(b, k)
    ensures a < b ==> ScaleUp(a, k) < ScaleUp(b, k)
    decreases k
  {
    if k > 0 { ScaleUpMonotone(10 * a, 10 * b, k - 1); }
  }

  lemma {:induction false} ScaleUpGrows(c: nat, k: nat)
    ensures ScaleUp(c, k) >= c
    decreases k
  {
    if k > 0 { ScaleUpGrows(10 * c, k - 1); }
  }

  /** The number written by the digits `ds` after digits that write `before`. */
  function Extend(before: nat, ds: Digits): nat
    decreases ds
  {
    match ds
    case Nil => before
    case Cons(d, rest) => Extend(10 * before + (d - ZERO), rest)
  }

  function DigitsValue(ds: Digits): nat { Extend(0, ds) }

  lemma {:induction false} ExtendCat(before: nat, a: Digits, b: Digits)
    ensures Extend(before, Cat(a, b)) == Extend(Extend(before, a), b)
    decreases a
  {
    if a.Cons? { ExtendCat(10 * before + (a.head - ZERO), a.tail, b); }
  }

  lemma {:induction false} ExtendBounds(before: nat, ds: Digits)
    ensures ScaleUp(before, Len(ds)) <= Extend(before, ds) < ScaleUp(before + 1, Len(ds))
    decreases ds
  {
    if ds.Cons? {
      var next := 10 * before + (ds.head - ZERO);
      ExtendBounds(next, ds.tail);
      assert Len(ds) == Len(ds.tail) + 1;
      ScaleUpMonotone(10 * before, next, Len(ds.tail));
      ScaleUpMonotone(next + 1, 10 * (before + 1), Len(ds.tail));
    }
  }

  function Zeros(n: nat): Digits { if n == 0 then Nil else Cons(ZERO, Zeros(n - 1)) }

  lemma {:induction false} ExtendZeros(before: nat, n: nat)
    ensures Extend(before, Zeros(n)) == ScaleUp(before, n)
    decreases n
  {
    if n > 0 { ExtendZeros(10 * before, n - 1); }
  }

  lemma {:induction false} LenZeros(n: nat)
    ensures Len(Zeros(n)) == n
  {
    if n > 0 { LenZeros(n - 1); }
  }

  /** The digits of `n`, without leading zeros, and then `rest`. */
  function NatDigitsOnto(n: nat, rest: Digits): Digits {
    if n < 10 then Cons(ZERO + n, rest) else NatDigitsOnto(n / 10, Cons(ZERO + n % 10, rest))
  }

  /** `str(n)` of a natural number. */
  function NatDigits(n: nat): Digits { NatDigitsOnto(n, Nil) }

  lemma {:induction false} NatDigitsOntoValue(n: nat, rest: Digits)
    ensures Extend(0, NatDigitsOnto(n, rest)) == Extend(n, rest)
    ensures NatDigitsOnto(n, rest).Cons?
    ensures n > 0 ==> NatDigitsOnto(n, rest).head != ZERO
    ensures Len(NatDigitsOnto(n, rest)) > Len(rest)
    decreases n
  {
    if n >= 10 { NatDigitsOntoValue(n / 10, Cons(ZERO + n % 10, rest)); }
  }

  lemma NatDigitsValue(n: nat)
    ensures DigitsValue(NatDigits(n)) == n
    ensures NatDigits(n).Cons?
    ensures n > 0 ==> NatDigits(n).head != ZERO
    ensures n == 0 ==> NatDigits(n) == Cons(ZERO, Nil)
  {
    NatDigitsOntoValue(n, Nil);
  }

  lemma {:induction false} NatDigitsOntoExtend(n: nat, ds: Digits, rest: Digits)
    requires n > 0
    ensures NatDigitsOnto(Extend(n, ds), rest) == NatDigitsOnto(n, Cat(ds, rest))
    decreases ds
  {
    if ds.Cons? {
      var next := 10 * n + (ds.head - ZERO);
      NatDigitsOntoExtend(next, ds.tail, rest);
      assert next / 10 == n && next % 10 == ds.head - ZERO;
    }
  }

  /** Digits without a leading zero are the digits of their value: a number has one decimal text. */
  lemma DigitsUnique(ds: Digits)
    requires ds.Cons? && (ds.head != ZERO || ds.tail.Nil?)
    ensures NatDigits(DigitsValue(ds)) == ds
  {
    if ds.head != ZERO {
      NatDigitsOntoExtend(ds.head - ZERO, ds.tail, Nil);
      CatNil(ds.tail);
    }
  }

  lemma NatDigitsInjective(a: nat, b: nat)
    requires NatDigits(a) == NatDigits(b)
    ensures a == b
  {
    NatDigitsValue(a);
    NatDigitsValue(b);
  }

  // ----- Exact decimal numbers

  /** (-1)^neg * coefficient * 10^exponent. */
  datatype Decimal = Decimal(neg: bool, coefficient: nat, exponent: int)

  function Min(a: int, b: int): int { if a <= b then a else b }

  /** The coefficient of `d` when it is written with the exponent `m`. */
  function Scaled(d: Decimal, m: int): nat
    requires m <= d.exponent
  {
    ScaleUp(d.coefficient, d.exponent - m)
  }

  /** Equality of decimal numbers by value: both are brought to the smaller exponent. */
  predicate SameValue(a: Decimal, b: Decimal) {
    if a.coefficient == 0 || b.coefficient == 0 then a.coefficient == b.coefficient
    else
      var m := Min(a.exponent, b.exponent);
      a.neg == b.neg && Scaled(a, m) == Scaled(b, m)
  }

  predicate IsNormal(d: Decimal) {
    if d.coefficient == 0 then d == Decimal(false, 0, 0) else d.coefficient % 10 != 0
  }

  /** The representative of `d` without trailing zeros; zero has no sign. */
  function Normal(d: Decimal): (r: Decimal)
    ensures IsNormal(r)
    decreases d.coefficient
  {
    if d.coefficient == 0 then Decimal(false, 0, 0)
    else if d.coefficient % 10 == 0 then Normal(Decimal(d.neg, d.coefficient / 10, d.exponent + 1))
    else d
  }

  lemma NormalOfNormal(d: Decimal)
    requires IsNormal(d)
    ensures Normal(d) == d
  {}

  lemma NormalShift(neg: bool, low: nat, e: int)
    ensures Normal(Decimal(neg, 10 * low, e)) == Normal(Decimal(neg, low, e + 1))
  {}

  /** Scaling the coefficient up, and the exponent down, keeps the normal form. */
  lemma {:induction false} NormalScaled(neg: bool, c: nat, e: int, k: nat)
    ensures Normal(Decimal(neg, ScaleUp(c, k), e)) == Normal(Decimal(neg, c, e + k))
    decreases k
  {
    if k > 0 {
      NormalScaled(neg, 10 * c, e, k - 1);
      NormalShift(neg, c, e + k - 1);
    }
  }

  lemma {:induction false} NormalKeepsValue(d: Decimal) returns (k: nat)
    requires d.coefficient != 0
    ensures Normal(d).neg == d.neg && Normal(d).exponent == d.exponent + k && Normal(d).coefficient != 0
    ensures d.coefficient == ScaleUp(Normal(d).coefficient, k)
    decreases d.coefficient
  {
    if d.coefficient % 10 == 0 {
      k := NormalKeepsValue(Decimal(d.neg, d.coefficient / 10, d.exponent + 1));
      ScaleUpAdd(Normal(d).coefficient, k, 1);
      k := k + 1;
    } else {
      k := 0;
    }
  }

  lemma ScaledIfNormal(a: Decimal, b: Decimal, m: int)
    requires m <= a.exponent && m <= b.exponent && a.coefficient != 0 && b.coefficient != 0
    requires Normal(a) == Normal(b)
    ensures a.neg == b.neg && Scaled(a, m) == Scaled(b, m)
  {
    var k := NormalKeepsValue(a);
    var l := NormalKeepsValue(b);
    ScaleUpAdd(Normal(a).coefficient, k, a.exponent - m);
    ScaleUpAdd(Normal(b).coefficient, l, b.exponent - m);
    assert k + (a.exponent - m) == l + (b.exponent - m);
  }

  /** Two decimals have the same value exactly when they have the same normal form. */
  lemma SameValueIffNormal(a: Decimal, b: Decimal)
    ensures SameValue(a, b) <==> Normal(a) == Normal(b)
  {
    if a.coefficient == 0 || b.coefficient == 0 {
      if a.coefficient != 0 { var k := NormalKeepsValue(a); }
      if b.coefficient != 0 { var l := NormalKeepsValue(b); }
    } else {
      var m := Min(a.exponent, b.exponent);
      NormalScaled(a.neg, a.coefficient, m, a.exponent - m);
      NormalScaled(b.neg, b.coefficient, m, b.exponent - m);
      if Normal(a) == Normal(b) { ScaledIfNormal(a, b, m); }
    }
  }
}
