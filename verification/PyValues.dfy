/** The Python values the modelled code works on. */
module PyValues {
  import opened Texts

  /** The digits and exponent of `Decimal(repr(abs(value)))` for a finite double: the number they
      write is digits * 10^exponent, and no digit is a leading zero unless the value is zero. */
  datatype RawRepr = Repr(neg: bool, digits: Digits, exponent: int)
  type Repr = r: RawRepr | r.digits.Cons? && (r.digits.head != ZERO || r.digits.tail.Nil?)
    witness Repr(false, Cons(ZERO, Nil), 0)

  datatype Double = NaN | Infinite(neg: bool) | Finite(repr: Repr)

  function ReprValue(r: Repr): Decimal { Decimal(r.neg, DigitsValue(r.digits), r.exponent) }

  /** Keys of a dict: strings, or any other hashable value. */
  datatype Key = TextKey(text: Text) | OtherKey(id: nat)

  /** A dict is its members in insertion order. */
  datatype Value =
    | Null
    | Bool(b: bool)
    | Int(n: int)
    | Float(d: Double)
    | Str(text: Text)
    | List(items: seq<Value>)
    | Tuple(items: seq<Value>)
    | Dict(members: seq<(Key, Value)>)
    | Other(id: nat)

  predicate DistinctKeys<K(==), V>(members: seq<(K, V)>) {
    forall i, j :: 0 <= i < j < |members| ==> members[i].0 != members[j].0
  }

  /** The keys of every dict inside `v` are distinct, as Python guarantees. */
  predicate ProperDicts(v: Value) {
    match v
    case List(items) => forall x <- items :: ProperDicts(x)
    case Tuple(items) => forall x <- items :: ProperDicts(x)
    case Dict(members) => DistinctKeys(members) && forall m <- members :: ProperDicts(m.1)
    case _ => true
  }
}
