/** The printer of RFC 8785 (`canonicalize`, `_write`), and what its output means to a JSON reader. */
module Jcs {
  import opened Sequences
  import opened Texts
  import opened PyValues
  import opened JcsNumber
  import opened JcsString
  import opened JsonReader

  datatype Failure = TypeError | ValueError
  datatype Outcome<+T> = Ok(value: T) | Raise(failure: Failure)

  /** What `float(n)` and the comparison `int(double) == n` find for an integer. */
  datatype IntDouble = Exact(repr: Repr) | Inexact | OutOfRange
  type Floats = int -> IntDouble

  // ----- Which values are accepted

  /** The declared domain: JSON values, with string keys, no unpaired surrogate, finite numbers, and
      integers that a double holds exactly. */
  predicate Accepted(v: Value, floats: Floats) {
    match v
    case Null => true
    case Bool(_) => true
    case Int(n) => floats(n).Exact?
    case Float(d) => d.Finite?
    case Str(text) => AllScalars(text)
    case List(items) => forall i :: 0 <= i < |items| ==> Accepted(items[i], floats)
    case Tuple(items) => forall i :: 0 <= i < |items| ==> Accepted(items[i], floats)
    case Dict(members) =>
      forall i :: 0 <= i < |members| ==>
        members[i].0.TextKey? && AllScalars(members[i].0.text) && Accepted(members[i].1, floats)
    case Other(_) => false
  }

  // ----- Sorted members

  type Members = seq<(Text, Value)>

  predicate TextKeys(members: seq<(Key, Value)>) { forall i :: 0 <= i < |members| ==> members[i].0.TextKey? }

  /** The members of a dict whose keys are all strings. */
  function TextMembers(members: seq<(Key, Value)>): (r: Members)
    requires TextKeys(members)
    ensures |r| == |members|
    ensures forall i :: 0 <= i < |r| ==> r[i] == (members[i].0.text, members[i].1)
  {
    if members == [] then [] else [(members[0].0.text, members[0].1)] + TextMembers(members[1..])
  }

  predicate KeyLe(a: Text, b: Text) { LexLe(Utf16Key(a), Utf16Key(b)) }

  predicate MemberLe(a: (Text, Value), b: (Text, Value)) { KeyLe(a.0, b.0) }

  /** `sorted(value, key=_utf16_units)`, with the members' values. */
  function SortedMembers(ms: Members): Members { Sorted(ms, MemberLe) }

  /** Strictly increasing by the sort key. */
  predicate Increasing(ms: Members) {
    forall i, j :: 0 <= i < j < |ms| ==> KeyLe(ms[i].0, ms[j].0) && ms[i].0 != ms[j].0
  }

  lemma MemberOrder()
    ensures IsOrder(MemberLe)
  {
    forall a: (Text, Value), b: (Text, Value) ensures MemberLe(a, b) || MemberLe(b, a) {
      LexTotal(Utf16Key(a.0), Utf16Key(b.0));
    }
    forall a: (Text, Value), b: (Text, Value), c: (Text, Value) | MemberLe(a, b) && MemberLe(b, c)
      ensures MemberLe(a, c)
    {
      LexTransitive(Utf16Key(a.0), Utf16Key(b.0), Utf16Key(c.0));
    }
  }

  lemma {:induction false} InsertDistinct(m: (Text, Value), sorted: Members)
    requires DistinctKeys(sorted) && forall x <- sorted :: x.0 != m.0
    ensures DistinctKeys(Insert(m, sorted, MemberLe))
  {
    if sorted != [] && !MemberLe(m, sorted[0]) {
      var rest := Insert(m, sorted[1..], MemberLe);
      InsertDistinct(m, sorted[1..]);
      forall j | 0 <= j < |rest| ensures sorted[0].0 != rest[j].0 { InsertHas(m, sorted[1..], MemberLe, rest[j]); }
    }
  }

  lemma {:induction false} SortedDistinct(ms: Members)
    requires DistinctKeys(ms)
    ensures DistinctKeys(SortedMembers(ms))
  {
    if ms != [] {
      SortedDistinct(ms[1..]);
      forall x | x in SortedMembers(ms[1..]) ensures x.0 != ms[0].0 { SortedHas(ms[1..], MemberLe, x); }
      InsertDistinct(ms[0], SortedMembers(ms[1..]));
    }
  }

  lemma SortedIncreasing(ms: Members)
    requires DistinctKeys(ms)
    ensures Increasing(SortedMembers(ms))
  {
    MemberOrder();
    SortedOrdered(ms, MemberLe);
    SortedDistinct(ms);
    var s := SortedMembers(ms);
    forall i, j | 0 <= i < j < |s| ensures KeyLe(s[i].0, s[j].0) { assert MemberLe(s[i], s[j]); }
  }

  // ----- The text of tokens

  predicate Printable(k: Token) {
    match k
    case StringToken(t) => AllScalars(t)
    case NumberToken(d) => IsNormal(d)
    case _ => true
  }

  /** The text of a token, and then `rest`. */
  function TokenText(k: Token, rest: Text): Text
    requires Printable(k)
  {
    match k
    case NullToken => Cons(0x6E, Cons(0x75, Cons(0x6C, Cons(0x6C, rest))))
    case TrueToken => Cons(0x74, Cons(0x72, Cons(0x75, Cons(0x65, rest))))
    case FalseToken => Cons(0x66, Cons(0x61, Cons(0x6C, Cons(0x73, Cons(0x65, rest)))))
    case StringToken(t) => Cons(QUOTE, Escaped(t, rest))
    case NumberToken(d) => Cat(DecimalText(d), rest)
    case OpenArray => Cons(0x5B, rest)
    case CloseArray => Cons(0x5D, rest)
    case OpenObject => Cons(0x7B, rest)
    case CloseObject => Cons(0x7D, rest)
    case Comma => Cons(0x2C, rest)
    case Colon => Cons(0x3A, rest)
  }

  /** Every token can be printed, and a number is followed by punctuation or nothing. */
  predicate Separated(ks: List<Token>) {
    ks.Cons? ==>
      && Printable(ks.head)
      && (ks.head.NumberToken? && ks.tail.Cons?
        ==> ks.tail.head.CloseArray? || ks.tail.head.CloseObject? || ks.tail.head.Comma?)
      && Separated(ks.tail)
  }

  function Print(ks: List<Token>): Text
    requires Separated(ks)
  {
    if ks.Nil? then Nil else TokenText(ks.head, Print(ks.tail))
  }

  // ----- The tokens of a value

  ghost predicate AllBelow(items: seq<Value>, v: Value) { forall i :: 0 <= i < |items| ==> items[i] < v }
  ghost predicate MembersBelow(ms: Members, v: Value) { forall i :: 0 <= i < |ms| ==> ms[i].1 < v }

  predicate AllAccepted(items: seq<Value>, floats: Floats) {
    forall i :: 0 <= i < |items| ==> Accepted(items[i], floats)
  }
  predicate MembersAccepted(ms: Members, floats: Floats) {
    forall i :: 0 <= i < |ms| ==> AllScalars(ms[i].0) && Accepted(ms[i].1, floats)
  }

  /** The members of a dict, in insertion order. */
  function DictMembers(v: Value, floats: Floats): (ms: Members)
    requires v.Dict? && TextKeys(v.members)
    ensures MembersBelow(ms, v) && |ms| == |v.members|
    ensures Accepted(v, floats) ==> MembersAccepted(ms, floats)
    ensures DistinctKeys(v.members) ==> DistinctKeys(ms)
  {
    var ms := TextMembers(v.members);
    assert forall i :: 0 <= i < |ms| ==> v.members[i].1 < v;
    ms
  }

  lemma SortedBelow(v: Value, ms: Members)
    requires MembersBelow(ms, v)
    ensures MembersBelow(SortedMembers(ms), v)
  {
    forall i | 0 <= i < |SortedMembers(ms)| ensures SortedMembers(ms)[i].1 < v {
      SortedHas(ms, MemberLe, SortedMembers(ms)[i]);
    }
  }

  /** The members of a dict in the order they are printed. */
  function SortedDict(v: Value, floats: Floats): (ms: Members)
    requires v.Dict? && TextKeys(v.members)
    ensures MembersBelow(ms, v)
    ensures Accepted(v, floats) ==> MembersAccepted(ms, floats)
  {
    var ms := DictMembers(v, floats);
    SortedBelow(v, ms);
    assert Accepted(v, floats) ==> MembersAccepted(SortedMembers(ms), floats) by {
      forall i | 0 <= i < |SortedMembers(ms)| ensures SortedMembers(ms)[i] in ms {
        SortedHas(ms, MemberLe, SortedMembers(ms)[i]);
      }
    }
    SortedMembers(ms)
  }

  /** What follows an item: a comma, unless it is the last. */
  function AfterItem(left: nat, tail: List<Token>): List<Token> { if left == 1 then tail else Cons(Comma, tail) }

  /** The tokens of a value, and then `rest`. */
  function Tokens(v: Value, floats: Floats, rest: List<Token>): List<Token>
    requires Accepted(v, floats)
    decreases v, 1, 0
  {
    match v
    case Null => Cons(NullToken, rest)
    case Bool(b) => Cons(if b then TrueToken else FalseToken, rest)
    case Int(n) => Cons(NumberToken(Normal(ReprValue(floats(n).repr))), rest)
    case Float(d) => Cons(NumberToken(Normal(ReprValue(d.repr))), rest)
    case Str(text) => Cons(StringToken(text), rest)
    case List(items) => Cons(OpenArray, ItemTokens(v, items, floats, rest))
    case Tuple(items) => Cons(OpenArray, ItemTokens(v, items, floats, rest))
    case Dict(_) => Cons(OpenObject, MemberTokens(v, SortedDict(v, floats), floats, rest))
  }

  /** The items that remain of an array, its end, and then `rest`. */
  function ItemTokens(v: Value, items: seq<Value>, floats: Floats, rest: List<Token>): List<Token>
    requires AllBelow(items, v) && AllAccepted(items, floats)
    decreases v, 0, |items|
  {
    if items == [] then Cons(CloseArray, rest)
    else
      var tail := ItemTokens(v, items[1..], floats, rest);
      Tokens(items[0], floats, AfterItem(|items|, tail))
  }

  function MemberTokens(v: Value, ms: Members, floats: Floats, rest: List<Token>): List<Token>
    requires MembersBelow(ms, v) && MembersAccepted(ms, floats)
    decreases v, 0, |ms|
  {
    if ms == [] then Cons(CloseObject, rest)
    else
      var tail := MemberTokens(v, ms[1..], floats, rest);
      Cons(StringToken(ms[0].0), Cons(Colon, Tokens(ms[0].1, floats, AfterItem(|ms|, tail))))
  }

  predicate Punctuation(ks: List<Token>) {
    ks.Cons? ==> ks.head.CloseArray? || ks.head.CloseObject? || ks.head.Comma?
  }

  lemma {:induction false} TokensSeparated(v: Value, floats: Floats, rest: List<Token>)
    requires Accepted(v, floats) && Separated(rest) && Punctuation(rest)
    ensures Separated(Tokens(v, floats, rest))
    decreases v, 1, 0
  {
    match v
    case List(items) => ItemTokensSeparated(v, items, floats, rest);
    case Tuple(items) => ItemTokensSeparated(v, items, floats, rest);
    case Dict(_) => MemberTokensSeparated(v, SortedDict(v, floats), floats, rest);
    case _ =>
  }

  lemma {:induction false} ItemTokensSeparated(v: Value, items: seq<Value>, floats: Floats, rest: List<Token>)
    requires AllBelow(items, v) && AllAccepted(items, floats) && Separated(rest)
    ensures Separated(ItemTokens(v, items, floats, rest))
    decreases v, 0, |items|
  {
    if items != [] {
      var tail := ItemTokens(v, items[1..], floats, rest);
      ItemTokensSeparated(v, items[1..], floats, rest);
      TokensSeparated(items[0], floats, AfterItem(|items|, tail));
    }
  }

  lemma {:induction false} MemberTokensSeparated(v: Value, ms: Members, floats: Floats, rest: List<Token>)
    requires MembersBelow(ms, v) && MembersAccepted(ms, floats) && Separated(rest)
    ensures Separated(MemberTokens(v, ms, floats, rest))
    decreases v, 0, |ms|
  {
    if ms != [] {
      var tail := MemberTokens(v, ms[1..], floats, rest);
      MemberTokensSeparated(v, ms[1..], floats, rest);
      TokensSeparated(ms[0].1, floats, AfterItem(|ms|, tail));
    }
  }

  // ----- What a value means

  /** The JSON value: numbers by decimal value, tuples as arrays, objects without an order. */
  function Meaning(v: Value, floats: Floats): Json
    requires Accepted(v, floats)
    decreases v, 1, 0
  {
    match v
    case Null => JNull
    case Bool(b) => JBool(b)
    case Int(n) => JNumber(Normal(ReprValue(floats(n).repr)))
    case Float(d) => JNumber(Normal(ReprValue(d.repr)))
    case Str(text) => JString(text)
    case List(items) => JArray(ItemMeanings(v, items, floats))
    case Tuple(items) => JArray(ItemMeanings(v, items, floats))
    case Dict(_) => JObject(MemberMeanings(v, DictMembers(v, floats), floats))
  }

  function ItemMeanings(v: Value, items: seq<Value>, floats: Floats): (r: seq<Json>)
    requires AllBelow(items, v) && AllAccepted(items, floats)
    ensures |r| == |items|
    decreases v, 0, |items|
  {
    if items == [] then [] else [Meaning(items[0], floats)] + ItemMeanings(v, items[1..], floats)
  }

  function MemberMeanings(v: Value, ms: Members, floats: Floats): map<Text, Json>
    requires MembersBelow(ms, v) && MembersAccepted(ms, floats)
    decreases v, 0, |ms|
  {
    if ms == [] then map[] else MemberMeanings(v, ms[1..], floats)[ms[0].0 := Meaning(ms[0].1, floats)]
  }

  function KeySet(ms: Members): set<Text> { set m <- ms :: m.0 }

  /** With distinct keys, the object maps each key to the meaning of its value. */
  lemma {:induction false} MemberMeaningsAre(v: Value, ms: Members, floats: Floats)
    requires MembersBelow(ms, v) && MembersAccepted(ms, floats) && DistinctKeys(ms)
    ensures MemberMeanings(v, ms, floats).Keys == KeySet(ms)
    ensures forall m <- ms :: MemberMeanings(v, ms, floats)[m.0] == Meaning(m.1, floats)
    decreases |ms|
  {
    if ms != [] {
      MemberMeaningsAre(v, ms[1..], floats);
      assert ms == [ms[0]] + ms[1..];
      var rest := MemberMeanings(v, ms[1..], floats);
      assert MemberMeanings(v, ms, floats) == rest[ms[0].0 := Meaning(ms[0].1, floats)];
      forall m | m in ms
        ensures m.0 in MemberMeanings(v, ms, floats) && MemberMeanings(v, ms, floats)[m.0] == Meaning(m.1, floats)
      {
        if m != ms[0] { assert m in ms[1..] && rest[m.0] == Meaning(m.1, floats); }
      }
    }
  }

  /** The printing order does not change the meaning of an object. */
  lemma SortedMeaning(v: Value, floats: Floats)
    requires v.Dict? && Accepted(v, floats) && DistinctKeys(v.members)
    ensures Increasing(SortedDict(v, floats))
    ensures MemberMeanings(v, SortedDict(v, floats), floats) == MemberMeanings(v, DictMembers(v, floats), floats)
  {
    var ms, sorted := DictMembers(v, floats), SortedDict(v, floats);
    SortedIncreasing(ms);
    forall m ensures m in sorted <==> m in ms { SortedHas(ms, MemberLe, m); }
    SameMembersSameMeaning(v, ms, sorted, floats);
  }

  lemma SameMembersSameMeaning(v: Value, a: Members, b: Members, floats: Floats)
    requires MembersBelow(a, v) && MembersAccepted(a, floats) && DistinctKeys(a)
    requires MembersBelow(b, v) && MembersAccepted(b, floats) && DistinctKeys(b)
    requires forall m :: m in a <==> m in b
    ensures MemberMeanings(v, a, floats) == MemberMeanings(v, b, floats)
  {
    MemberMeaningsAre(v, a, floats);
    MemberMeaningsAre(v, b, floats);
    assert KeySet(a) == KeySet(b);
    var x, y := MemberMeanings(v, a, floats), MemberMeanings(v, b, floats);
    forall k | k in x ensures x[k] == y[k] {
      var m :| m in a && m.0 == k;
      assert m in b;
    }
  }

  // ----- Reading the output back

  lemma PrintedStart(k: Token, rest: Text)
    requires Printable(k)
    ensures TokenText(k, rest).Cons? && !IsBlank(TokenText(k, rest).head)
  {
    if k.NumberToken? {
      DecimalTextStart(k.decimal);
    }
  }

  lemma DecimalTextStart(d: Decimal)
    requires IsNormal(d)
    ensures DecimalText(d).Cons? && (IsDigit(DecimalText(d).head) || DecimalText(d).head == MINUS)
  {
    NatDigitsValue(d.coefficient);
    if d.coefficient != 0 { LayoutStartsWithDigit(NatDigits(d.coefficient), d.exponent); }
  }

  lemma ReadPrinted(k: Token, rest: Text)
    requires Printable(k) && (k.NumberToken? ==> EndsNumber(rest))
    ensures ReadToken(TokenText(k, rest)) == TokenRead(k, rest)
  {
    match k
    case StringToken(t) => ReadEscaped(t, rest);
    case NumberToken(d) =>
      DecimalTextStart(d);
      DecimalTextReads(d, rest);
    case _ =>
  }

  lemma {:induction false} LexPrinted(ks: List<Token>)
    requires Separated(ks)
    ensures Lex(Print(ks)) == Some(ks)
  {
    if ks.Cons? {
      LexPrinted(ks.tail);
      PrintedStart(ks.head, Print(ks.tail));
      ReadPrinted(ks.head, Print(ks.tail));
    }
  }

  lemma {:induction false} PrintedScalars(ks: List<Token>)
    requires Separated(ks)
    ensures AllScalars(Print(ks))
  {
    if ks.Cons? {
      PrintedScalars(ks.tail);
      TokenScalars(ks.head, Print(ks.tail));
    }
  }

  lemma FourScalars(t: Text, rest: Text)
    requires t.Cons? && t.tail.Cons? && t.tail.tail.Cons? && t.tail.tail.tail.Cons? && t.tail.tail.tail.tail == rest
    requires Scalar(t.head) && Scalar(t.tail.head) && Scalar(t.tail.tail.head) && Scalar(t.tail.tail.tail.head)
    requires AllScalars(rest)
    ensures AllScalars(t)
  {
    assert AllScalars(t.tail.tail);
  }

  lemma TokenScalars(k: Token, rest: Text)
    requires Printable(k) && AllScalars(rest)
    ensures AllScalars(TokenText(k, rest))
  {
    match k
    case StringToken(t) => EscapedScalars(t, rest);
    case NumberToken(d) =>
      DecimalTextScalars(d);
      AllScalarsCat(DecimalText(d), rest);
    case NullToken => FourScalars(TokenText(k, rest), rest);
    case TrueToken => FourScalars(TokenText(k, rest), rest);
    case FalseToken =>
      var t: Text := TokenText(k, rest);
      FourScalars(t.tail, rest);
      assert Scalar(t.head) && AllScalars(t.tail);
    case _ =>
  }

  lemma {:induction false} DigitsScalars(ds: Digits)
    ensures AllScalars(ds)
  {
    if ds.Cons? { DigitsScalars(ds.tail); }
  }

  lemma DecimalTextScalars(d: Decimal)
    requires IsNormal(d)
    ensures AllScalars(DecimalText(d))
  {
    if d.coefficient != 0 {
      NatDigitsValue(d.coefficient);
      LayoutScalars(NatDigits(d.coefficient), d.exponent);
    }
  }

  lemma LayoutScalars(digits: Digits, exponent: int)
    requires digits.Cons?
    ensures AllScalars(Layout(digits, exponent))
  {
    var n := exponent + Len(digits);
    if Len(digits) <= n <= 21 {
      DigitsScalars(Cat(digits, Zeros(exponent)));
    } else if 0 < n <= 21 {
      DigitsScalars(Take(digits, n));
      DigitsScalars(Drop(digits, n));
      AllScalarsCat(Take(digits, n), Cons(POINT, Drop(digits, n)));
    } else if -6 < n <= 0 {
      DigitsScalars(Cat(Zeros(-n), digits));
      var fraction: Text := Cons(POINT, Cat(Zeros(-n), digits));
      assert AllScalars(fraction);
    } else {
      DigitsScalars(digits.tail);
      var power := NatDigits(if n - 1 >= 0 then n - 1 else 1 - n);
      DigitsScalars(power);
      assert AllScalars(Mantissa(digits));
      assert AllScalars(PowerText(n - 1)) by { assert AllScalars(PowerText(n - 1).tail.tail); }
      AllScalarsCat(Mantissa(digits), PowerText(n - 1));
    }
  }

  lemma {:induction false} ReadTokens(v: Value, floats: Floats, rest: List<Token>)
    requires Accepted(v, floats) && ProperDicts(v)
    ensures ReadValue(Tokens(v, floats, rest)) == ValueRead(Meaning(v, floats), rest)
    decreases v, 1, 0
  {
    match v
    case List(items) => ReadItemTokens(v, items, floats, rest);
    case Tuple(items) => ReadItemTokens(v, items, floats, rest);
    case Dict(_) =>
      var ms := SortedDict(v, floats);
      SortedMeaning(v, floats);
      SortedProper(v, floats);
      ReadMemberTokens(v, ms, floats, rest);
    case _ =>
  }

  ghost predicate AllProper(items: seq<Value>) { forall i :: 0 <= i < |items| ==> ProperDicts(items[i]) }
  ghost predicate MembersProper(ms: Members) { forall i :: 0 <= i < |ms| ==> ProperDicts(ms[i].1) }

  lemma SortedProper(v: Value, floats: Floats)
    requires v.Dict? && Accepted(v, floats) && ProperDicts(v)
    ensures MembersProper(SortedDict(v, floats))
  {
    var ms, sorted := DictMembers(v, floats), SortedDict(v, floats);
    forall i | 0 <= i < |sorted| ensures ProperDicts(sorted[i].1) {
      SortedHas(ms, MemberLe, sorted[i]);
      var j :| 0 <= j < |ms| && ms[j] == sorted[i];
      assert v.members[j] in v.members;
    }
  }

  lemma TokensStart(v: Value, floats: Floats, rest: List<Token>)
    requires Accepted(v, floats)
    ensures Tokens(v, floats, rest).Cons? && !Tokens(v, floats, rest).head.CloseArray?
  {}

  lemma {:induction false} ReadItemTokens(v: Value, items: seq<Value>, floats: Floats, rest: List<Token>)
    requires AllBelow(items, v) && AllAccepted(items, floats) && AllProper(items)
    ensures var ks := ItemTokens(v, items, floats, rest);
            if items == [] then ks == Cons(CloseArray, rest)
            else ks.Cons? && !ks.head.CloseArray? && ReadItems(ks) == ItemsRead(ItemMeanings(v, items, floats), rest)
    decreases v, 0, |items|
  {
    if items != [] {
      var tail := ItemTokens(v, items[1..], floats, rest);
      var after := AfterItem(|items|, tail);
      ReadItemTokens(v, items[1..], floats, rest);
      ReadTokens(items[0], floats, after);
      TokensStart(items[0], floats, after);
    }
  }

  lemma ReadMember(name: Text, value: Json, ks: List<Token>, after: List<Token>)
    requires ReadValue(ks) == ValueRead(value, after) && after.Cons?
    ensures ReadMembers(Cons(StringToken(name), Cons(Colon, ks))) ==
      if after.head.CloseObject? then MembersRead(map[name := value], after.tail)
      else if after.head.Comma? && ReadMembers(after.tail).MembersRead? && name !in ReadMembers(after.tail).members
      then MembersRead(ReadMembers(after.tail).members[name := value], ReadMembers(after.tail).rest)
      else NoMembers
  {}

  lemma {:induction false} ReadMemberTokens(v: Value, ms: Members, floats: Floats, rest: List<Token>)
    requires MembersBelow(ms, v) && MembersAccepted(ms, floats) && MembersProper(ms) && DistinctKeys(ms)
    ensures var ks := MemberTokens(v, ms, floats, rest);
            if ms == [] then ks == Cons(CloseObject, rest)
            else
              && ks.Cons? && !ks.head.CloseObject?
              && ReadMembers(ks) == MembersRead(MemberMeanings(v, ms, floats), rest)
    decreases v, 0, |ms|
  {
    if ms != [] {
      var tail := MemberTokens(v, ms[1..], floats, rest);
      var after := AfterItem(|ms|, tail);
      ReadMemberTokens(v, ms[1..], floats, rest);
      ReadTokens(ms[0].1, floats, after);
      MemberMeaningsAre(v, ms[1..], floats);
      assert ms[0].0 !in KeySet(ms[1..]);
      ReadMember(ms[0].0, Meaning(ms[0].1, floats), Tokens(ms[0].1, floats, after), after);
    }
  }

  /** The canonical text in UTF-8. */
  function CanonicalBytes(v: Value, floats: Floats): Bytes
    requires Accepted(v, floats)
  {
    TokensSeparated(v, floats, Nil);
    Utf8(Print(Tokens(v, floats, Nil)))
  }

  /** A JSON reader gives back the value. */
  lemma RoundTrip(v: Value, floats: Floats)
    requires Accepted(v, floats) && ProperDicts(v)
    ensures ReadJson(CanonicalBytes(v, floats)) == Some(Meaning(v, floats))
  {
    var ks := Tokens(v, floats, Nil);
    TokensSeparated(v, floats, Nil);
    PrintedScalars(ks);
    ReadUtf8Of(Print(ks));
    LexPrinted(ks);
    ReadTokens(v, floats, Nil);
  }

  // ----- The bytes depend on the meaning only

  lemma {:induction false} TokensDetermined(v: Value, w: Value, floats: Floats, rest: List<Token>)
    requires Accepted(v, floats) && ProperDicts(v) && Accepted(w, floats) && ProperDicts(w)
    requires Meaning(v, floats) == Meaning(w, floats)
    ensures Tokens(v, floats, rest) == Tokens(w, floats, rest)
    decreases v, 1, 0
  {
    if v.List? || v.Tuple? {
      ItemsDetermined(v, v.items, w, w.items, floats, rest);
    } else if v.Dict? {
      SortedMeaning(v, floats);
      SortedMeaning(w, floats);
      SortedProper(v, floats);
      SortedProper(w, floats);
      MembersDetermined(v, SortedDict(v, floats), w, SortedDict(w, floats), floats, rest);
    }
  }

  lemma PrependInjective<T>(a: T, s: seq<T>, b: T, t: seq<T>)
    requires [a] + s == [b] + t
    ensures a == b && s == t
  {
    assert a == ([a] + s)[0] && s == ([a] + s)[1..];
    assert b == ([b] + t)[0] && t == ([b] + t)[1..];
  }

  lemma ItemsTail(v: Value, xs: seq<Value>, floats: Floats)
    requires AllBelow(xs, v) && AllAccepted(xs, floats) && AllProper(xs) && xs != []
    ensures AllBelow(xs[1..], v) && AllAccepted(xs[1..], floats) && AllProper(xs[1..])
    ensures ItemMeanings(v, xs, floats) == [Meaning(xs[0], floats)] + ItemMeanings(v, xs[1..], floats)
  {}

  lemma ItemsUnfold(v: Value, xs: seq<Value>, floats: Floats, rest: List<Token>)
    requires AllBelow(xs, v) && AllAccepted(xs, floats) && xs != []
    requires AllBelow(xs[1..], v) && AllAccepted(xs[1..], floats)
    ensures ItemTokens(v, xs, floats, rest)
      == Tokens(xs[0], floats, AfterItem(|xs|, ItemTokens(v, xs[1..], floats, rest)))
  {}

  lemma {:induction false} ItemsDetermined(v: Value, xs: seq<Value>, w: Value, ys: seq<Value>, floats: Floats,
    rest: List<Token>)
    requires AllBelow(xs, v) && AllAccepted(xs, floats) && AllProper(xs)
    requires AllBelow(ys, w) && AllAccepted(ys, floats) && AllProper(ys)
    requires ItemMeanings(v, xs, floats) == ItemMeanings(w, ys, floats)
    ensures ItemTokens(v, xs, floats, rest) == ItemTokens(w, ys, floats, rest)
    decreases v, 0, |xs|
  {
    assert |xs| == |ys|;
    if xs != [] {
      ItemsTail(v, xs, floats);
      ItemsTail(w, ys, floats);
      PrependInjective(Meaning(xs[0], floats), ItemMeanings(v, xs[1..], floats), Meaning(ys[0], floats),
        ItemMeanings(w, ys[1..], floats));
      ItemsDetermined(v, xs[1..], w, ys[1..], floats, rest);
      TokensDetermined(xs[0], ys[0], floats, AfterItem(|xs|, ItemTokens(v, xs[1..], floats, rest)));
      ItemsUnfold(v, xs, floats, rest);
      ItemsUnfold(w, ys, floats, rest);
    }
  }

  /** Increasing members with the same names start with the same name. */
  lemma FirstDetermined(ms: Members, ns: Members, floats: Floats)
    requires Increasing(ms) && Increasing(ns) && KeySet(ms) == KeySet(ns) && ms != []
    requires MembersAccepted(ms, floats) && MembersAccepted(ns, floats)
    ensures ns != [] && ms[0].0 == ns[0].0
  {
    assert ms[0].0 in KeySet(ns);
    assert ns[0].0 in KeySet(ms);
    LexSelf(Utf16Key(ms[0].0));
    KeyOrderIsUnitOrder(ms[0].0, ns[0].0);
  }

  lemma {:induction false} LexSelf(a: List<int>)
    ensures LexLe(a, a)
  {
    if a.Cons? { LexSelf(a.tail); }
  }

  lemma MembersTail(v: Value, ms: Members, floats: Floats)
    requires MembersBelow(ms, v) && MembersAccepted(ms, floats) && MembersProper(ms) && Increasing(ms) && ms != []
    ensures MembersBelow(ms[1..], v) && MembersAccepted(ms[1..], floats) && MembersProper(ms[1..])
      && Increasing(ms[1..])
  {}

  lemma MembersUnfold(v: Value, ms: Members, floats: Floats, rest: List<Token>)
    requires MembersBelow(ms, v) && MembersAccepted(ms, floats) && ms != []
    requires MembersBelow(ms[1..], v) && MembersAccepted(ms[1..], floats)
    ensures MemberTokens(v, ms, floats, rest) == Cons(StringToken(ms[0].0), Cons(Colon,
      Tokens(ms[0].1, floats, AfterItem(|ms|, MemberTokens(v, ms[1..], floats, rest)))))
  {}

  lemma {:induction false} MembersDetermined(v: Value, ms: Members, w: Value, ns: Members, floats: Floats,
    rest: List<Token>)
    requires MembersBelow(ms, v) && MembersAccepted(ms, floats) && MembersProper(ms) && Increasing(ms)
    requires MembersBelow(ns, w) && MembersAccepted(ns, floats) && MembersProper(ns) && Increasing(ns)
    requires MemberMeanings(v, ms, floats) == MemberMeanings(w, ns, floats)
    ensures MemberTokens(v, ms, floats, rest) == MemberTokens(w, ns, floats, rest)
    decreases v, 0, |ms|
  {
    SameKeys(v, ms, w, ns, floats);
    SameLength(ms, ns);
    if ms != [] {
      FirstDetermined(ms, ns, floats);
      MembersTail(v, ms, floats);
      MembersTail(w, ns, floats);
      TailMeanings(v, ms, floats);
      TailMeanings(w, ns, floats);
      MembersDetermined(v, ms[1..], w, ns[1..], floats, rest);
      TokensDetermined(ms[0].1, ns[0].1, floats, AfterItem(|ms|, MemberTokens(v, ms[1..], floats, rest)));
      MembersUnfold(v, ms, floats, rest);
      MembersUnfold(w, ns, floats, rest);
    }
  }

  lemma SameKeys(v: Value, ms: Members, w: Value, ns: Members, floats: Floats)
    requires MembersBelow(ms, v) && MembersAccepted(ms, floats) && Increasing(ms)
    requires MembersBelow(ns, w) && MembersAccepted(ns, floats) && Increasing(ns)
    requires MemberMeanings(v, ms, floats) == MemberMeanings(w, ns, floats)
    ensures KeySet(ms) == KeySet(ns)
  {
    MemberMeaningsAre(v, ms, floats);
    MemberMeaningsAre(w, ns, floats);
  }

  lemma TailMeanings(v: Value, ms: Members, floats: Floats)
    requires MembersBelow(ms, v) && MembersAccepted(ms, floats) && Increasing(ms) && ms != []
    ensures MemberMeanings(v, ms[1..], floats) == MemberMeanings(v, ms, floats) - {ms[0].0}
    ensures MemberMeanings(v, ms, floats)[ms[0].0] == Meaning(ms[0].1, floats)
  {
    MemberMeaningsAre(v, ms[1..], floats);
    assert ms[0].0 !in KeySet(ms[1..]);
    RemoveAdded(MemberMeanings(v, ms[1..], floats), ms[0].0, Meaning(ms[0].1, floats));
  }

  lemma RemoveAdded<K, V>(m: map<K, V>, k: K, x: V)
    requires k !in m
    ensures m[k := x] - {k} == m
  {}

  lemma {:induction false} KeySetSize(ms: Members)
    requires Increasing(ms)
    ensures |KeySet(ms)| == |ms|
  {
    if ms != [] {
      KeySetSize(ms[1..]);
      assert ms == [ms[0]] + ms[1..];
      assert KeySet(ms) == KeySet(ms[1..]) + {ms[0].0};
    }
  }

  lemma SameLength(ms: Members, ns: Members)
    requires Increasing(ms) && Increasing(ns) && KeySet(ms) == KeySet(ns)
    ensures |ms| == |ns|
  {
    KeySetSize(ms);
    KeySetSize(ns);
  }

  /** Two values have the same bytes exactly when they are the same JSON value, whatever the order in
      which their members were inserted. */
  lemma SameBytesIffSameMeaning(v: Value, w: Value, floats: Floats)
    requires Accepted(v, floats) && ProperDicts(v) && Accepted(w, floats) && ProperDicts(w)
    ensures CanonicalBytes(v, floats) == CanonicalBytes(w, floats) <==> Meaning(v, floats) == Meaning(w, floats)
  {
    RoundTrip(v, floats);
    RoundTrip(w, floats);
    if Meaning(v, floats) == Meaning(w, floats) { TokensDetermined(v, w, floats, Nil); }
  }

  /** The members are printed strictly increasing by their UTF-16 code units. */
  lemma MembersIncreaseByUnits(v: Value, floats: Floats, i: nat, j: nat)
    requires v.Dict? && Accepted(v, floats) && DistinctKeys(v.members) && i < j < |SortedDict(v, floats)|
    ensures var ms := SortedDict(v, floats);
            LexLe(Units(ms[i].0), Units(ms[j].0)) && Units(ms[i].0) != Units(ms[j].0)
  {
    var ms := SortedDict(v, floats);
    SortedMeaning(v, floats);
    assert ms[i] in ms && ms[j] in ms;
    KeyOrderIsUnitOrder(ms[i].0, ms[j].0);
    if Units(ms[i].0) == Units(ms[j].0) { UnitsInjective(ms[i].0, ms[j].0); }
  }
}
