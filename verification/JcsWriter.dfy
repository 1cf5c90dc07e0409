/** `canonicalize` and `_write` as they run: one shared list of parts, appended to in place. */
module JcsWriter {
  import opened Sequences
  import opened Texts
  import opened PyValues
  import opened JcsNumber
  import opened JcsString
  import opened JsonReader
  import opened Jcs

  // ----- Which exception is raised

  /** The first key that is refused, in insertion order. */
  function KeysProblem(members: seq<(Key, Value)>): (r: Option<Failure>)
    ensures r.None? <==> forall i :: 0 <= i < |members| ==> members[i].0.TextKey? && AllScalars(members[i].0.text)
  {
    if members == [] then None
    else if members[0].0.OtherKey? then Some(TypeError)
    else if !AllScalars(members[0].0.text) then Some(ValueError)
    else
      var r := KeysProblem(members[1..]);
      assert members == [members[0]] + members[1..];
      r
  }

  /** The exception `canonicalize` raises, if any: the first problem in the order of writing, where
      all keys of a dict come before its values, and its values in the order of the sorted keys. */
  function Problem(v: Value, floats: Floats): Option<Failure>
    decreases v, 1, 0
  {
    match v
    case Null => None
    case Bool(_) => None
    case Int(n) => if floats(n).Exact? then None else Some(ValueError)
    case Float(d) => if d.Finite? then None else Some(ValueError)
    case Str(text) => if AllScalars(text) then None else Some(ValueError)
    case List(items) => ItemsProblem(v, items, floats)
    case Tuple(items) => ItemsProblem(v, items, floats)
    case Dict(members) =>
      var keys := KeysProblem(members);
      if keys.Some? then keys else MembersProblem(v, SortedDict(v, floats), floats)
    case Other(_) => Some(TypeError)
  }

  function ItemsProblem(v: Value, items: seq<Value>, floats: Floats): Option<Failure>
    requires AllBelow(items, v)
    decreases v, 0, |items|
  {
    if items == [] then None else
      var first := Problem(items[0], floats);
      if first.Some? then first else ItemsProblem(v, items[1..], floats)
  }

  function MembersProblem(v: Value, ms: Members, floats: Floats): Option<Failure>
    requires MembersBelow(ms, v)
    decreases v, 0, |ms|
  {
    if ms == [] then None else
      var first := Problem(ms[0].1, floats);
      if first.Some? then first else MembersProblem(v, ms[1..], floats)
  }

  /** `canonicalize` succeeds exactly on the declared domain. */
  lemma {:induction false} NoProblemIffAccepted(v: Value, floats: Floats)
    ensures Problem(v, floats).None? <==> Accepted(v, floats)
    decreases v, 1, 0
  {
    match v
    case List(items) => ItemsNoProblem(v, items, floats);
    case Tuple(items) => ItemsNoProblem(v, items, floats);
    case Dict(members) =>
      if KeysProblem(members).None? {
        MembersNoProblem(v, SortedDict(v, floats), floats);
        SortedAccepted(v, floats);
      }
    case _ =>
  }

  lemma {:induction false} ItemsNoProblem(v: Value, items: seq<Value>, floats: Floats)
    requires AllBelow(items, v)
    ensures ItemsProblem(v, items, floats).None? <==> AllAccepted(items, floats)
    decreases v, 0, |items|
  {
    if items != [] {
      NoProblemIffAccepted(items[0], floats);
      ItemsNoProblem(v, items[1..], floats);
      assert items == [items[0]] + items[1..];
    }
  }

  ghost predicate ValuesAccepted(ms: Members, floats: Floats) {
    forall i :: 0 <= i < |ms| ==> Accepted(ms[i].1, floats)
  }

  lemma {:induction false} MembersNoProblem(v: Value, ms: Members, floats: Floats)
    requires MembersBelow(ms, v)
    ensures MembersProblem(v, ms, floats).None? <==> ValuesAccepted(ms, floats)
    decreases v, 0, |ms|
  {
    if ms != [] {
      NoProblemIffAccepted(ms[0].1, floats);
      MembersNoProblem(v, ms[1..], floats);
      assert ms == [ms[0]] + ms[1..];
    }
  }

  lemma SortedAccepted(v: Value, floats: Floats)
    requires v.Dict? && KeysProblem(v.members).None?
    ensures ValuesAccepted(SortedDict(v, floats), floats) <==> Accepted(v, floats)
  {
    var ms, sorted := DictMembers(v, floats), SortedDict(v, floats);
    if ValuesAccepted(sorted, floats) {
      forall i | 0 <= i < |ms| ensures Accepted(v.members[i].1, floats) {
        SortedHas(ms, MemberLe, ms[i]);
        assert ms[i] in ms;
      }
    }
  }

  // ----- Concatenation of printed tokens

  /** The text of a value. */
  function Written(v: Value, floats: Floats): Text
    requires Accepted(v, floats)
  {
    TokensSeparated(v, floats, Nil);
    Print(Tokens(v, floats, Nil))
  }

  lemma {:induction false} TokensCat(v: Value, floats: Floats, rest: List<Token>)
    requires Accepted(v, floats)
    ensures Tokens(v, floats, rest) == Cat(Tokens(v, floats, Nil), rest)
    decreases v, 1, 0
  {
    match v
    case List(items) => ItemTokensCat(v, items, floats, Nil, rest);
    case Tuple(items) => ItemTokensCat(v, items, floats, Nil, rest);
    case Dict(_) => MemberTokensCat(v, SortedDict(v, floats), floats, Nil, rest);
    case _ =>
  }

  lemma {:induction false} ItemTokensCat(v: Value, items: seq<Value>, floats: Floats, a: List<Token>, b: List<Token>)
    requires AllBelow(items, v) && AllAccepted(items, floats)
    ensures ItemTokens(v, items, floats, Cat(a, b)) == Cat(ItemTokens(v, items, floats, a), b)
    decreases v, 0, |items|
  {
    if items != [] {
      ItemTokensCat(v, items[1..], floats, a, b);
      var short := AfterItem(|items|, ItemTokens(v, items[1..], floats, a));
      var long := AfterItem(|items|, ItemTokens(v, items[1..], floats, Cat(a, b)));
      assert long == Cat(short, b);
      TokensCat(items[0], floats, short);
      TokensCat(items[0], floats, long);
      CatAssoc(Tokens(items[0], floats, Nil), short, b);
    }
  }

  lemma {:induction false} MemberTokensCat(v: Value, ms: Members, floats: Floats, a: List<Token>, b: List<Token>)
    requires MembersBelow(ms, v) && MembersAccepted(ms, floats)
    ensures MemberTokens(v, ms, floats, Cat(a, b)) == Cat(MemberTokens(v, ms, floats, a), b)
    decreases v, 0, |ms|
  {
    if ms != [] {
      MemberTokensCat(v, ms[1..], floats, a, b);
      var short := AfterItem(|ms|, MemberTokens(v, ms[1..], floats, a));
      var long := AfterItem(|ms|, MemberTokens(v, ms[1..], floats, Cat(a, b)));
      assert long == Cat(short, b);
      TokensCat(ms[0].1, floats, short);
      TokensCat(ms[0].1, floats, long);
      CatAssoc(Tokens(ms[0].1, floats, Nil), short, b);
    }
  }

  lemma TokenTextCat(k: Token, a: Text, b: Text)
    requires Printable(k)
    ensures TokenText(k, Cat(a, b)) == Cat(TokenText(k, a), b)
  {
    match k
    case NullToken => FourCat(TokenText(k, a), b);
    case TrueToken => FourCat(TokenText(k, a), b);
    case FalseToken => FourCat(TokenText(k, a).tail, b);
    case StringToken(t) =>
      EscapedCat(t, a);
      EscapedCat(t, Cat(a, b));
      CatAssoc(Escaped(t, Nil), a, b);
    case NumberToken(d) => CatAssoc(DecimalText(d), a, b);
    case _ =>
  }

  lemma {:induction false} PrintCat(a: List<Token>, b: List<Token>)
    requires Separated(a) && Separated(b) && Separated(Cat(a, b))
    ensures Print(Cat(a, b)) == Cat(Print(a), Print(b))
  {
    if a.Cons? {
      PrintCat(a.tail, b);
      TokenTextCat(a.head, Print(a.tail), Print(b));
    }
  }

  /** A value and what follows it print one after the other. */
  lemma PrintThen(v: Value, floats: Floats, rest: List<Token>)
    requires Accepted(v, floats) && Separated(rest) && Punctuation(rest)
    ensures Separated(Tokens(v, floats, rest))
    ensures Print(Tokens(v, floats, rest)) == Cat(Written(v, floats), Print(rest))
  {
    TokensSeparated(v, floats, rest);
    TokensSeparated(v, floats, Nil);
    TokensCat(v, floats, rest);
    PrintCat(Tokens(v, floats, Nil), rest);
  }

  // ----- The list of parts

  /** `"".join(parts)`. */
  function Joined(parts: seq<Text>): Text {
    if parts == [] then Nil else Cat(Joined(parts[..|parts| - 1]), parts[|parts| - 1])
  }

  function OneChar(c: int): Text { Cons(c, Nil) }

  class Parts {
    var parts: seq<Text>

    constructor ()
      ensures parts == []
    {
      parts := [];
    }

    method Append(t: Text)
      modifies this
      ensures parts == old(parts) + [t]
      ensures Joined(parts) == Cat(old(Joined(parts)), t)
    {
      parts := parts + [t];
      assert parts[..|parts| - 1] == old(parts);
    }
  }

  /** What is still to be written of an array when the items before `i` are written. */
  ghost function ItemsLeft(v: Value, items: seq<Value>, i: nat, floats: Floats): Text
    requires AllBelow(items, v) && AllAccepted(items, floats) && i <= |items|
  {
    ItemTokensSeparated(v, items[i..], floats, Nil);
    var text := Print(ItemTokens(v, items[i..], floats, Nil));
    if 0 < i < |items| then Cons(0x2C, text) else text
  }

  ghost function MembersLeft(v: Value, ms: Members, i: nat, floats: Floats): Text
    requires MembersBelow(ms, v) && MembersAccepted(ms, floats) && i <= |ms|
  {
    MemberTokensSeparated(v, ms[i..], floats, Nil);
    var text := Print(MemberTokens(v, ms[i..], floats, Nil));
    if 0 < i < |ms| then Cons(0x2C, text) else text
  }

  /** `before` and, after the first item, a comma. */
  function WithComma(before: Text, i: nat): Text { if i > 0 then Cat(before, OneChar(0x2C)) else before }

  lemma ItemStep(v: Value, items: seq<Value>, i: nat, floats: Floats, before: Text)
    requires AllBelow(items, v) && AllAccepted(items, floats) && i < |items|
    ensures Cat(Cat(WithComma(before, i), Written(items[i], floats)), ItemsLeft(v, items, i + 1, floats))
         == Cat(before, ItemsLeft(v, items, i, floats))
  {
    var xs := items[i..];
    var tail := ItemTokens(v, items[i + 1..], floats, Nil);
    assert xs[1..] == items[i + 1..];
    ItemTokensSeparated(v, items[i + 1..], floats, Nil);
    PrintThen(items[i], floats, AfterItem(|xs|, tail));
    CommaThen(before, i, Written(items[i], floats), ItemsLeft(v, items, i + 1, floats));
  }

  lemma CommaThen(before: Text, i: nat, text: Text, left: Text)
    ensures Cat(Cat(WithComma(before, i), text), left)
      == Cat(before, if i > 0 then Cons(0x2C, Cat(text, left)) else Cat(text, left))
  {
    CatAssoc(WithComma(before, i), text, left);
    CatAssoc(before, OneChar(0x2C), Cat(text, left));
  }

  /** The text of one member. */
  ghost function MemberText(m: (Text, Value), floats: Floats): Text
    requires AllScalars(m.0) && Accepted(m.1, floats)
  {
    Cons(QUOTE, Escaped(m.0, Cons(0x3A, Written(m.1, floats))))
  }

  lemma PrintMember(name: Text, ks: List<Token>)
    requires AllScalars(name) && Separated(ks)
    ensures Separated(Cons(StringToken(name), Cons(Colon, ks)))
    ensures Print(Cons(StringToken(name), Cons(Colon, ks))) == Cons(QUOTE, Escaped(name, Cons(0x3A, Print(ks))))
  {
    assert Separated(Cons(Colon, ks)) && Print(Cons(Colon, ks)) == Cons(0x3A, Print(ks));
  }

  lemma MemberStep(v: Value, ms: Members, i: nat, floats: Floats, before: Text)
    requires MembersBelow(ms, v) && MembersAccepted(ms, floats) && i < |ms|
    ensures Cat(Cat(WithComma(before, i), MemberText(ms[i], floats)), MembersLeft(v, ms, i + 1, floats))
         == Cat(before, MembersLeft(v, ms, i, floats))
  {
    var xs := ms[i..];
    var tail := MemberTokens(v, ms[i + 1..], floats, Nil);
    assert xs[1..] == ms[i + 1..];
    MemberTokensSeparated(v, ms[i + 1..], floats, Nil);
    MemberTokensSeparated(v, xs, floats, Nil);
    PrintThen(ms[i].1, floats, AfterItem(|xs|, tail));
    MembersUnfold(v, xs, floats, Nil);
    PrintMember(ms[i].0, Tokens(ms[i].1, floats, AfterItem(|xs|, tail)));
    var left := MembersLeft(v, ms, i + 1, floats);
    var value := Written(ms[i].1, floats);
    EscapedCat(ms[i].0, Cons(0x3A, value));
    EscapedCat(ms[i].0, Cons(0x3A, Cat(value, left)));
    CatAssoc(Escaped(ms[i].0, Nil), Cons(0x3A, value), left);
    CommaThen(before, i, MemberText(ms[i], floats), left);
  }

  /** What three appended parts of a member amount to. */
  lemma MemberParts(before: Text, m: (Text, Value), floats: Floats)
    requires AllScalars(m.0) && Accepted(m.1, floats)
    ensures Cat(Cat(Cat(before, Cons(QUOTE, Escaped(m.0, Nil))), OneChar(0x3A)), Written(m.1, floats))
         == Cat(before, MemberText(m, floats))
  {
    var value := Written(m.1, floats);
    var name: Text := Cons(QUOTE, Escaped(m.0, Nil));
    CatAssoc(Cat(before, name), OneChar(0x3A), value);
    CatAssoc(before, name, Cons(0x3A, value));
    EscapedCat(m.0, Cons(0x3A, value));
  }

  // ----- Writing

  lemma WrittenWord(v: Value, floats: Floats)
    requires v.Null? || v.Bool?
    ensures Written(v, floats) == Ascii(if v.Null? then "null" else if v.b then "true" else "false")
  {
    var none: Text := Nil;
    assert Ascii("l") == Cons(0x6C, none) && Ascii("ll") == Cons(0x6C, Cons(0x6C, none))
      && Ascii("null") == Cons(0x6E, Cons(0x75, Ascii("ll")));
    assert Ascii("ue") == Cons(0x75, Cons(0x65, none)) && Ascii("true") == Cons(0x74, Cons(0x72, Ascii("ue")));
    assert Ascii("se") == Cons(0x73, Cons(0x65, none)) && Ascii("lse") == Cons(0x6C, Ascii("se"));
    assert Ascii("false") == Cons(0x66, Cons(0x61, Ascii("lse")));
  }

  lemma WrittenToken(v: Value, floats: Floats, k: Token)
    requires Accepted(v, floats) && Printable(k) && Tokens(v, floats, Nil) == Cons(k, Nil)
    ensures Written(v, floats) == TokenText(k, Nil)
  {
    TokensSeparated(v, floats, Nil);
    var none: List<Token> := Nil;
    assert Print(none) == Nil;
  }

  lemma WrittenArray(v: Value, items: seq<Value>, floats: Floats)
    requires Accepted(v, floats) && (v.List? || v.Tuple?) && items == v.items
    ensures AllBelow(items, v) && AllAccepted(items, floats)
    ensures Written(v, floats) == Cons(0x5B, ItemsLeft(v, items, 0, floats))
  {
    assert items[0..] == items;
  }

  lemma WrittenObject(v: Value, floats: Floats)
    requires Accepted(v, floats) && v.Dict?
    ensures Written(v, floats) == Cons(0x7B, MembersLeft(v, SortedDict(v, floats), 0, floats))
  {
    assert SortedDict(v, floats)[0..] == SortedDict(v, floats);
  }

  lemma SortedNames(v: Value, floats: Floats)
    requires v.Dict? && KeysProblem(v.members).None?
    ensures forall i :: 0 <= i < |SortedDict(v, floats)| ==> AllScalars(SortedDict(v, floats)[i].0)
  {
    var ms, sorted := DictMembers(v, floats), SortedDict(v, floats);
    forall i | 0 <= i < |sorted| ensures AllScalars(sorted[i].0) { SortedHas(ms, MemberLe, sorted[i]); }
  }

  method Write(v: Value, floats: Floats, out: Parts) returns (failure: Option<Failure>)
    modifies out
    ensures failure == Problem(v, floats)
    ensures failure.None?
      ==> Accepted(v, floats) && Joined(out.parts) == Cat(old(Joined(out.parts)), Written(v, floats))
    decreases v, 1
  {
    NoProblemIffAccepted(v, floats);
    failure := None;
    match v
    case Null =>
      WrittenWord(v, floats);
      out.Append(Ascii("null"));
    case Bool(b) =>
      WrittenWord(v, floats);
      out.Append(Ascii(if b then "true" else "false"));
    case Int(n) =>
      match floats(n) {
        case Exact(repr) =>
          WriteNumber(repr, out);
          WrittenToken(v, floats, NumberToken(Normal(ReprValue(repr))));
        case _ => failure := Some(ValueError);
      }
    case Float(d) =>
      if d.Finite? {
        WriteNumber(d.repr, out);
        WrittenToken(v, floats, NumberToken(Normal(ReprValue(d.repr))));
      } else {
        failure := Some(ValueError);
      }
    case Str(text) =>
      failure := WriteString(text, out);
      if failure.None? { WrittenToken(v, floats, StringToken(text)); }
    case List(items) =>
      failure := WriteItems(v, items, floats, out);
      if failure.None? { WrittenArray(v, items, floats); }
    case Tuple(items) =>
      failure := WriteItems(v, items, floats, out);
      if failure.None? { WrittenArray(v, items, floats); }
    case Dict(members) =>
      failure := KeysProblem(members);
      if failure.None? {
        SortedNames(v, floats);
        failure := WriteMembers(v, SortedDict(v, floats), floats, out);
        if failure.None? { WrittenObject(v, floats); }
      }
    case Other(_) => failure := Some(TypeError);
  }

  method WriteNumber(r: Repr, out: Parts)
    modifies out
    ensures Joined(out.parts) == Cat(old(Joined(out.parts)), Cat(DecimalText(Normal(ReprValue(r))), Nil))
  {
    NumberTextOfValue(r);
    CatNil(NumberText(r));
    out.Append(NumberText(r));
  }

  method WriteString(t: Text, out: Parts) returns (failure: Option<Failure>)
    modifies out
    ensures failure == if AllScalars(t) then None else Some(ValueError)
    ensures failure.None? ==> Joined(out.parts) == Cat(old(Joined(out.parts)), Cons(QUOTE, Escaped(t, Nil)))
  {
    StringTextIs(t);
    var text := StringText(t);
    if text.None? { return Some(ValueError); }
    out.Append(text.value);
    failure := None;
  }

  method WriteItems(v: Value, items: seq<Value>, floats: Floats, out: Parts) returns (failure: Option<Failure>)
    requires AllBelow(items, v)
    modifies out
    ensures failure == ItemsProblem(v, items, floats)
    ensures failure.None? ==> AllAccepted(items, floats)
    ensures failure.None?
      ==> Joined(out.parts) == Cat(old(Joined(out.parts)), Cons(0x5B, ItemsLeft(v, items, 0, floats)))
    decreases v, 0
  {
    ItemsNoProblem(v, items, floats);
    out.Append(OneChar(0x5B));
    ghost var start := Joined(out.parts);
    assert items[0..] == items;
    for i := 0 to |items|
      invariant ItemsProblem(v, items, floats) == ItemsProblem(v, items[i..], floats)
      invariant AllAccepted(items, floats)
        ==> Cat(Joined(out.parts), ItemsLeft(v, items, i, floats)) == Cat(start, ItemsLeft(v, items, 0, floats))
    {
      ghost var before := Joined(out.parts);
      assert items[i..][1..] == items[i + 1..];
      if i > 0 { out.Append(OneChar(0x2C)); }
      failure := Write(items[i], floats, out);
      if failure.Some? { return; }
      if AllAccepted(items, floats) { ItemStep(v, items, i, floats, before); }
    }
    out.Append(OneChar(0x5D));
    CatAssoc(old(Joined(out.parts)), OneChar(0x5B), ItemsLeft(v, items, 0, floats));
    failure := None;
  }

  method WriteMembers(v: Value, ms: Members, floats: Floats, out: Parts) returns (failure: Option<Failure>)
    requires MembersBelow(ms, v) && forall i :: 0 <= i < |ms| ==> AllScalars(ms[i].0)
    modifies out
    ensures failure == MembersProblem(v, ms, floats)
    ensures failure.None? ==> MembersAccepted(ms, floats)
    ensures failure.None?
      ==> Joined(out.parts) == Cat(old(Joined(out.parts)), Cons(0x7B, MembersLeft(v, ms, 0, floats)))
    decreases v, 0
  {
    MembersNoProblem(v, ms, floats);
    out.Append(OneChar(0x7B));
    ghost var start := Joined(out.parts);
    assert ms[0..] == ms;
    for i := 0 to |ms|
      invariant MembersProblem(v, ms, floats) == MembersProblem(v, ms[i..], floats)
      invariant MembersAccepted(ms, floats)
        ==> Cat(Joined(out.parts), MembersLeft(v, ms, i, floats)) == Cat(start, MembersLeft(v, ms, 0, floats))
    {
      ghost var before := Joined(out.parts);
      assert ms[i..][1..] == ms[i + 1..];
      if i > 0 { out.Append(OneChar(0x2C)); }
      failure := WriteString(ms[i].0, out);
      out.Append(OneChar(0x3A));
      failure := Write(ms[i].1, floats, out);
      if failure.Some? { return; }
      if MembersAccepted(ms, floats) {
        MemberParts(WithComma(before, i), ms[i], floats);
        MemberStep(v, ms, i, floats, before);
      }
    }
    out.Append(OneChar(0x7D));
    CatAssoc(old(Joined(out.parts)), OneChar(0x7B), MembersLeft(v, ms, 0, floats));
    failure := None;
  }

  /** `canonicalize`: the canonical bytes on the declared domain, and otherwise the exception. */
  method Canonicalize(v: Value, floats: Floats) returns (r: Outcome<Bytes>)
    ensures r.Ok? <==> Accepted(v, floats)
    ensures r.Ok? ==> r.value == CanonicalBytes(v, floats)
    ensures r.Raise? ==> Problem(v, floats) == Some(r.failure)
  {
    NoProblemIffAccepted(v, floats);
    var parts := new Parts();
    var failure := Write(v, floats, parts);
    if failure.Some? { return Raise(failure.value); }
    r := Ok(Utf8(Joined(parts.parts)));
  }
}
