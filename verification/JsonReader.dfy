/** A reader of JSON texts (RFC 8259): it gives the printer's output its meaning. */
module JsonReader {
  import opened Texts
  import opened JcsNumber
  import opened JcsString

  datatype Token =
    | NullToken | TrueToken | FalseToken
    | StringToken(text: Text)
    | NumberToken(decimal: Decimal)
    | OpenArray | CloseArray | OpenObject | CloseObject | Comma | Colon

  datatype Json =
    | JNull
    | JBool(b: bool)
    | JNumber(d: Decimal)
    | JString(text: Text)
    | JArray(items: seq<Json>)
    | JObject(members: map<Text, Json>)

  // ----- From text to tokens

  predicate IsBlank(c: int) { c == 0x20 || c == 0x09 || c == 0x0A || c == 0x0D }

  predicate Word(t: Text, a: int, b: int, c: int) {
    StartsWith(t, a) && StartsWith(t.tail, b) && StartsWith(t.tail.tail, c)
  }

  datatype TokenRead = NoToken | TokenRead(token: Token, rest: Text)

  /** The token at the start of `t`, which does not start with a blank. */
  function ReadToken(t: Text): (r: TokenRead)
    ensures r.TokenRead? ==> Len(r.rest) < Len(t)
  {
    if t.Nil? then NoToken
    else if t.head == 0x5B then TokenRead(OpenArray, t.tail)
    else if t.head == 0x5D then TokenRead(CloseArray, t.tail)
    else if t.head == 0x7B then TokenRead(OpenObject, t.tail)
    else if t.head == 0x7D then TokenRead(CloseObject, t.tail)
    else if t.head == 0x2C then TokenRead(Comma, t.tail)
    else if t.head == 0x3A then TokenRead(Colon, t.tail)
    else if t.head == QUOTE then
      var s := ReadString(t.tail);
      if s.BadString? then NoToken else TokenRead(StringToken(s.text), s.rest)
    else if t.head == 0x6E && Word(t.tail, 0x75, 0x6C, 0x6C) then ShortWord(t, NullToken)
    else if t.head == 0x74 && Word(t.tail, 0x72, 0x75, 0x65) then ShortWord(t, TrueToken)
    else if t.head == 0x66 && StartsWith(t.tail, 0x61) && Word(t.tail.tail, 0x6C, 0x73, 0x65) then
      var tail := ShortWord(t.tail, FalseToken);
      assert Len(t) == 1 + Len(t.tail);
      tail
    else
      var n := ReadNumber(t);
      ReadNumberShrinks(t);
      if n.NoNumber? then NoToken else TokenRead(NumberToken(Normal(n.decimal)), n.rest)
  }

  function ShortWord(t: Text, token: Token): (r: TokenRead)
    requires t.Cons? && t.tail.Cons? && t.tail.tail.Cons? && t.tail.tail.tail.Cons?
    ensures r == TokenRead(token, t.tail.tail.tail.tail) && Len(r.rest) < Len(t)
  {
    assert Len(t) == 2 + Len(t.tail.tail) && Len(t.tail.tail) == 2 + Len(t.tail.tail.tail.tail);
    TokenRead(token, t.tail.tail.tail.tail)
  }

  function Lex(t: Text): Option<List<Token>>
    decreases Len(t)
  {
    if t.Nil? then Some(Nil)
    else if IsBlank(t.head) then Lex(t.tail)
    else
      var first := ReadToken(t);
      if first.NoToken? then None else
        var rest := Lex(first.rest);
        if rest.None? then None else Some(Cons(first.token, rest.value))
  }

  // ----- From tokens to values

  datatype ValueRead = NoValue | ValueRead(value: Json, rest: List<Token>)
  datatype ItemsRead = NoItems | ItemsRead(items: seq<Json>, rest: List<Token>)
  datatype MembersRead = NoMembers | MembersRead(members: map<Text, Json>, rest: List<Token>)

  function ReadValue(ks: List<Token>): (r: ValueRead)
    ensures r.ValueRead? ==> Len(r.rest) < Len(ks)
    decreases Len(ks), 1
  {
    match ks
    case Nil => NoValue
    case Cons(k, tail) =>
      match k
      case NullToken => ValueRead(JNull, tail)
      case TrueToken => ValueRead(JBool(true), tail)
      case FalseToken => ValueRead(JBool(false), tail)
      case StringToken(t) => ValueRead(JString(t), tail)
      case NumberToken(d) => ValueRead(JNumber(d), tail)
      case OpenArray =>
        if tail.Cons? && tail.head.CloseArray? then ValueRead(JArray([]), tail.tail)
        else
          var items := ReadItems(tail);
          if items.NoItems? then NoValue else ValueRead(JArray(items.items), items.rest)
      case OpenObject =>
        if tail.Cons? && tail.head.CloseObject? then ValueRead(JObject(map[]), tail.tail)
        else
          var members := ReadMembers(tail);
          if members.NoMembers? then NoValue else ValueRead(JObject(members.members), members.rest)
      case _ => NoValue
  }

  /** The items of an array that is not empty, up to its closing bracket. */
  function ReadItems(ks: List<Token>): (r: ItemsRead)
    ensures r.ItemsRead? ==> Len(r.rest) < Len(ks)
    decreases Len(ks), 2
  {
    var first := ReadValue(ks);
    if first.NoValue? || first.rest.Nil? then NoItems
    else if first.rest.head.CloseArray? then ItemsRead([first.value], first.rest.tail)
    else if first.rest.head.Comma? then
      var more := ReadItems(first.rest.tail);
      if more.NoItems? then NoItems else ItemsRead([first.value] + more.items, more.rest)
    else NoItems
  }

  /** The members of an object that is not empty, up to its closing brace; names are unique. */
  function ReadMembers(ks: List<Token>): (r: MembersRead)
    ensures r.MembersRead? ==> Len(r.rest) < Len(ks)
    decreases Len(ks), 2
  {
    if !(ks.Cons? && ks.head.StringToken? && ks.tail.Cons? && ks.tail.head.Colon?) then NoMembers
    else
      var name := ks.head.text;
      assert Len(ks) == 2 + Len(ks.tail.tail);
      var first := ReadValue(ks.tail.tail);
      if first.NoValue? || first.rest.Nil? then NoMembers
      else if first.rest.head.CloseObject? then MembersRead(map[name := first.value], first.rest.tail)
      else if first.rest.head.Comma? then
        var more := ReadMembers(first.rest.tail);
        if more.NoMembers? || name in more.members then NoMembers
        else MembersRead(more.members[name := first.value], more.rest)
      else NoMembers
  }

  /** The value of a JSON text in UTF-8. */
  function ReadJson(bytes: Bytes): Option<Json> {
    var text := ReadUtf8(bytes);
    if text.None? then None else
      var tokens := Lex(text.value);
      if tokens.None? then None else
        var r := ReadValue(tokens.value);
        if r.ValueRead? && r.rest.Nil? then Some(r.value) else None
  }
}
