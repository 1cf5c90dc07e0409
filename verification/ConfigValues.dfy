/** The admina.yaml checker value by value: what each Python value leaves under each node of the schema. */
module ConfigValues {
  import opened Texts
  import opened PyValues
  import opened ConfigSchema

  /** An integer that no double can hold, where a positive number is expected. */
  predicate TooLong(kind: Kind, v: Value, env: Env) { kind == PositiveKind && v.Int? && !env.fits(v.n) }

  /** The values that a scalar of this kind can have. */
  predicate Fits(kind: Kind, v: Value, env: Env) {
    match v
    case Bool(_) => kind == BoolKind
    case Int(n) => kind == IntKind || kind == NumberKind || (kind == PositiveKind && n > 0 && env.fits(n))
    case Float(Finite(repr)) =>
      kind == NumberKind || (kind == PositiveKind && !repr.neg && ReprValue(repr).coefficient > 0)
    case Float(_) => kind == NumberKind
    case Str(_) => kind == StrKind
    case _ => false
  }

  /** A scalar leaves no error exactly when it fits or is null; a positive number that is too long raises. */
  lemma ScalarByValue(kind: Kind, v: Value, path: Path, env: Env)
    ensures Find(Scalar(kind), v, path, env) ==
      if TooLong(kind, v, env) then OverflowError
      else if v == Null || Fits(kind, v, env) then Found([], [])
      else Found([MustBe(path, OfKind(kind))], [])
  {}

  /** The schema version: null, an integer, or a string of digits. */
  lemma VersionByValue(v: Value, path: Path, env: Env)
    ensures Find(Version, v, path, env) ==
      match v
      case Null => Found([], [])
      case Int(_) => Found([], [])
      case Str(text) => if env.isDigits(text) then Found([], []) else Found([MustBe(path, AnInteger)], [])
      case _ => Found([MustBe(path, AnInteger)], [])
  {}

  lemma {:induction false} FirstUnfit(kind: Kind, items: seq<Value>, n: nat, path: Path, item: Node, env: Env)
    requires n <= |items| && forall i :: 0 <= i < n ==> Fits(kind, items[i], env)
    requires n < |items| ==> !Fits(kind, items[n], env)
    ensures FindScalars(kind, items, path, item, env) ==
      if n == |items| then Found([], [])
      else if TooLong(kind, items[n], env) then OverflowError
      else Found([MustBe(path, AList(item))], [])
    decreases n
  {
    if n > 0 { FirstUnfit(kind, items[1..], n - 1, path, item, env); }
  }

  /** A list of scalars is decided by its first item that does not fit, null among them; a value that is no list,
      and not null, is one error. */
  lemma ListByValue(kind: Kind, v: Value, n: nat, path: Path, env: Env)
    requires v.List? ==> n <= |v.items| && forall i :: 0 <= i < n ==> Fits(kind, v.items[i], env)
    requires v.List? && n < |v.items| ==> !Fits(kind, v.items[n], env)
    ensures Find(ListOf(Scalar(kind)), v, path, env) ==
      if v == Null || (v.List? && n == |v.items|) then Found([], [])
      else if v.List? && TooLong(kind, v.items[n], env) then OverflowError
      else Found([MustBe(path, AList(Scalar(kind)))], [])
  {
    if v.List? { FirstUnfit(kind, v.items, n, path, Scalar(kind), env); }
  }

  /** A section and a map of one member: a key that the section does not have is unknown, and its value is not
      looked at. */
  lemma OneMember(node: Node, k: Key, v: Value, path: Path, env: Env)
    requires node.Section? || node.MapOf?
    ensures Find(node, Dict([(k, v)]), path, env) ==
      if node.MapOf? then Find(node.value, v, path + [At(k)], env)
      else if k.TextKey? && k.text in node.fields then Find(node.fields[k.text], v, path + [At(k)], env)
      else Found([], [path + [At(k)]])
  {
    var members := [(k, v)];
    assert members[1..] == [];
    assert FindMembers(node, [], path, env) == NOTHING;
    var f := FindMember(node, members[0], path + [At(k)], env);
    assert f.Found? ==> f.errors + [] == f.errors && f.unknown + [] == f.unknown;
  }

  lemma ThenAssoc(a: Found, b: Found, c: Found)
    ensures Then(Then(a, b), c) == Then(a, Then(b, c)) && Then(NOTHING, a) == a == Then(a, NOTHING)
  {
    if a.Found? {
      assert [] + a.errors == a.errors == a.errors + [] && [] + a.unknown == a.unknown == a.unknown + [];
    }
  }

  /** What two parts of a value leave, one after the other; it raises when one of them does. */
  predicate InTurn(a: Found, b: Found, both: Found) {
    if a.Found? && b.Found? then both == Found(a.errors + b.errors, a.unknown + b.unknown) else both == OverflowError
  }

  lemma {:induction false} MembersThen(node: Node, a: seq<(Key, Value)>, b: seq<(Key, Value)>, path: Path, env: Env)
    requires node.Section? || node.MapOf?
    ensures FindMembers(node, a + b, path, env)
         == Then(FindMembers(node, a, path, env), FindMembers(node, b, path, env))
    decreases |a|
  {
    var g := FindMembers(node, b, path, env);
    if a == [] {
      assert a + b == b;
      ThenAssoc(g, g, g);
    } else {
      var first := FindMember(node, a[0], path + [At(a[0].0)], env);
      assert (a + b)[0] == a[0] && (a + b)[1..] == a[1..] + b;
      MembersThen(node, a[1..], b, path, env);
      ThenAssoc(first, FindMembers(node, a[1..], path, env), g);
    }
  }

  /** The problems of a section or a map are those of its members, in order. */
  lemma MembersInOrder(node: Node, a: seq<(Key, Value)>, b: seq<(Key, Value)>, path: Path, env: Env)
    requires node.Section? || node.MapOf?
    ensures InTurn(Find(node, Dict(a), path, env), Find(node, Dict(b), path, env), Find(node, Dict(a + b), path, env))
  {
    MembersThen(node, a, b, path, env);
  }

  /** A value that is no mapping, and not null, is one error of a section or a map. */
  lemma NoMapping(node: Node, v: Value, path: Path, env: Env)
    requires (node.Section? || node.MapOf?) && !v.Dict?
    ensures Find(node, v, path, env) == if v == Null then Found([], []) else Found([MustBe(path, AMapping)], [])
  {}

  /** The values of a block with its own reader are not checked, its unknown keys are. */
  lemma OwnReaderByValue(node: Node, v: Value, path: Path, env: Env)
    ensures var inner := Find(node, v, path, env);
            Find(OwnReader(node), v, path, env) == if inner.Found? then Found([], inner.unknown) else OverflowError
  {}

  /** A list of sections with an item that is no mapping is one error; otherwise the items are checked in order. */
  lemma ListInOrder(item: Node, items: seq<Value>, path: Path, env: Env)
    requires !item.Scalar?
    ensures Find(ListOf(item), List(items), path, env) ==
      if item.Section? && exists i :: 0 <= i < |items| && !items[i].Dict?
      then Found([MustBe(path, AList(item))], []) else FindItems(item, items, 0, path, env)
  {}

  /** One item, at its index. */
  lemma OneItem(item: Node, v: Value, index: nat, path: Path, env: Env)
    ensures FindItems(item, [v], index, path, env) == Find(item, v, path + [Index(index)], env)
  {
    var f := Find(item, v, path + [Index(index)], env);
    assert [v][1..] == [] && FindItems(item, [], index + 1, path, env) == NOTHING;
    ThenAssoc(f, f, f);
  }

  lemma {:induction false} ItemsThen(item: Node, a: seq<Value>, b: seq<Value>, index: nat, path: Path, env: Env)
    ensures FindItems(item, a + b, index, path, env)
         == Then(FindItems(item, a, index, path, env), FindItems(item, b, index + |a|, path, env))
    decreases |a|
  {
    var g := FindItems(item, b, index + |a|, path, env);
    if a == [] {
      assert a + b == b;
      ThenAssoc(g, g, g);
    } else {
      var first := Find(item, a[0], path + [Index(index)], env);
      assert (a + b)[0] == a[0] && (a + b)[1..] == a[1..] + b;
      ItemsThen(item, a[1..], b, index + 1, path, env);
      ThenAssoc(first, FindItems(item, a[1..], index + 1, path, env), g);
    }
  }

  /** The problems of the items of a list are those of each item, in order. */
  lemma ItemsInOrder(item: Node, a: seq<Value>, b: seq<Value>, index: nat, path: Path, env: Env)
    ensures InTurn(FindItems(item, a, index, path, env), FindItems(item, b, index + |a|, path, env),
                   FindItems(item, a + b, index, path, env))
  {
    ItemsThen(item, a, b, index, path, env);
  }
}
