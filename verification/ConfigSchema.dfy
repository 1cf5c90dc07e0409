/** The admina.yaml schema checker (`find_problems`, `_check`, `_check_list`) and the typing relation it decides. */
module ConfigSchema {
  import opened Texts
  import opened PyValues

  datatype Kind = BoolKind | IntKind | NumberKind | PositiveKind | StrKind

  datatype Node =
    | Scalar(kind: Kind)
    | AnyNode
    | Version
    | Section(fields: map<Text, Node>)
    | MapOf(value: Node)
    | OwnReader(node: Node)
    | ListOf(item: Node)

  /** Two library answers: whether a double can hold an integer's magnitude, and whether
      `text.strip().isdigit()`. */
  datatype Env = Env(fits: int -> bool, isDigits: Text -> bool)

  // ----- Scalars

  predicate PositiveDouble(d: Double) { d.Finite? && !d.repr.neg && DigitsValue(d.repr.digits) > 0 }

  /** `math.isfinite` of an integer outside the range of a double raises OverflowError. */
  predicate AcceptRaises(kind: Kind, v: Value, env: Env) { kind.PositiveKind? && v.Int? && !env.fits(v.n) }

  /** `_Scalar.accepts`, where it returns. */
  predicate Accepts(kind: Kind, v: Value) {
    match kind
    case BoolKind => v.Bool?
    case IntKind => v.Int?
    case NumberKind => v.Int? || v.Float?
    case PositiveKind => (v.Int? && v.n > 0) || (v.Float? && PositiveDouble(v.d))
    case StrKind => v.Str?
  }

  predicate IsVersion(v: Value, env: Env) { v.Int? || (v.Str? && env.isDigits(v.text)) }

  // ----- The typing relation

  predicate InFields(k: Key, fields: map<Text, Node>) { k.TextKey? && k.text in fields }

  /** Null has every type, except inside a list of scalars or of sections; the values of a block with a
      reader of its own are not typed here. */
  predicate Typed(node: Node, v: Value, env: Env)
    decreases v, node
  {
    v.Null? || match node
      case AnyNode => true
      case OwnReader(_) => true
      case Version => IsVersion(v, env)
      case Scalar(kind) => Accepts(kind, v)
      case ListOf(item) => v.List? && forall i :: 0 <= i < |v.items| ==>
          if item.Scalar? then Accepts(item.kind, v.items[i])
          else (item.Section? ==> v.items[i].Dict?) && Typed(item, v.items[i], env)
      case Section(fields) => v.Dict? && forall i :: 0 <= i < |v.members| && InFields(v.members[i].0, fields) ==>
          assert (v decreases to v.members[i]); Typed(fields[v.members[i].0.text], v.members[i].1, env)
      case MapOf(value) => v.Dict? && forall i :: 0 <= i < |v.members| ==>
          assert (v decreases to v.members[i]); Typed(value, v.members[i].1, env)
  }

  // ----- Problems

  datatype Step = At(key: Key) | Index(i: nat)
  type Path = seq<Step>

  datatype Expected = OfKind(kind: Kind) | AnInteger | AList(of: Node) | AMapping
  datatype Error = MustBe(path: Path, expected: Expected)

  datatype Found = Found(errors: seq<Error>, unknown: seq<Path>) | OverflowError

  const NOTHING := Found([], [])

  function OneError(path: Path, expected: Expected): Found { Found([MustBe(path, expected)], []) }

  function Then(a: Found, b: Found): Found {
    if a.OverflowError? || b.OverflowError? then OverflowError else Found(a.errors + b.errors, a.unknown + b.unknown)
  }

  function WithoutErrors(f: Found): Found { if f.Found? then f.(errors := []) else f }

  function Find(node: Node, v: Value, path: Path, env: Env): Found
    decreases v, node
  {
    if v.Null? || node.AnyNode? then NOTHING
    else match node
      case OwnReader(inner) => WithoutErrors(Find(inner, v, path, env))
      case Version => if IsVersion(v, env) then NOTHING else OneError(path, AnInteger)
      case Scalar(kind) =>
        if AcceptRaises(kind, v, env) then OverflowError
        else if Accepts(kind, v) then NOTHING else OneError(path, OfKind(kind))
      case ListOf(item) =>
        if !v.List? then OneError(path, AList(item))
        else if item.Scalar? then FindScalars(item.kind, v.items, path, item, env)
        else if item.Section? && !AllDicts(v.items) then OneError(path, AList(item))
        else FindItems(item, v.items, 0, path, env)
      case Section(_) => if !v.Dict? then OneError(path, AMapping) else FindMembers(node, v.members, path, env)
      case MapOf(_) => if !v.Dict? then OneError(path, AMapping) else FindMembers(node, v.members, path, env)
  }

  predicate AllDicts(items: seq<Value>) { forall i :: 0 <= i < |items| ==> items[i].Dict? }

  /** `all(accepts(item))`, which stops at the first item that is not accepted. */
  function FindScalars(kind: Kind, items: seq<Value>, path: Path, item: Node, env: Env): Found {
    if items == [] then NOTHING
    else if AcceptRaises(kind, items[0], env) then OverflowError
    else if Accepts(kind, items[0]) then FindScalars(kind, items[1..], path, item, env)
    else OneError(path, AList(item))
  }

  function FindItems(item: Node, items: seq<Value>, index: nat, path: Path, env: Env): Found
    decreases items, item
  {
    if items == [] then NOTHING
    else Then(Find(item, items[0], path + [Index(index)], env), FindItems(item, items[1..], index + 1, path, env))
  }

  function FindMembers(node: Node, members: seq<(Key, Value)>, path: Path, env: Env): Found
    requires node.Section? || node.MapOf?
    decreases members, node
  {
    if members == [] then NOTHING
    else
      assert (members decreases to members[0]);
      Then(FindMember(node, members[0], path + [At(members[0].0)], env), FindMembers(node, members[1..], path, env))
  }

  function FindMember(node: Node, m: (Key, Value), where: Path, env: Env): Found
    requires node.Section? || node.MapOf?
    decreases m, node
  {
    if node.MapOf? then Find(node.value, m.1, where, env)
    else if InFields(m.0, node.fields) then Find(node.fields[m.0.text], m.1, where, env)
    else Found([], [where])
  }

  // ----- The checker, as it runs

  function Kept(f: Found, types: bool): seq<Error>
    requires f.Found?
  {
    if types then f.errors else []
  }

  lemma RegroupFound(errors: seq<Error>, unknown: seq<Path>, a: Found, b: Found, types: bool)
    ensures a.Found? && b.Found? ==>
      (errors + Kept(a, types)) + Kept(b, types) == errors + Kept(Then(a, b), types)
      && (unknown + a.unknown) + b.unknown == unknown + Then(a, b).unknown
  {}

  class SchemaProblems {
    var errors: seq<Error>
    var unknown: seq<Path>

    constructor ()
      ensures errors == [] && unknown == []
    {
      errors, unknown := [], [];
    }

    /** The lists after a check that found `f`; with `types` false its errors go nowhere. */
    twostate predicate Added(f: Found, types: bool)
      reads this
    {
      f.Found? && errors == old(errors) + Kept(f, types) && unknown == old(unknown) + f.unknown
    }

    method AddError(path: Path, expected: Expected, types: bool)
      modifies this`errors
      ensures Added(OneError(path, expected), types)
    {
      if types { errors := errors + [MustBe(path, expected)]; }
    }

    method Check(node: Node, v: Value, path: Path, types: bool, env: Env) returns (raised: bool)
      modifies this
      ensures raised <==> Find(node, v, path, env).OverflowError?
      ensures !raised ==> Added(Find(node, v, path, env), types)
      decreases v, node
    {
      raised := false;
      if v.Null? || node.AnyNode? { return; }
      match node
      case OwnReader(inner) => raised := Check(inner, v, path, false, env);
      case Version => if !IsVersion(v, env) { AddError(path, AnInteger, types); }
      case Scalar(kind) =>
        if AcceptRaises(kind, v, env) { return true; }
        if !Accepts(kind, v) { AddError(path, OfKind(kind), types); }
      case ListOf(item) =>
        if !v.List? {
          AddError(path, AList(item), types);
        } else {
          raised := CheckList(item, v.items, path, types, env);
        }
      case Section(_) =>
        if !v.Dict? {
          AddError(path, AMapping, types);
        } else {
          raised := CheckMembers(node, v.members, path, types, env);
        }
      case MapOf(_) =>
        if !v.Dict? {
          AddError(path, AMapping, types);
        } else {
          raised := CheckMembers(node, v.members, path, types, env);
        }
    }

    method CheckMembers(node: Node, members: seq<(Key, Value)>, path: Path, types: bool, env: Env)
      returns (raised: bool)
      requires node.Section? || node.MapOf?
      modifies this
      ensures raised <==> FindMembers(node, members, path, env).OverflowError?
      ensures !raised ==> Added(FindMembers(node, members, path, env), types)
      decreases members, node
    {
      ghost var all := FindMembers(node, members, path, env);
      for i := 0 to |members|
        invariant Remaining(all, FindMembers(node, members[i..], path, env), old(errors), old(unknown), types)
      {
        assert (members decreases to members[i]);
        assert members[i..][1..] == members[i + 1..];
        RegroupFound(errors, unknown, FindMember(node, members[i], path + [At(members[i].0)], env),
                     FindMembers(node, members[i + 1..], path, env), types);
        raised := CheckMember(node, members[i], path + [At(members[i].0)], types, env);
        if raised { return; }
      }
      raised := false;
    }

    method CheckMember(node: Node, m: (Key, Value), where: Path, types: bool, env: Env) returns (raised: bool)
      requires node.Section? || node.MapOf?
      modifies this
      ensures raised <==> FindMember(node, m, where, env).OverflowError?
      ensures !raised ==> Added(FindMember(node, m, where, env), types)
      decreases m, node
    {
      if node.MapOf? {
        raised := Check(node.value, m.1, where, types, env);
      } else if InFields(m.0, node.fields) {
        raised := Check(node.fields[m.0.text], m.1, where, types, env);
      } else {
        unknown := unknown + [where];
        raised := false;
      }
    }

    /** What was added and what is still to be found make up `all`. */
    ghost predicate Remaining(all: Found, rest: Found, errors0: seq<Error>, unknown0: seq<Path>, types: bool)
      reads this
    {
      (all.OverflowError? <==> rest.OverflowError?)
      && (rest.Found? && all.Found? ==>
            errors + Kept(rest, types) == errors0 + Kept(all, types)
            && unknown + rest.unknown == unknown0 + all.unknown)
    }

    method CheckList(item: Node, items: seq<Value>, path: Path, types: bool, env: Env) returns (raised: bool)
      modifies this
      ensures var f := if item.Scalar? then FindScalars(item.kind, items, path, item, env)
                       else if item.Section? && !AllDicts(items) then OneError(path, AList(item))
                       else FindItems(item, items, 0, path, env);
              (raised <==> f.OverflowError?) && (!raised ==> Added(f, types))
      decreases items, item
    {
      if item.Scalar? {
        for i := 0 to |items|
          invariant errors == old(errors) && unknown == old(unknown)
          invariant FindScalars(item.kind, items, path, item, env)
            == FindScalars(item.kind, items[i..], path, item, env)
        {
          assert items[i..][1..] == items[i + 1..];
          if AcceptRaises(item.kind, items[i], env) { return true; }
          if !Accepts(item.kind, items[i]) {
            AddError(path, AList(item), types);
            return false;
          }
        }
        return false;
      }
      if item.Section? && !AllDicts(items) {
        AddError(path, AList(item), types);
        return false;
      }
      ghost var all := FindItems(item, items, 0, path, env);
      for i := 0 to |items|
        invariant Remaining(all, FindItems(item, items[i..], i, path, env), old(errors), old(unknown), types)
      {
        assert items[i..][1..] == items[i + 1..];
        RegroupFound(errors, unknown, Find(item, items[i], path + [Index(i)], env),
                     FindItems(item, items[i + 1..], i + 1, path, env), types);
        raised := Check(item, items[i], path + [Index(i)], types, env);
        if raised { return; }
      }
      raised := false;
    }
  }

  // ----- No error exactly when the value is typed

  lemma {:induction false} NoErrorIffTyped(node: Node, v: Value, path: Path, env: Env)
    requires Find(node, v, path, env).Found?
    ensures Find(node, v, path, env).errors == [] <==> Typed(node, v, env)
    decreases v, node
  {
    if !v.Null? {
      match node
      case ListOf(item) =>
        if v.List? {
          if item.Scalar? { ScalarsNoError(item.kind, v.items, path, item, env); }
          else if !item.Section? || AllDicts(v.items) { ItemsNoError(item, v.items, 0, path, env); }
        }
      case Section(_) => if v.Dict? { MembersNoError(node, v.members, path, env); }
      case MapOf(_) => if v.Dict? { MembersNoError(node, v.members, path, env); }
      case _ =>
    }
  }

  lemma {:induction false} ScalarsNoError(kind: Kind, items: seq<Value>, path: Path, item: Node, env: Env)
    requires FindScalars(kind, items, path, item, env).Found?
    ensures FindScalars(kind, items, path, item, env).errors == []
      <==> forall i :: 0 <= i < |items| ==> Accepts(kind, items[i])
    ensures FindScalars(kind, items, path, item, env).unknown == []
  {
    if items != [] && Accepts(kind, items[0]) {
      ScalarsNoError(kind, items[1..], path, item, env);
      assert items == [items[0]] + items[1..];
    }
  }

  ghost predicate AllTyped(item: Node, items: seq<Value>, env: Env) {
    forall i :: 0 <= i < |items| ==> Typed(item, items[i], env)
  }

  lemma {:induction false} ItemsNoError(item: Node, items: seq<Value>, index: nat, path: Path, env: Env)
    requires FindItems(item, items, index, path, env).Found?
    ensures FindItems(item, items, index, path, env).errors == [] <==> AllTyped(item, items, env)
    decreases items, item
  {
    if items != [] {
      NoErrorIffTyped(item, items[0], path + [Index(index)], env);
      ItemsNoError(item, items[1..], index + 1, path, env);
      assert items == [items[0]] + items[1..];
    }
  }

  ghost predicate MemberTyped(node: Node, m: (Key, Value), env: Env)
    requires node.Section? || node.MapOf?
  {
    if node.MapOf? then Typed(node.value, m.1, env)
    else InFields(m.0, node.fields) ==> Typed(node.fields[m.0.text], m.1, env)
  }

  ghost predicate MembersTyped(node: Node, members: seq<(Key, Value)>, env: Env)
    requires node.Section? || node.MapOf?
  {
    forall i :: 0 <= i < |members| ==> MemberTyped(node, members[i], env)
  }

  lemma {:induction false} MembersNoError(node: Node, members: seq<(Key, Value)>, path: Path, env: Env)
    requires (node.Section? || node.MapOf?) && FindMembers(node, members, path, env).Found?
    ensures FindMembers(node, members, path, env).errors == [] <==> MembersTyped(node, members, env)
    decreases members, node
  {
    if members != [] {
      assert (members decreases to members[0]);
      var m, where := members[0], path + [At(members[0].0)];
      if node.MapOf? { NoErrorIffTyped(node.value, m.1, where, env); }
      else if InFields(m.0, node.fields) { NoErrorIffTyped(node.fields[m.0.text], m.1, where, env); }
      MembersNoError(node, members[1..], path, env);
      assert members == [members[0]] + members[1..];
    }
  }

  // ----- When the checker raises

  /** A positive-number field holds an integer no double can hold; in a list of them, before any value
      that is not accepted. */
  ghost predicate Overflows(node: Node, v: Value, env: Env)
    decreases v, node
  {
    !v.Null? && match node
      case AnyNode => false
      case Version => false
      case OwnReader(inner) => Overflows(inner, v, env)
      case Scalar(kind) => AcceptRaises(kind, v, env)
      case ListOf(item) =>
        v.List? && (item.Section? ==> AllDicts(v.items)) && (
          if item.Scalar? then exists i: nat :: ScalarOverflowsAt(item.kind, v.items, env, i)
          else exists i :: 0 <= i < |v.items| && Overflows(item, v.items[i], env))
      case Section(fields) =>
        v.Dict? && exists i ::
          0 <= i < |v.members| && InFields(v.members[i].0, fields) && (
          assert (v decreases to v.members[i]);
          Overflows(fields[v.members[i].0.text], v.members[i].1, env))
      case MapOf(value) =>
        v.Dict? && exists i ::
          0 <= i < |v.members| && (
          assert (v decreases to v.members[i]);
          Overflows(value, v.members[i].1, env))
  }

  ghost predicate ScalarOverflowsAt(kind: Kind, items: seq<Value>, env: Env, i: nat) {
    i < |items| && AcceptRaises(kind, items[i], env) && AllAccepted(kind, items[..i])
  }

  predicate AllAccepted(kind: Kind, items: seq<Value>) { forall i :: 0 <= i < |items| ==> Accepts(kind, items[i]) }

  lemma {:induction false} RaisesIffOverflows(node: Node, v: Value, path: Path, env: Env)
    ensures Find(node, v, path, env).OverflowError? <==> Overflows(node, v, env)
    decreases v, node
  {
    if !v.Null? {
      match node
      case OwnReader(inner) => RaisesIffOverflows(inner, v, path, env);
      case ListOf(item) =>
        if v.List? {
          if item.Scalar? { ScalarsRaise(item.kind, v.items, path, item, env); }
          else if !item.Section? || AllDicts(v.items) { ItemsRaise(item, v.items, 0, path, env); }
        }
      case Section(_) => if v.Dict? { MembersRaise(node, v.members, path, env); }
      case MapOf(_) => if v.Dict? { MembersRaise(node, v.members, path, env); }
      case _ =>
    }
  }

  lemma {:induction false} ScalarsRaise(kind: Kind, items: seq<Value>, path: Path, item: Node, env: Env)
    requires item.Scalar? && item.kind == kind
    ensures FindScalars(kind, items, path, item, env).OverflowError?
      <==> exists i: nat :: ScalarOverflowsAt(kind, items, env, i)
  {
    if items == [] {
    } else if AcceptRaises(kind, items[0], env) {
      assert ScalarOverflowsAt(kind, items, env, 0);
    } else if Accepts(kind, items[0]) {
      ScalarsRaise(kind, items[1..], path, item, env);
      if i: nat :| ScalarOverflowsAt(kind, items[1..], env, i) {
        assert items[..i + 1] == [items[0]] + items[1..][..i];
        assert ScalarOverflowsAt(kind, items, env, i + 1);
      }
      if i: nat :| ScalarOverflowsAt(kind, items, env, i) {
        assert i > 0;
        assert items[1..][..i - 1] == items[1..i];
        forall j | 0 <= j < i - 1 ensures Accepts(kind, items[1..i][j]) { assert items[..i][j + 1] == items[1..i][j]; }
        assert ScalarOverflowsAt(kind, items[1..], env, i - 1);
      }
    } else {
      forall i: nat ensures !ScalarOverflowsAt(kind, items, env, i) {
        if 0 < i <= |items| { assert items[..i][0] == items[0]; }
      }
    }
  }

  ghost predicate SomeOverflows(item: Node, items: seq<Value>, env: Env) {
    exists i :: 0 <= i < |items| && Overflows(item, items[i], env)
  }

  lemma {:induction false} ItemsRaise(item: Node, items: seq<Value>, index: nat, path: Path, env: Env)
    ensures FindItems(item, items, index, path, env).OverflowError? <==> SomeOverflows(item, items, env)
    decreases items, item
  {
    if items != [] {
      RaisesIffOverflows(item, items[0], path + [Index(index)], env);
      ItemsRaise(item, items[1..], index + 1, path, env);
      if SomeOverflows(item, items[1..], env) {
        var i :| 0 <= i < |items[1..]| && Overflows(item, items[1..][i], env);
        assert items[i + 1] == items[1..][i];
      }
    }
  }

  ghost predicate MemberOverflows(node: Node, m: (Key, Value), env: Env)
    requires node.Section? || node.MapOf?
  {
    if node.MapOf? then Overflows(node.value, m.1, env)
    else InFields(m.0, node.fields) && Overflows(node.fields[m.0.text], m.1, env)
  }

  ghost predicate SomeMemberOverflows(node: Node, members: seq<(Key, Value)>, env: Env)
    requires node.Section? || node.MapOf?
  {
    exists i :: 0 <= i < |members| && MemberOverflows(node, members[i], env)
  }

  lemma {:induction false} MembersRaise(node: Node, members: seq<(Key, Value)>, path: Path, env: Env)
    requires node.Section? || node.MapOf?
    ensures FindMembers(node, members, path, env).OverflowError? <==> SomeMemberOverflows(node, members, env)
    decreases members, node
  {
    if members != [] {
      assert (members decreases to members[0]);
      var m, where := members[0], path + [At(members[0].0)];
      if node.MapOf? { RaisesIffOverflows(node.value, m.1, where, env); }
      else if InFields(m.0, node.fields) { RaisesIffOverflows(node.fields[m.0.text], m.1, where, env); }
      MembersRaise(node, members[1..], path, env);
      if SomeMemberOverflows(node, members[1..], env) {
        var i :| 0 <= i < |members[1..]| && MemberOverflows(node, members[1..][i], env);
        assert members[i + 1] == members[1..][i];
      }
    }
  }

  /** No double reaches 10^309: as a positive number it makes the checker raise, as a plain one it does not. */
  lemma OverflowExample(env: Env)
    requires !env.fits(ScaleUp(1, 309))
    ensures var v := Int(ScaleUp(1, 309));
            Find(ListOf(Scalar(PositiveKind)), List([v]), [], env).OverflowError?
            && Find(ListOf(Scalar(NumberKind)), List([v]), [], env) == NOTHING
  {
    var v := Int(ScaleUp(1, 309));
    assert [v][0] == v && [v][1..] == [];
    assert FindScalars(NumberKind, [], [], Scalar(NumberKind), env) == NOTHING;
    assert Accepts(NumberKind, v) && !AcceptRaises(NumberKind, v, env);
  }

  // ----- Which keys are reported unknown

  /** The key at the end of `rel`, from `v` down, is in no section. */
  predicate UnknownAt(node: Node, v: Value, rel: Path)
    decreases v, node
  {
    !v.Null? && match node
      case AnyNode => false
      case Version => false
      case Scalar(_) => false
      case OwnReader(inner) => UnknownAt(inner, v, rel)
      case ListOf(item) =>
        v.List? && !item.Scalar? && (item.Section? ==> AllDicts(v.items))
        && rel != [] && rel[0].Index? && rel[0].i < |v.items| && UnknownAt(item, v.items[rel[0].i], rel[1..])
      case Section(fields) =>
        v.Dict? && rel != [] && exists i ::
          0 <= i < |v.members| && rel[0] == At(v.members[i].0) && (
          if InFields(v.members[i].0, fields)
          then assert (v decreases to v.members[i]); UnknownAt(fields[v.members[i].0.text], v.members[i].1, rel[1..])
          else |rel| == 1)
      case MapOf(value) =>
        v.Dict? && rel != [] && exists i ::
          0 <= i < |v.members| && rel[0] == At(v.members[i].0) && (
          assert (v decreases to v.members[i]);
          UnknownAt(value, v.members[i].1, rel[1..]))
  }

  /** The reported keys are the unknown ones, at their paths. */
  lemma {:induction false} UnknownExactly(node: Node, v: Value, path: Path, env: Env, p: Path)
    requires Find(node, v, path, env).Found?
    ensures p in Find(node, v, path, env).unknown <==> path <= p && UnknownAt(node, v, p[|path|..])
    decreases v, node
  {
    if !v.Null? {
      match node
      case OwnReader(inner) => UnknownExactly(inner, v, path, env, p);
      case ListOf(item) =>
        if v.List? {
          if item.Scalar? { ScalarsNoError(item.kind, v.items, path, item, env); }
          else if !item.Section? || AllDicts(v.items) { ItemsUnknown(item, v.items, 0, path, env, p); }
        }
      case Section(_) => if v.Dict? { MembersUnknown(node, v.members, path, env, p); }
      case MapOf(_) => if v.Dict? { MembersUnknown(node, v.members, path, env, p); }
      case _ =>
    }
  }

  /** `p` goes down from `path` by `step`. */
  lemma StepDown(path: Path, step: Step, p: Path)
    ensures path + [step] <= p <==> path <= p && |p| > |path| && p[|path|] == step
    ensures path + [step] <= p ==> p[|path + [step]|..] == p[|path|..][1..] && p[|path|..][0] == step
  {
    if path <= p && |p| > |path| && p[|path|] == step { assert p[..|path| + 1] == path + [step]; }
    if path + [step] <= p { assert p[..|path|] == path && p[|path|] == (path + [step])[|path|]; }
  }

  ghost predicate ItemUnknownAt(item: Node, items: seq<Value>, index: nat, path: Path, p: Path) {
    path <= p && |p| > |path| && p[|path|].Index? && index <= p[|path|].i < index + |items|
    && UnknownAt(item, items[p[|path|].i - index], p[|path| + 1..])
  }

  lemma {:induction false} ItemsUnknown(item: Node, items: seq<Value>, index: nat, path: Path, env: Env, p: Path)
    requires FindItems(item, items, index, path, env).Found?
    ensures p in FindItems(item, items, index, path, env).unknown <==> ItemUnknownAt(item, items, index, path, p)
    decreases items, item
  {
    if items != [] {
      UnknownExactly(item, items[0], path + [Index(index)], env, p);
      StepDown(path, Index(index), p);
      ItemsUnknown(item, items[1..], index + 1, path, env, p);
      if path <= p && |p| > |path| { assert p[|path|..][1..] == p[|path| + 1..]; }
    }
  }

  ghost predicate MemberUnknownAt(node: Node, m: (Key, Value), path: Path, p: Path)
    requires node.Section? || node.MapOf?
  {
    path <= p && |p| > |path| && p[|path|] == At(m.0) &&
    if node.MapOf? then UnknownAt(node.value, m.1, p[|path| + 1..])
    else if InFields(m.0, node.fields) then UnknownAt(node.fields[m.0.text], m.1, p[|path| + 1..])
    else |p| == |path| + 1
  }

  lemma {:induction false} MembersUnknown(node: Node, members: seq<(Key, Value)>, path: Path, env: Env, p: Path)
    requires (node.Section? || node.MapOf?) && FindMembers(node, members, path, env).Found?
    ensures p in FindMembers(node, members, path, env).unknown
      <==> exists i :: 0 <= i < |members| && MemberUnknownAt(node, members[i], path, p)
    decreases members, node
  {
    if members != [] {
      assert (members decreases to members[0]);
      MemberUnknown(node, members[0], path, env, p);
      MembersUnknown(node, members[1..], path, env, p);
      if i :| 0 <= i < |members[1..]| && MemberUnknownAt(node, members[1..][i], path, p) {
        assert members[i + 1] == members[1..][i];
      }
      if i :| 0 <= i < |members| && MemberUnknownAt(node, members[i], path, p) {
        if i > 0 { assert members[1..][i - 1] == members[i]; }
      }
    }
  }

  lemma {:induction false} MemberUnknown(node: Node, m: (Key, Value), path: Path, env: Env, p: Path)
    requires (node.Section? || node.MapOf?) && FindMember(node, m, path + [At(m.0)], env).Found?
    ensures p in FindMember(node, m, path + [At(m.0)], env).unknown <==> MemberUnknownAt(node, m, path, p)
    decreases m, node
  {
    var where := path + [At(m.0)];
    StepDown(path, At(m.0), p);
    if path <= p && |p| > |path| { assert p[|path|..][1..] == p[|path| + 1..]; }
    if node.MapOf? { UnknownExactly(node.value, m.1, where, env, p); }
    else if InFields(m.0, node.fields) { UnknownExactly(node.fields[m.0.text], m.1, where, env, p); }
    else if where <= p && |p| == |where| { assert p == where; }
  }

  // ----- Which errors are reported

  /** The value at the end of `rel`, from `v` down, is typed and does not have the type `x`. */
  predicate ErrorAt(node: Node, v: Value, rel: Path, x: Expected, env: Env)
    decreases v, node
  {
    !v.Null? && match node
      case AnyNode => false
      case OwnReader(_) => false
      case Version => rel == [] && x == AnInteger && !IsVersion(v, env)
      case Scalar(kind) => rel == [] && x == OfKind(kind) && !Accepts(kind, v)
      case ListOf(item) =>
        if !v.List? || (item.Scalar? && !AllAccepted(item.kind, v.items)) || (item.Section? && !AllDicts(v.items))
        then rel == [] && x == AList(item)
        else
          && !item.Scalar? && rel != [] && rel[0].Index? && rel[0].i < |v.items|
          && ErrorAt(item, v.items[rel[0].i], rel[1..], x, env)
      case Section(fields) =>
        if !v.Dict? then rel == [] && x == AMapping
        else rel != [] && exists i ::
          0 <= i < |v.members| && rel[0] == At(v.members[i].0) && InFields(v.members[i].0, fields) && (
          assert (v decreases to v.members[i]);
          ErrorAt(fields[v.members[i].0.text], v.members[i].1, rel[1..], x, env))
      case MapOf(value) =>
        if !v.Dict? then rel == [] && x == AMapping
        else rel != [] && exists i ::
          0 <= i < |v.members| && rel[0] == At(v.members[i].0) && (
          assert (v decreases to v.members[i]);
          ErrorAt(value, v.members[i].1, rel[1..], x, env))
  }

  /** The reported errors are exactly those, at their paths. */
  lemma {:induction false} ErrorsExactly(node: Node, v: Value, path: Path, env: Env, p: Path, x: Expected)
    requires Find(node, v, path, env).Found?
    ensures MustBe(p, x) in Find(node, v, path, env).errors <==> path <= p && ErrorAt(node, v, p[|path|..], x, env)
    decreases v, node
  {
    AtEnd(path, p);
    if !v.Null? {
      match node
      case ListOf(item) =>
        if v.List? {
          if item.Scalar? {
            ScalarsNoError(item.kind, v.items, path, item, env);
            ScalarsError(item.kind, v.items, path, item, env);
          } else if !item.Section? || AllDicts(v.items) { ItemsErrors(item, v.items, 0, path, env, p, x); }
        }
      case Section(_) => if v.Dict? { MembersErrors(node, v.members, path, env, p, x); }
      case MapOf(_) => if v.Dict? { MembersErrors(node, v.members, path, env, p, x); }
      case _ =>
    }
  }

  lemma AtEnd(path: Path, p: Path)
    ensures path <= p && p[|path|..] == [] <==> p == path
  {}

  lemma {:induction false} ScalarsError(kind: Kind, items: seq<Value>, path: Path, item: Node, env: Env)
    requires FindScalars(kind, items, path, item, env).Found?
    ensures var errors := FindScalars(kind, items, path, item, env).errors;
            errors == [] || errors == [MustBe(path, AList(item))]
  {
    if items != [] && Accepts(kind, items[0]) { ScalarsError(kind, items[1..], path, item, env); }
  }

  ghost predicate ItemErrorAt(item: Node, items: seq<Value>, index: nat, path: Path, p: Path, x: Expected, env: Env) {
    path <= p && |p| > |path| && p[|path|].Index? && index <= p[|path|].i < index + |items|
    && ErrorAt(item, items[p[|path|].i - index], p[|path| + 1..], x, env)
  }

  lemma {:induction false} ItemsErrors(item: Node, items: seq<Value>, index: nat, path: Path, env: Env, p: Path,
    x: Expected)
    requires FindItems(item, items, index, path, env).Found?
    ensures MustBe(p, x) in FindItems(item, items, index, path, env).errors
      <==> ItemErrorAt(item, items, index, path, p, x, env)
    decreases items, item
  {
    if items != [] {
      ErrorsExactly(item, items[0], path + [Index(index)], env, p, x);
      StepDown(path, Index(index), p);
      ItemsErrors(item, items[1..], index + 1, path, env, p, x);
      if path <= p && |p| > |path| { assert p[|path|..][1..] == p[|path| + 1..]; }
    }
  }

  ghost predicate MemberErrorAt(node: Node, m: (Key, Value), path: Path, p: Path, x: Expected, env: Env)
    requires node.Section? || node.MapOf?
  {
    path <= p && |p| > |path| && p[|path|] == At(m.0) &&
    if node.MapOf? then ErrorAt(node.value, m.1, p[|path| + 1..], x, env)
    else InFields(m.0, node.fields) && ErrorAt(node.fields[m.0.text], m.1, p[|path| + 1..], x, env)
  }

  lemma {:induction false} MembersErrors(node: Node, members: seq<(Key, Value)>, path: Path, env: Env, p: Path,
    x: Expected)
    requires (node.Section? || node.MapOf?) && FindMembers(node, members, path, env).Found?
    ensures MustBe(p, x) in FindMembers(node, members, path, env).errors
      <==> exists i :: 0 <= i < |members| && MemberErrorAt(node, members[i], path, p, x, env)
    decreases members, node
  {
    if members != [] {
      assert (members decreases to members[0]);
      MemberErrors(node, members[0], path, env, p, x);
      MembersErrors(node, members[1..], path, env, p, x);
      if i :| 0 <= i < |members[1..]| && MemberErrorAt(node, members[1..][i], path, p, x, env) {
        assert members[i + 1] == members[1..][i];
      }
      if i :| 0 <= i < |members| && MemberErrorAt(node, members[i], path, p, x, env) {
        if i > 0 { assert members[1..][i - 1] == members[i]; }
      }
    }
  }

  lemma {:induction false} MemberErrors(node: Node, m: (Key, Value), path: Path, env: Env, p: Path, x: Expected)
    requires (node.Section? || node.MapOf?) && FindMember(node, m, path + [At(m.0)], env).Found?
    ensures MustBe(p, x) in FindMember(node, m, path + [At(m.0)], env).errors
      <==> MemberErrorAt(node, m, path, p, x, env)
    decreases m, node
  {
    var where := path + [At(m.0)];
    StepDown(path, At(m.0), p);
    if path <= p && |p| > |path| { assert p[|path|..][1..] == p[|path| + 1..]; }
    if node.MapOf? { ErrorsExactly(node.value, m.1, where, env, p, x); }
    else if InFields(m.0, node.fields) { ErrorsExactly(node.fields[m.0.text], m.1, where, env, p, x); }
  }
}
