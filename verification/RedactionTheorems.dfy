/** What a redaction does at every position of a value. */
module RedactionTheorems {
  import opened Texts
  import opened PyValues
  import opened Sequences
  import opened RequestTexts
  import opened ValuePaths
  import opened Redaction

  /** `f"{base}#{n}"`. */
  function Numbered(base: Text, n: nat): Key {
    var sign: int := 0x23;
    TextKey(Cat(base, Cons(sign, NatDigits(n))))
  }

  ghost predicate AllTaken(base: Text, n: nat, before: set<Key>) {
    forall m: nat :: 2 <= m < n ==> Numbered(base, m) in before
  }

  /** The key `r` that a key gets when the keys of `before` are taken: its redaction, or that with the
      first free suffix from #2 on. Keys that are not strings are kept, and those past the limit too. */
  ghost predicate KeyBecomes(k: Key, r: Key, before: set<Key>, past: bool, redact: Redactor) {
    if k.OtherKey? then r == k
    else
      var t := if past then k.text else redact(k.text).text;
      if TextKey(t) !in before then r == TextKey(t)
      else exists n: nat :: n >= 2 && r == Numbered(t, n) && r !in before && AllTaken(t, n, before)
  }

  ghost predicate KeysBecome(ms: Members, out: Members, keys: bool, past: bool, redact: Redactor)
    requires |out| == |ms|
  {
    if keys then
      DistinctKeys(out)
      && forall i :: 0 <= i < |ms| ==> KeyBecomes(ms[i].0, out[i].0, KeysOf(out[..i]), past, redact)
    else forall i :: 0 <= i < |ms| ==> out[i].0 == ms[i].0
  }

  /** What a value that lies `depth` levels down becomes, its items and values left aside: a string the
      engine's text, a container one of the same kind and size, anything else itself. */
  ghost predicate Becomes(x: Value, y: Value, depth: nat, limit: Option<nat>, keys: bool, redact: Redactor) {
    if limit.Some? && depth > limit.value then y == x
    else match x
      case Str(text) => y == Str(redact(text).text)
      case List(items) => y.List? && |y.items| == |items|
      case Dict(members) =>
        && y.Dict? && |y.members| == |members|
        && KeysBecome(members, y.members, keys, limit.Some? && depth + 1 > limit.value, redact)
      case _ => y == x
  }

  lemma {:induction false} ItemsAt(items: seq<Value>, depth: nat, limit: Option<nat>, keys: bool, redact: Redactor)
    ensures var out := RedactedItems(items, depth, limit, keys, redact);
            && |out| == |items|
            && forall i :: 0 <= i < |items| ==> out[i] == Redacted(items[i], depth, limit, keys, redact)
  {
    if items != [] { ItemsAt(items[1..], depth, limit, keys, redact); }
  }

  lemma {:induction false} ValuesAt(members: Members, depth: nat, limit: Option<nat>, redact: Redactor)
    ensures var out := RedactedValues(members, depth, limit, redact);
            && |out| == |members|
            && forall i :: 0 <= i < |members| ==>
                 out[i] == (members[i].0, Redacted(members[i].1, depth, limit, false, redact))
    decreases |members|
  {
    if members != [] { ValuesAt(members[1..], depth, limit, redact); }
  }

  /** Each item and value is redacted one level down. */
  lemma ChildRedacted(v: Value, m: Move, depth: nat, limit: Option<nat>, keys: bool, redact: Redactor)
    requires !m.KeyAt? && (keys ==> ProperDicts(v))
    ensures var r := Redacted(v, depth, limit, keys, redact);
            if Child(v, m).None? then Child(r, m).None?
            else Child(r, m) == Some(Redacted(Child(v, m).value, depth + 1, limit, keys, redact))
  {
    if !Past(depth, limit) {
      if v.List? {
        ItemsAt(v.items, depth + 1, limit, keys, redact);
      } else if v.Dict? {
        if keys { NoEntryDropped(v.members, depth + 1, limit, redact); }
        else { ValuesAt(v.members, depth + 1, limit, redact); }
      }
    }
  }

  lemma StoredKeyBecomes(k: Key, before: set<Key>, depth: nat, limit: Option<nat>, redact: Redactor)
    ensures KeyBecomes(k, StoredKey(RedactedKey(k, depth, limit, redact), before), before,
                       limit.Some? && depth > limit.value, redact)
  {
    var rk := RedactedKey(k, depth, limit, redact);
    if rk.TextKey? && rk in before {
      var n := FreeSuffix(rk.text, 2, before);
      forall m: nat | 2 <= m < n ensures Numbered(rk.text, m) in before {
        assert TextKey(Suffixed(rk.text, m)) in before;
      }
      assert n >= 2 && StoredKey(rk, before) == Numbered(rk.text, n) && AllTaken(rk.text, n, before);
    }
  }

  lemma NodeRedacted(v: Value, depth: nat, limit: Option<nat>, keys: bool, redact: Redactor)
    requires keys ==> ProperDicts(v)
    ensures Becomes(v, Redacted(v, depth, limit, keys, redact), depth, limit, keys, redact)
  {
    if !Past(depth, limit) {
      if v.List? {
        ItemsAt(v.items, depth + 1, limit, keys, redact);
      } else if v.Dict? {
        if keys {
          var all := RedactedAll([], v.members, depth + 1, limit, redact);
          NoEntryDropped(v.members, depth + 1, limit, redact);
          forall i | 0 <= i < |all|
            ensures KeyBecomes(v.members[i].0, all[i].0, KeysOf(all[..i]), Past(depth + 1, limit), redact)
          {
            StoredKeyBecomes(v.members[i].0, KeysOf(all[..i]), depth + 1, limit, redact);
          }
        } else {
          ValuesAt(v.members, depth + 1, limit, redact);
        }
      }
    }
  }

  lemma ProperChild(v: Value, m: Move)
    requires ProperDicts(v) && Child(v, m).Some?
    ensures ProperDicts(Child(v, m).value)
  {
    match m
    case Item(i) => assert v.items[i] in v.items;
    case ValueAt(i) => assert v.members[i] in v.members;
    case KeyAt(_) =>
  }

  /** The redacted value has the positions of the value, and at each of them what the value there becomes. */
  lemma {:induction false} RedactedAt(v: Value, depth: nat, limit: Option<nat>, keys: bool, redact: Redactor, p: Path)
    requires !PassesKey(p) && (keys ==> ProperDicts(v))
    ensures var r := Redacted(v, depth, limit, keys, redact);
            if At(v, p).None? then At(r, p).None?
            else
              && At(r, p).Some?
              && Becomes(At(v, p).value, At(r, p).value, depth + |p|, limit, keys, redact)
    decreases |p|
  {
    if p == [] {
      NodeRedacted(v, depth, limit, keys, redact);
    } else {
      ChildRedacted(v, p[0], depth, limit, keys, redact);
      PassesKeyStep(p[0], p[1..]);
      assert p == [p[0]] + p[1..];
      if Child(v, p[0]).Some? {
        if keys { ProperChild(v, p[0]); }
        RedactedAt(Child(v, p[0]).value, depth + 1, limit, keys, redact, p[1..]);
      }
    }
  }

  // ----- The strings of a redacted value

  function EngineTexts(ts: seq<Text>, redact: Redactor): (r: seq<Text>)
    ensures |r| == |ts| && forall i :: 0 <= i < |ts| ==> r[i] == redact(ts[i]).text
  {
    seq(|ts|, i requires 0 <= i < |ts| => redact(ts[i]).text)
  }

  lemma EngineTextsCat(a: seq<Text>, b: seq<Text>, redact: Redactor)
    ensures EngineTexts(a + b, redact) == EngineTexts(a, redact) + EngineTexts(b, redact)
  {}

  lemma {:induction false} TextsRedacted(v: Value, depth: nat, limit: Option<nat>, keys: bool, redact: Redactor)
    requires keys ==> ProperDicts(v)
    ensures Strings(Redacted(v, depth, limit, keys, redact), depth, limit, false)
         == EngineTexts(Strings(v, depth, limit, false), redact)
    decreases v, 1, 0
  {
    var r := Redacted(v, depth, limit, keys, redact);
    if !Past(depth, limit) {
      NodeRedacted(v, depth, limit, keys, redact);
      if v.List? {
        ItemTextsRedacted(v, r, 0, depth, limit, keys, redact);
        assert v.items[0..] == v.items && r.items[0..] == r.items;
      } else if v.Dict? {
        MemberTextsRedacted(v, r, 0, depth, limit, keys, redact);
        assert v.members[0..] == v.members && r.members[0..] == r.members;
      }
    }
  }

  lemma {:induction false} ItemTextsRedacted(v: Value, r: Value, i: nat, depth: nat, limit: Option<nat>, keys: bool,
    redact: Redactor)
    requires v.List? && r.List? && |r.items| == |v.items| && i <= |v.items| && (keys ==> ProperDicts(v))
    requires r == Redacted(v, depth, limit, keys, redact)
    ensures ItemStrings(r.items[i..], depth + 1, limit, false)
         == EngineTexts(ItemStrings(v.items[i..], depth + 1, limit, false), redact)
    decreases v, 0, |v.items| - i
  {
    if i < |v.items| {
      ChildRedacted(v, Item(i), depth, limit, keys, redact);
      if keys { ProperChild(v, Item(i)); }
      TextsRedacted(v.items[i], depth + 1, limit, keys, redact);
      ItemTextsRedacted(v, r, i + 1, depth, limit, keys, redact);
      assert v.items[i..][1..] == v.items[i + 1..] && r.items[i..][1..] == r.items[i + 1..];
      EngineTextsCat(Strings(v.items[i], depth + 1, limit, false),
        ItemStrings(v.items[i + 1..], depth + 1, limit, false), redact);
    }
  }

  lemma {:induction false} MemberTextsRedacted(v: Value, r: Value, i: nat, depth: nat, limit: Option<nat>, keys: bool,
    redact: Redactor)
    requires v.Dict? && r.Dict? && |r.members| == |v.members| && i <= |v.members| && (keys ==> ProperDicts(v))
    requires r == Redacted(v, depth, limit, keys, redact)
    ensures MemberStrings(r.members[i..], depth + 1, limit, false)
         == EngineTexts(MemberStrings(v.members[i..], depth + 1, limit, false), redact)
    decreases v, 0, |v.members| - i
  {
    if i < |v.members| {
      assert (v decreases to v.members[i]);
      ChildRedacted(v, ValueAt(i), depth, limit, keys, redact);
      if keys { ProperChild(v, ValueAt(i)); }
      TextsRedacted(v.members[i].1, depth + 1, limit, keys, redact);
      MemberTextsRedacted(v, r, i + 1, depth, limit, keys, redact);
      assert v.members[i..][1..] == v.members[i + 1..] && r.members[i..][1..] == r.members[i + 1..];
      EngineTextsCat(Strings(v.members[i].1, depth + 1, limit, false),
        MemberStrings(v.members[i + 1..], depth + 1, limit, false), redact);
    }
  }

  /** The strings of a redacted value are the engine's texts for the strings of the value, in order. */
  lemma StringsRedacted(v: Value, depth: nat, limit: Option<nat>, keys: bool, redact: Redactor)
    requires keys ==> ProperDicts(v)
    ensures var before := Strings(v, depth, limit, false);
            var after := Strings(Redacted(v, depth, limit, keys, redact), depth, limit, false);
            && |after| == |before| && forall i :: 0 <= i < |before| ==> after[i] == redact(before[i]).text
  {
    TextsRedacted(v, depth, limit, keys, redact);
  }

  // ----- Counts and entities

  /** Counts and entities are those of each text, added up in order. */
  lemma {:induction false} TotalsAdd(a: seq<Text>, b: seq<Text>, redact: Redactor)
    ensures TotalCount([], redact) == 0 && TotalEntities([], redact) == []
    ensures forall t :: TotalCount([t], redact) == redact(t).count && TotalEntities([t], redact) == redact(t).entities
    ensures TotalCount(a + b, redact) == TotalCount(a, redact) + TotalCount(b, redact)
    ensures TotalEntities(a + b, redact) == TotalEntities(a, redact) + TotalEntities(b, redact)
    decreases |b|
  {
    if b == [] {
      assert a + b == a;
    } else {
      TotalsAdd(a, b[..|b| - 1], redact);
      assert (a + b)[..|a + b| - 1] == a + b[..|b| - 1];
      Regroup(TotalEntities(a, redact), TotalEntities(b[..|b| - 1], redact), redact(b[|b| - 1]).entities);
    }
  }

  lemma {:induction false} CountPositive(ts: seq<Text>, redact: Redactor)
    ensures TotalCount(ts, redact) > 0 <==> exists i :: 0 <= i < |ts| && redact(ts[i]).count > 0
  {
    if ts != [] {
      CountPositive(ts[..|ts| - 1], redact);
      assert ts == ts[..|ts| - 1] + [ts[|ts| - 1]];
    }
  }

  // ----- Assignment to a dict

  /** The value under a key. */
  function Lookup(members: Members, k: Key): Option<Value> {
    if members == [] then None else if members[0].0 == k then Some(members[0].1) else Lookup(members[1..], k)
  }

  lemma KeysOfCons(m: (Key, Value), rest: Members)
    ensures KeysOf([m] + rest) == {m.0} + KeysOf(rest)
  {
    assert m in [m] + rest;
    forall x | x in rest ensures x in [m] + rest {}
  }

  lemma {:induction false} AssignedKeys(out: Members, k: Key, v: Value)
    ensures KeysOf(Assign(out, k, v)) == KeysOf(out) + {k}
  {
    if out == [] {
      KeysOfCons((k, v), []);
    } else {
      assert out == [out[0]] + out[1..];
      KeysOfCons(out[0], out[1..]);
      if out[0].0 == k {
        KeysOfCons((k, v), out[1..]);
      } else {
        AssignedKeys(out[1..], k, v);
        KeysOfCons(out[0], Assign(out[1..], k, v));
      }
    }
  }

  /** An assignment sets the value of its key, which keeps its place or comes last, and leaves all else. */
  lemma {:induction false} AssignedAt(out: Members, k: Key, v: Value)
    requires DistinctKeys(out)
    ensures var r := Assign(out, k, v);
            && |r| == |out| + (if k in KeysOf(out) then 0 else 1)
            && (forall i :: 0 <= i < |out| ==> r[i] == (out[i].0, if out[i].0 == k then v else out[i].1))
            && (k !in KeysOf(out) ==> r[|out|] == (k, v))
  {
    if out != [] {
      assert out == [out[0]] + out[1..];
      KeysOfCons(out[0], out[1..]);
      if out[0].0 != k { AssignedAt(out[1..], k, v); }
    }
  }

  lemma AssignedDistinct(out: Members, k: Key, v: Value)
    requires DistinctKeys(out)
    ensures DistinctKeys(Assign(out, k, v))
  {
    var r := Assign(out, k, v);
    AssignedAt(out, k, v);
    forall i, j | 0 <= i < j < |r| ensures r[i].0 != r[j].0 {
      assert out[i] in out;
      if j == |out| { assert out[i].0 in KeysOf(out); }
    }
  }

  lemma {:induction false} LookupIs(members: Members, i: nat)
    requires DistinctKeys(members) && i < |members|
    ensures Lookup(members, members[i].0) == Some(members[i].1)
  {
    if i > 0 { LookupIs(members[1..], i - 1); }
  }

  lemma {:induction false} LookupNone(members: Members, k: Key)
    ensures Lookup(members, k).None? <==> k !in KeysOf(members)
  {
    if members != [] {
      LookupNone(members[1..], k);
      assert members == [members[0]] + members[1..];
    }
  }

  /** Read by key: the assigned key has the new value, every other key what it had. */
  lemma LookupAssigned(out: Members, k: Key, v: Value, j: Key)
    requires DistinctKeys(out)
    ensures Lookup(Assign(out, k, v), j) == if j == k then Some(v) else Lookup(out, j)
  {
    var r := Assign(out, k, v);
    AssignedAt(out, k, v);
    AssignedKeys(out, k, v);
    AssignedDistinct(out, k, v);
    LookupNone(out, j);
    LookupNone(r, j);
    if j in KeysOf(r) {
      var i :| 0 <= i < |r| && r[i].0 == j;
      LookupIs(r, i);
      if j != k { LookupIs(out, i); }
    }
  }
}
