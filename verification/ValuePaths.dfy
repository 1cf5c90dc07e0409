/** Positions inside a value, and what the traversals of a request find at them. */
module ValuePaths {
  import opened Texts
  import opened PyValues
  import opened Sequences
  import opened RequestTexts

  /** One step into a value: to an item of a list, or to a key or a value of a dict. */
  datatype Move = Item(i: nat) | KeyAt(i: nat) | ValueAt(i: nat)
  type Path = seq<Move>

  function KeyValue(k: Key): Value { if k.TextKey? then Str(k.text) else Other(k.id) }

  function Child(v: Value, m: Move): Option<Value> {
    match m
    case Item(i) => if v.List? && i < |v.items| then Some(v.items[i]) else None
    case KeyAt(i) => if v.Dict? && i < |v.members| then Some(KeyValue(v.members[i].0)) else None
    case ValueAt(i) => if v.Dict? && i < |v.members| then Some(v.members[i].1) else None
  }

  /** What `p` leads to, from `v` down. */
  function At(v: Value, p: Path): Option<Value>
    decreases |p|
  {
    if p == [] then Some(v) else if Child(v, p[0]).None? then None else At(Child(v, p[0]).value, p[1..])
  }

  predicate PassesKey(p: Path) { exists i :: 0 <= i < |p| && p[i].KeyAt? }

  lemma PassesKeyStep(m: Move, p: Path)
    ensures PassesKey([m] + p) <==> m.KeyAt? || PassesKey(p)
  {
    if m.KeyAt? { assert ([m] + p)[0].KeyAt?; }
    if PassesKey(p) {
      var i :| 0 <= i < |p| && p[i].KeyAt?;
      assert ([m] + p)[i + 1].KeyAt?;
    }
  }

  lemma FirstKey(p: Path)
    requires p != [] && p[0].KeyAt?
    ensures PassesKey(p)
  {}

  // ----- Deep text

  /** A string, a dict or a list, not empty. */
  predicate HoldsText(v: Value) {
    match v
    case Str(text) => text != Nil
    case Dict(members) => |members| > 0
    case List(items) => |items| > 0
    case _ => false
  }

  predicate TextAt(v: Value, p: Path) { At(v, p).Some? && HoldsText(At(v, p).value) }

  lemma {:induction false} DeepItemIff(items: seq<Value>, depth: nat)
    ensures DeepItems(items, depth) <==> exists i :: 0 <= i < |items| && HasDeepText(items[i], depth)
  {
    if items != [] {
      DeepItemIff(items[1..], depth);
      assert items == [items[0]] + items[1..];
    }
  }

  predicate DeepEntry(m: (Key, Value), depth: nat) { DeepKey(m.0, depth) || HasDeepText(m.1, depth) }

  lemma {:induction false} DeepMemberIff(members: seq<(Key, Value)>, depth: nat)
    ensures DeepMembers(members, depth) <==> exists i :: 0 <= i < |members| && DeepEntry(members[i], depth)
    decreases |members|
  {
    if members != [] {
      DeepMemberIff(members[1..], depth);
      assert members == [members[0]] + members[1..];
    }
  }

  lemma AtStep(v: Value, m: Move, p: Path)
    requires Child(v, m).Some?
    ensures At(v, [m] + p) == At(Child(v, m).value, p)
  {
    assert ([m] + p)[1..] == p;
  }

  lemma {:induction false} DeepHasPath(v: Value, depth: nat) returns (p: Path)
    requires HasDeepText(v, depth)
    ensures depth + |p| > 32 && TextAt(v, p)
    decreases v
  {
    p := [];
    if depth <= SCAN_DEPTH {
      if v.List? {
        DeepItemIff(v.items, depth + 1);
        var i: nat :| i < |v.items| && HasDeepText(v.items[i], depth + 1);
        p := DeepHasPath(v.items[i], depth + 1);
        AtStep(v, Item(i), p);
        p := [Item(i)] + p;
      } else {
        DeepMemberIff(v.members, depth + 1);
        var i: nat :| i < |v.members| && DeepEntry(v.members[i], depth + 1);
        if HasDeepText(v.members[i].1, depth + 1) {
          assert (v.members decreases to v.members[i]);
          p := DeepHasPath(v.members[i].1, depth + 1);
          AtStep(v, ValueAt(i), p);
          p := [ValueAt(i)] + p;
        } else {
          AtStep(v, KeyAt(i), []);
          p := [KeyAt(i)] + [];
        }
      }
    }
  }

  lemma {:induction false} PathMakesDeep(v: Value, depth: nat, p: Path)
    requires depth + |p| > 32 && TextAt(v, p)
    ensures HasDeepText(v, depth)
    decreases |p|, 1
  {
    if p != [] {
      PathMakesDeepBelow(v, depth, p);
      if depth <= SCAN_DEPTH {
        if v.List? { DeepItemIff(v.items, depth + 1); } else { DeepMemberIff(v.members, depth + 1); }
      }
    }
  }

  /** The first step of the path leads to deep text one level down. */
  lemma {:induction false} PathMakesDeepBelow(v: Value, depth: nat, p: Path)
    requires depth + |p| > 32 && TextAt(v, p) && p != []
    ensures v.List? ==> exists i :: 0 <= i < |v.items| && HasDeepText(v.items[i], depth + 1)
    ensures !v.List? ==> v.Dict? && exists i :: 0 <= i < |v.members| && DeepEntry(v.members[i], depth + 1)
    decreases |p|, 0
  {
    match p[0]
    case Item(i) => PathMakesDeep(v.items[i], depth + 1, p[1..]);
    case ValueAt(i) =>
      PathMakesDeep(v.members[i].1, depth + 1, p[1..]);
      assert DeepEntry(v.members[i], depth + 1);
    case KeyAt(i) =>
      PathMakesDeep(KeyValue(v.members[i].0), depth + 1, p[1..]);
      assert DeepEntry(v.members[i], depth + 1);
  }

  /** There is deep text exactly when some path leads more than 32 levels down to a string, a dict or a
      list that is not empty. */
  lemma DeepTextExactly(v: Value, depth: nat)
    ensures HasDeepText(v, depth) <==> exists p :: depth + |p| > 32 && TextAt(v, p)
  {
    if HasDeepText(v, depth) { var p := DeepHasPath(v, depth); }
    if p :| depth + |p| > 32 && TextAt(v, p) { PathMakesDeep(v, depth, p); }
  }

  // ----- The strings of a value, by their positions

  /** A string that a traversal from `depth` reaches: its own level is not past the limit. */
  predicate StringAt(v: Value, p: Path, depth: nat, limit: Option<nat>, keys: bool) {
    && At(v, p).Some? && At(v, p).value.Str?
    && (limit.Some? ==> depth + |p| <= limit.value)
    && (PassesKey(p) ==> keys)
  }

  /** The order of the steps out of a value: a key comes right before its value. */
  function Rank(m: Move): nat {
    match m
    case Item(i) => 2 * i
    case KeyAt(i) => 2 * i
    case ValueAt(i) => 2 * i + 1
  }

  /** The document order of positions. */
  predicate Precedes(a: Path, b: Path)
    decreases |a|
  {
    a != [] && b != [] && (Rank(a[0]) < Rank(b[0]) || (a[0] == b[0] && Precedes(a[1..], b[1..])))
  }

  /** `texts` are the strings of `v` whose first step has at least this rank, in document order, and
      `places` are their positions. */
  ghost predicate Lists(v: Value, rank: nat, depth: nat, limit: Option<nat>, keys: bool, places: seq<Path>,
    texts: seq<Text>)
  {
    && |places| == |texts|
    && (forall n :: 0 <= n < |places| ==> At(v, places[n]) == Some(Str(texts[n])))
    && (forall p :: p in places <==> StringAt(v, p, depth, limit, keys) && (p != [] ==> Rank(p[0]) >= rank))
    && (forall a, b :: 0 <= a < b < |places| ==> Precedes(places[a], places[b]))
  }

  lemma Nothing(v: Value, rank: nat, depth: nat, limit: Option<nat>, keys: bool)
    requires !v.Str? || Past(depth, limit)
    requires Past(depth, limit) || forall m :: Child(v, m).Some? ==> Rank(m) < rank
    ensures Lists(v, rank, depth, limit, keys, [], [])
  {
    forall p: Path ensures !StringAt(v, p, depth, limit, keys) || (p != [] && Rank(p[0]) < rank) {
      if p != [] && Child(v, p[0]).Some? { assert Past(depth, limit) || Rank(p[0]) < rank; }
    }
  }

  function Below(m: Move, places: seq<Path>): seq<Path> {
    seq(|places|, n requires 0 <= n < |places| => [m] + places[n])
  }

  lemma BelowHas(m: Move, places: seq<Path>, p: Path)
    ensures p in Below(m, places) <==> p != [] && p[0] == m && p[1..] in places
  {
    if p != [] && p[0] == m && p[1..] in places {
      var n :| 0 <= n < |places| && places[n] == p[1..];
      assert p == [m] + places[n] == Below(m, places)[n];
    }
  }

  lemma StringBelow(v: Value, m: Move, p: Path, depth: nat, limit: Option<nat>, keys: bool)
    requires Child(v, m).Some? && (m.KeyAt? ==> keys)
    ensures StringAt(v, [m] + p, depth, limit, keys) <==> StringAt(Child(v, m).value, p, depth + 1, limit, keys)
  {
    AtStep(v, m, p);
    PassesKeyStep(m, p);
  }

  /** The strings below one step come before those of later steps. */
  lemma ListsStep(v: Value, m: Move, depth: nat, limit: Option<nat>, keys: bool, first: seq<Path>, a: seq<Text>,
    more: seq<Path>, b: seq<Text>)
    requires Child(v, m).Some? && (m.KeyAt? ==> keys)
    requires Lists(Child(v, m).value, 0, depth + 1, limit, keys, first, a)
    requires Lists(v, Rank(m) + 1, depth, limit, keys, more, b) && !v.Str?
    ensures Lists(v, Rank(m), depth, limit, keys, Below(m, first) + more, a + b)
  {
    var places, texts := Below(m, first) + more, a + b;
    forall n | 0 <= n < |places| ensures At(v, places[n]) == Some(Str(texts[n])) {
      if n < |first| { AtStep(v, m, first[n]); }
    }
    forall p ensures p in places <==> StringAt(v, p, depth, limit, keys) && (p != [] ==> Rank(p[0]) >= Rank(m)) {
      BelowHas(m, first, p);
      if p != [] && p[0] == m {
        assert p == [m] + p[1..];
        StringBelow(v, m, p[1..], depth, limit, keys);
      } else if p != [] && Child(v, p[0]).Some? && Rank(p[0]) == Rank(m) {
        SameRank(v, m, p[0]);
      }
    }
    forall i, j | 0 <= i < j < |places| ensures Precedes(places[i], places[j]) {
      if i < |first| && j >= |first| { assert places[j] in more; }
    }
  }

  lemma SameRank(v: Value, a: Move, b: Move)
    requires Child(v, a).Some? && Child(v, b).Some? && Rank(a) == Rank(b)
    ensures a == b
  {}

  lemma {:induction false} StringsListed(v: Value, depth: nat, limit: Option<nat>, keys: bool)
    returns (places: seq<Path>)
    ensures Lists(v, 0, depth, limit, keys, places, Strings(v, depth, limit, keys))
    decreases v, 1, 0
  {
    if Past(depth, limit) {
      Nothing(v, 0, depth, limit, keys);
      places := [];
    } else if v.Str? {
      places := [[]];
    } else if v.List? {
      places := ItemsListed(v, 0, depth, limit, keys);
    } else if v.Dict? {
      places := MembersListed(v, 0, depth, limit, keys);
    } else {
      Nothing(v, 0, depth, limit, keys);
      places := [];
    }
  }

  lemma {:induction false} ItemsListed(v: Value, i: nat, depth: nat, limit: Option<nat>, keys: bool)
    returns (places: seq<Path>)
    requires v.List? && i <= |v.items|
    ensures Lists(v, 2 * i, depth, limit, keys, places, ItemStrings(v.items[i..], depth + 1, limit, keys))
    decreases v, 0, |v.items| - i
  {
    if i == |v.items| {
      Nothing(v, 2 * i, depth, limit, keys);
      places := [];
    } else {
      var item := v.items[i];
      var more := ItemsListed(v, i + 1, depth, limit, keys);
      var first := StringsListed(item, depth + 1, limit, keys);
      var rest := ItemStrings(v.items[i + 1..], depth + 1, limit, keys);
      assert v.items[i..][1..] == v.items[i + 1..];
      NoOddItem(v, i, depth, limit, keys, more, rest);
      ListsStep(v, Item(i), depth, limit, keys, first, Strings(item, depth + 1, limit, keys), more, rest);
      places := Below(Item(i), first) + more;
    }
  }

  /** No step into a list has an odd rank, and one that is not taken adds nothing. */
  lemma NoOddItem(v: Value, i: nat, depth: nat, limit: Option<nat>, keys: bool, more: seq<Path>, texts: seq<Text>)
    requires v.List? && Lists(v, 2 * (i + 1), depth, limit, keys, more, texts)
    ensures Lists(v, Rank(Item(i)) + 1, depth, limit, keys, more, texts)
  {
    forall p: Path | StringAt(v, p, depth, limit, keys) && p != [] ensures Child(v, p[0]).Some? && p[0].Item? {}
  }

  lemma {:induction false} MembersListed(v: Value, i: nat, depth: nat, limit: Option<nat>, keys: bool)
    returns (places: seq<Path>)
    requires v.Dict? && i <= |v.members|
    ensures Lists(v, 2 * i, depth, limit, keys, places, MemberStrings(v.members[i..], depth + 1, limit, keys))
    decreases v, 0, |v.members| - i
  {
    if i == |v.members| {
      Nothing(v, 2 * i, depth, limit, keys);
      places := [];
    } else {
      var m := v.members[i];
      assert v.members[i..][1..] == v.members[i + 1..];
      assert (v decreases to v.members[i]);
      var more := MembersListed(v, i + 1, depth, limit, keys);
      var rest := MemberStrings(v.members[i + 1..], depth + 1, limit, keys);
      var first := StringsListed(m.1, depth + 1, limit, keys);
      var values := Strings(m.1, depth + 1, limit, keys);
      ListsStep(v, ValueAt(i), depth, limit, keys, first, values, more, rest);
      places := KeyListed(v, i, depth, limit, keys, Below(ValueAt(i), first) + more, values + rest);
      var key := KeyStrings(m.0, depth + 1, limit, keys);
      Regroup(key, values, rest);
    }
  }

  /** The key of a member comes before everything else that is left. */
  lemma KeyListed(v: Value, i: nat, depth: nat, limit: Option<nat>, keys: bool, more: seq<Path>, texts: seq<Text>)
    returns (places: seq<Path>)
    requires v.Dict? && i < |v.members| && Lists(v, 2 * i + 1, depth, limit, keys, more, texts)
    ensures Lists(v, 2 * i, depth, limit, keys, places, KeyStrings(v.members[i].0, depth + 1, limit, keys) + texts)
  {
    var k := v.members[i].0;
    var key := KeyStrings(k, depth + 1, limit, keys);
    if keys {
      var first: seq<Path> := if key == [] then [] else [[]];
      if key == [] { Nothing(KeyValue(k), 0, depth + 1, limit, keys); }
      ListsStep(v, KeyAt(i), depth, limit, keys, first, key, more, texts);
      places := Below(KeyAt(i), first) + more;
    } else {
      forall p: Path | StringAt(v, p, depth, limit, keys) && p != [] ensures Rank(p[0]) != 2 * i {
        assert Child(v, p[0]).Some?;
        if p[0].KeyAt? { FirstKey(p); }
      }
      assert key + texts == texts;
      places := more;
    }
  }

  /** The strings of a value, each with its position: every string down to the limit is there, the dict
      keys when they are asked for, once each and in document order. */
  lemma StringsExactly(v: Value, depth: nat, limit: Option<nat>, keys: bool) returns (places: seq<Path>)
    ensures var texts := Strings(v, depth, limit, keys);
            && |places| == |texts|
            && (forall n :: 0 <= n < |places| ==> At(v, places[n]) == Some(Str(texts[n])))
            && (forall p :: p in places <==> StringAt(v, p, depth, limit, keys))
            && (forall a, b :: 0 <= a < b < |places| ==> Precedes(places[a], places[b]))
  {
    places := StringsListed(v, depth, limit, keys);
  }

  lemma StringsHas(v: Value, depth: nat, limit: Option<nat>, keys: bool, t: Text)
    ensures t in Strings(v, depth, limit, keys)
      <==> exists p :: StringAt(v, p, depth, limit, keys) && At(v, p) == Some(Str(t))
  {
    var places := StringsExactly(v, depth, limit, keys);
    var texts := Strings(v, depth, limit, keys);
    if n :| 0 <= n < |texts| && texts[n] == t { assert places[n] in places; }
    if p :| StringAt(v, p, depth, limit, keys) && At(v, p) == Some(Str(t)) {
      assert p in places;
      var n :| 0 <= n < |places| && places[n] == p;
      assert texts[n] == t;
    }
  }
}
