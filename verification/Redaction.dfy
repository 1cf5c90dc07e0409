/** `_deep_redact`: every string value of a tree goes through the PII engine. */
module Redaction {
  import opened Texts
  import opened PyValues
  import opened RequestTexts

  /** What the PII engine answers for one text; entities are opaque. */
  datatype Answer = Answer(text: Text, entities: seq<nat>, count: nat)
  type Redactor = Text -> Answer

  function TotalCount(given: seq<Text>, redact: Redactor): nat {
    if given == [] then 0 else TotalCount(given[..|given| - 1], redact) + redact(given[|given| - 1]).count
  }

  function TotalEntities(given: seq<Text>, redact: Redactor): seq<nat> {
    if given == [] then [] else TotalEntities(given[..|given| - 1], redact) + redact(given[|given| - 1]).entities
  }

  // ----- Keys that redact to the same text

  const HASH := 0x23

  function Suffixed(base: Text, suffix: nat): Text { Cat(base, Cons(HASH, NatDigits(suffix))) }

  lemma SuffixedInjective(base: Text, a: nat, b: nat)
    requires Suffixed(base, a) == Suffixed(base, b)
    ensures a == b
  {
    CatInjective(base, Cons(HASH, NatDigits(a)), Cons(HASH, NatDigits(b)));
    NatDigitsInjective(a, b);
  }

  /** The smallest free suffix from `suffix` on: one exists, since every taken one uses up a key of
      the finitely many in `used`. */
  function FreeSuffix(base: Text, suffix: nat, used: set<Key>): (r: nat)
    ensures r >= suffix && TextKey(Suffixed(base, r)) !in used
    ensures forall s :: suffix <= s < r ==> TextKey(Suffixed(base, s)) in used
    decreases |used|
  {
    var k := TextKey(Suffixed(base, suffix));
    if k !in used then suffix
    else
      var r := FreeSuffix(base, suffix + 1, used - {k});
      assert r > suffix && TextKey(Suffixed(base, r)) !in used by {
        if Suffixed(base, r) == Suffixed(base, suffix) { SuffixedInjective(base, r, suffix); }
      }
      r
  }

  /** The key under which a redacted key is stored. */
  function StoredKey(k: Key, used: set<Key>): (r: Key)
    ensures k.TextKey? ==> r.TextKey? && r !in used
    ensures k !in used ==> r == k
  {
    if k.TextKey? && k in used then TextKey(Suffixed(k.text, FreeSuffix(k.text, 2, used))) else k
  }

  type Members = seq<(Key, Value)>

  function KeysOf(members: Members): set<Key> { set m <- members :: m.0 }

  /** `out[k] = v` of a Python dict: a present key keeps its place. */
  function Assign(out: Members, k: Key, v: Value): Members {
    if out == [] then [(k, v)]
    else if out[0].0 == k then [(k, v)] + out[1..]
    else [out[0]] + Assign(out[1..], k, v)
  }

  lemma {:induction false} AssignNew(out: Members, k: Key, v: Value)
    requires k !in KeysOf(out)
    ensures Assign(out, k, v) == out + [(k, v)]
  {
    if out != [] {
      assert out[0].0 in KeysOf(out);
      assert KeysOf(out[1..]) <= KeysOf(out) by { assert out == [out[0]] + out[1..]; }
      AssignNew(out[1..], k, v);
    }
  }

  // ----- The redacted value

  function Redacted(v: Value, depth: nat, limit: Option<nat>, keys: bool, redact: Redactor): Value
    decreases v
  {
    if Past(depth, limit) then v
    else match v
      case Str(text) => Str(redact(text).text)
      case Dict(members) =>
        if keys then Dict(RedactedAll([], members, depth + 1, limit, redact))
        else Dict(RedactedValues(members, depth + 1, limit, redact))
      case List(items) => List(RedactedItems(items, depth + 1, limit, keys, redact))
      case _ => v
  }

  function RedactedItems(items: seq<Value>, depth: nat, limit: Option<nat>, keys: bool, redact: Redactor): seq<Value>
    decreases items
  {
    if items == [] then []
    else [Redacted(items[0], depth, limit, keys, redact)] + RedactedItems(items[1..], depth, limit, keys, redact)
  }

  /** The members with their values redacted and their keys kept. */
  function RedactedValues(members: Members, depth: nat, limit: Option<nat>, redact: Redactor): Members
    decreases members
  {
    if members == [] then []
    else
      assert (members decreases to members[0]);
      [(members[0].0, Redacted(members[0].1, depth, limit, false, redact))]
        + RedactedValues(members[1..], depth, limit, redact)
  }

  function RedactedKey(k: Key, depth: nat, limit: Option<nat>, redact: Redactor): (r: Key)
    ensures r.TextKey? == k.TextKey? && (k.OtherKey? ==> r == k)
  {
    if k.TextKey? && !Past(depth, limit) then TextKey(redact(k.text).text) else k
  }

  /** `out` after the members, keys and values redacted. */
  function RedactedAll(out: Members, members: Members, depth: nat, limit: Option<nat>, redact: Redactor): Members
    decreases members
  {
    if members == [] then out
    else
      assert (members decreases to members[0]);
      var k := StoredKey(RedactedKey(members[0].0, depth, limit, redact), KeysOf(out));
      RedactedAll(Assign(out, k, Redacted(members[0].1, depth, limit, true, redact)), members[1..], depth, limit,
        redact)
  }

  /** A key that is not a string is kept, so it must not be there already. */
  ghost predicate Apart(out: Members, members: Members) {
    forall i, j :: 0 <= i < |out| && 0 <= j < |members| && members[j].0.OtherKey? ==> out[i].0 != members[j].0
  }

  ghost predicate Entries(out: Members, members: Members) {
    DistinctKeys(out) && DistinctKeys(members) && Apart(out, members)
  }

  function StoredEntry(out: Members, m: (Key, Value), depth: nat, limit: Option<nat>, redact: Redactor): (Key, Value) {
    (StoredKey(RedactedKey(m.0, depth, limit, redact), KeysOf(out)), Redacted(m.1, depth, limit, true, redact))
  }

  /** One turn of the loop appends one entry under a key of its own. */
  lemma OneEntryAppended(out: Members, members: Members, depth: nat, limit: Option<nat>, redact: Redactor)
    requires Entries(out, members) && members != []
    ensures var next := out + [StoredEntry(out, members[0], depth, limit, redact)];
            Entries(next, members[1..])
            && RedactedAll(out, members, depth, limit, redact) == RedactedAll(next, members[1..], depth, limit, redact)
  {
    var entry := StoredEntry(out, members[0], depth, limit, redact);
    assert entry.0 !in KeysOf(out);
    AssignNew(out, entry.0, entry.1);
    forall i | 0 <= i < |out| ensures out[i].0 != entry.0 { assert out[i].0 in KeysOf(out); }
  }

  lemma {:induction false} EntriesKept(out: Members, members: Members, depth: nat, limit: Option<nat>, redact: Redactor)
    requires Entries(out, members)
    ensures var all := RedactedAll(out, members, depth, limit, redact);
            |all| == |out| + |members| && DistinctKeys(all) && out <= all
    decreases |members|
  {
    if members != [] {
      OneEntryAppended(out, members, depth, limit, redact);
      EntriesKept(out + [StoredEntry(out, members[0], depth, limit, redact)], members[1..], depth, limit, redact);
    }
  }

  lemma {:induction false} EntryStored(out: Members, members: Members, depth: nat, limit: Option<nat>,
    redact: Redactor, n: nat)
    requires Entries(out, members) && |out| <= n < |out| + |members|
    ensures var all := RedactedAll(out, members, depth, limit, redact);
            n < |all| && all[n] == StoredEntry(all[..n], members[n - |out|], depth, limit, redact)
    decreases |members|
  {
    var entry := StoredEntry(out, members[0], depth, limit, redact);
    OneEntryAppended(out, members, depth, limit, redact);
    if n == |out| {
      EntriesKept(out + [entry], members[1..], depth, limit, redact);
      FirstPart(out, entry, RedactedAll(out + [entry], members[1..], depth, limit, redact));
    } else {
      EntryStored(out + [entry], members[1..], depth, limit, redact, n);
    }
  }

  /** Redacting keys drops no entry: there are as many members as before, under distinct keys, and the
      i-th value is the redaction of the i-th value, even when keys redact to the same text or already
      look suffixed. A key is stored as its redaction unless an entry before it has that key: then it
      gets the first free suffix. */
  lemma NoEntryDropped(members: Members, depth: nat, limit: Option<nat>, redact: Redactor)
    requires DistinctKeys(members)
    ensures var all := RedactedAll([], members, depth, limit, redact);
            && |all| == |members| && DistinctKeys(all)
            && forall i :: 0 <= i < |members| ==>
                 && all[i].1 == Redacted(members[i].1, depth, limit, true, redact)
                 && all[i].0 == StoredKey(RedactedKey(members[i].0, depth, limit, redact), KeysOf(all[..i]))
  {
    EntriesKept([], members, depth, limit, redact);
    forall i | 0 <= i < |members|
      ensures RedactedAll([], members, depth, limit, redact)[i]
           == StoredEntry(RedactedAll([], members, depth, limit, redact)[..i], members[i], depth, limit, redact)
    {
      EntryStored([], members, depth, limit, redact, i);
    }
  }

  lemma FirstPart<T>(a: seq<T>, x: T, all: seq<T>)
    requires a + [x] <= all
    ensures all[|a|] == x && all[..|a|] == a
  {
    assert (a + [x])[|a|] == x;
  }

  // ----- Bounded redaction redacts everything

  ghost predicate KeepsEmpty(redact: Redactor) { redact(Nil) == Answer(Nil, [], 0) }

  /** Without deep text, the bounded redaction is the unbounded one. */
  lemma {:induction false} BoundedRedactionComplete(v: Value, depth: nat, keys: bool, redact: Redactor)
    requires !HasDeepText(v, depth) && KeepsEmpty(redact)
    ensures Redacted(v, depth, BOUNDED, keys, redact) == Redacted(v, depth, None, keys, redact)
    decreases v
  {
    if depth > SCAN_DEPTH {
      assert Redacted(v, depth, None, keys, redact) == v;
    } else if v.Dict? {
      if keys {
        BoundedAllComplete([], v.members, depth + 1, redact);
      } else {
        BoundedValuesComplete(v.members, depth + 1, redact);
      }
    } else if v.List? {
      BoundedItemsRedacted(v.items, depth + 1, keys, redact);
    }
  }

  lemma {:induction false} BoundedItemsRedacted(items: seq<Value>, depth: nat, keys: bool, redact: Redactor)
    requires !DeepItems(items, depth) && KeepsEmpty(redact)
    ensures RedactedItems(items, depth, BOUNDED, keys, redact) == RedactedItems(items, depth, None, keys, redact)
    decreases items
  {
    if items != [] {
      BoundedRedactionComplete(items[0], depth, keys, redact);
      BoundedItemsRedacted(items[1..], depth, keys, redact);
    }
  }

  lemma {:induction false} BoundedValuesComplete(members: Members, depth: nat, redact: Redactor)
    requires !DeepMembers(members, depth) && KeepsEmpty(redact)
    ensures RedactedValues(members, depth, BOUNDED, redact) == RedactedValues(members, depth, None, redact)
    decreases members
  {
    if members != [] {
      assert (members decreases to members[0]);
      BoundedRedactionComplete(members[0].1, depth, false, redact);
      BoundedValuesComplete(members[1..], depth, redact);
    }
  }

  lemma {:induction false} BoundedAllComplete(out: Members, members: Members, depth: nat, redact: Redactor)
    requires !DeepMembers(members, depth) && KeepsEmpty(redact)
    ensures RedactedAll(out, members, depth, BOUNDED, redact) == RedactedAll(out, members, depth, None, redact)
    decreases members
  {
    if members != [] {
      assert (members decreases to members[0]);
      BoundedRedactionComplete(members[0].1, depth, true, redact);
      assert RedactedKey(members[0].0, depth, BOUNDED, redact) == RedactedKey(members[0].0, depth, None, redact);
      var k := StoredKey(RedactedKey(members[0].0, depth, None, redact), KeysOf(out));
      BoundedAllComplete(Assign(out, k, Redacted(members[0].1, depth, None, true, redact)), members[1..], depth,
        redact);
    }
  }

  // ----- The redaction, as it runs

  lemma RedactedItemsFrom(items: seq<Value>, i: nat, depth: nat, keys: bool, redact: Redactor, before: seq<Value>)
    requires i < |items|
    ensures before + RedactedItems(items[i..], depth, BOUNDED, keys, redact)
         == (before + [Redacted(items[i], depth, BOUNDED, keys, redact)])
           + RedactedItems(items[i + 1..], depth, BOUNDED, keys, redact)
  {
    assert items[i..][1..] == items[i + 1..];
  }

  /** The dict `result` that a redaction fills; `given` are the texts the engine was given. */
  class Accumulator {
    var entities: seq<nat>
    var count: nat
    ghost var given: seq<Text>

    ghost predicate Valid(redact: Redactor)
      reads this
    {
      entities == TotalEntities(given, redact) && count == TotalCount(given, redact)
    }

    constructor ()
      ensures given == [] && entities == [] && count == 0
    {
      entities, count, given := [], 0, [];
    }

    method RedactString(text: Text, redact: Redactor) returns (r: Text)
      requires Valid(redact)
      modifies this
      ensures Valid(redact) && given == old(given) + [text] && r == redact(text).text
    {
      var answer := redact(text);
      entities := entities + answer.entities;
      count := count + answer.count;
      given := given + [text];
      assert given[..|given| - 1] == old(given);
      r := answer.text;
    }

    method DeepRedact(v: Value, redact: Redactor, depth: nat, keys: bool) returns (r: Value)
      requires Valid(redact)
      modifies this
      ensures Valid(redact) && r == Redacted(v, depth, BOUNDED, keys, redact)
      ensures given == old(given) + Strings(v, depth, BOUNDED, keys)
      decreases v
    {
      if depth > SCAN_DEPTH { return v; }
      match v
      case Str(text) =>
        var t := RedactString(text, redact);
        r := Str(t);
      case Dict(members) =>
        if !keys {
          var out := RedactValues(members, redact, depth + 1);
          r := Dict(out);
        } else {
          var out := RedactAll(members, redact, depth + 1);
          r := Dict(out);
        }
      case List(items) =>
        var out := RedactItems(items, redact, depth + 1, keys);
        r := List(out);
      case _ => r := v;
    }

    method RedactItems(items: seq<Value>, redact: Redactor, depth: nat, keys: bool) returns (out: seq<Value>)
      requires Valid(redact)
      modifies this
      ensures Valid(redact) && out == RedactedItems(items, depth, BOUNDED, keys, redact)
      ensures given == old(given) + ItemStrings(items, depth, BOUNDED, keys)
      decreases items
    {
      out := [];
      for i := 0 to |items|
        invariant Valid(redact)
        invariant out + RedactedItems(items[i..], depth, BOUNDED, keys, redact)
          == RedactedItems(items, depth, BOUNDED, keys, redact)
        invariant given + ItemStrings(items[i..], depth, BOUNDED, keys)
          == old(given) + ItemStrings(items, depth, BOUNDED, keys)
      {
        ItemsFrom(items, i, depth, BOUNDED, keys, given);
        RedactedItemsFrom(items, i, depth, keys, redact, out);
        var item := DeepRedact(items[i], redact, depth, keys);
        out := out + [item];
      }
    }

    method RedactValues(members: Members, redact: Redactor, depth: nat) returns (out: Members)
      requires Valid(redact)
      modifies this
      ensures Valid(redact) && out == RedactedValues(members, depth, BOUNDED, redact)
      ensures given == old(given) + MemberStrings(members, depth, BOUNDED, false)
      decreases members
    {
      out := [];
      for i := 0 to |members|
        invariant Valid(redact)
        invariant out + RedactedValues(members[i..], depth, BOUNDED, redact)
          == RedactedValues(members, depth, BOUNDED, redact)
        invariant given + MemberStrings(members[i..], depth, BOUNDED, false)
          == old(given) + MemberStrings(members, depth, BOUNDED, false)
      {
        assert (members decreases to members[i]);
        assert members[i..][1..] == members[i + 1..];
        MembersFrom(members, i, depth, BOUNDED, false, given);
        var item := DeepRedact(members[i].1, redact, depth, false);
        out := out + [(members[i].0, item)];
      }
    }

    method RedactMember(out: Members, m: (Key, Value), redact: Redactor, depth: nat) returns (next: Members)
      requires Valid(redact)
      modifies this
      ensures Valid(redact)
      ensures given == old(given) + KeyStrings(m.0, depth, BOUNDED, true) + Strings(m.1, depth, BOUNDED, true)
      ensures next == Assign(out, StoredKey(RedactedKey(m.0, depth, BOUNDED, redact), KeysOf(out)),
                             Redacted(m.1, depth, BOUNDED, true, redact))
      decreases m
    {
      var rk := m.0;
      if rk.TextKey? && depth <= SCAN_DEPTH {
        var t := RedactString(rk.text, redact);
        rk := TextKey(t);
      }
      var rv := DeepRedact(m.1, redact, depth, true);
      if rk.TextKey? && rk in KeysOf(out) { rk := Rename(rk.text, KeysOf(out)); }
      next := Assign(out, rk, rv);
    }

    method RedactAll(members: Members, redact: Redactor, depth: nat) returns (out: Members)
      requires Valid(redact)
      modifies this
      ensures Valid(redact) && out == RedactedAll([], members, depth, BOUNDED, redact)
      ensures given == old(given) + MemberStrings(members, depth, BOUNDED, true)
      decreases members
    {
      out := [];
      for i := 0 to |members|
        invariant Valid(redact)
        invariant RedactedAll(out, members[i..], depth, BOUNDED, redact)
          == RedactedAll([], members, depth, BOUNDED, redact)
        invariant given + MemberStrings(members[i..], depth, BOUNDED, true)
          == old(given) + MemberStrings(members, depth, BOUNDED, true)
      {
        assert (members decreases to members[i]);
        assert members[i..][1..] == members[i + 1..];
        MembersFrom(members, i, depth, BOUNDED, true, given);
        out := RedactMember(out, members[i], redact, depth);
      }
    }
  }

  /** The loop over `base#2`, `base#3`, ... : it stops, since `used` is finite. */
  method Rename(base: Text, used: set<Key>) returns (k: Key)
    requires TextKey(base) in used
    ensures k == StoredKey(TextKey(base), used)
  {
    var suffix := 2;
    ghost var left := used;
    while TextKey(Suffixed(base, suffix)) in used
      invariant suffix >= 2 && left <= used
      invariant forall s :: s >= suffix && TextKey(Suffixed(base, s)) in used ==> TextKey(Suffixed(base, s)) in left
      invariant forall s :: 2 <= s < suffix ==> TextKey(Suffixed(base, s)) in used
      decreases |left|
    {
      left := left - {TextKey(Suffixed(base, suffix))};
      forall s | s > suffix && TextKey(Suffixed(base, s)) in used ensures TextKey(Suffixed(base, s)) in left {
        if Suffixed(base, s) == Suffixed(base, suffix) { SuffixedInjective(base, s, suffix); }
      }
      suffix := suffix + 1;
    }
    k := TextKey(Suffixed(base, suffix));
  }
}
