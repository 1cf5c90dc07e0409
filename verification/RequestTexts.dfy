/** The text of a request: the depth-bounded traversals that scan and redact it
    (`_extract_text_fields`, `_has_deep_text`, `_deep_redact`). */
module RequestTexts {
  import opened Texts
  import opened PyValues

  /** Deepest level that is scanned and redacted. */
  const SCAN_DEPTH := 32

  /** A traversal stops below its limit; None is a traversal without one. */
  predicate Past(depth: nat, limit: Option<nat>) { limit.Some? && depth > limit.value }

  // ----- The strings of a value

  /** The strings of `v` in order, its dict keys included when `keys` is set. */
  function Strings(v: Value, depth: nat, limit: Option<nat>, keys: bool): seq<Text>
    decreases v
  {
    if Past(depth, limit) then []
    else match v
      case Str(text) => [text]
      case Dict(members) => MemberStrings(members, depth + 1, limit, keys)
      case List(items) => ItemStrings(items, depth + 1, limit, keys)
      case _ => []
  }

  function ItemStrings(items: seq<Value>, depth: nat, limit: Option<nat>, keys: bool): seq<Text>
    decreases items
  {
    if items == [] then [] else Strings(items[0], depth, limit, keys) + ItemStrings(items[1..], depth, limit, keys)
  }

  function MemberStrings(members: seq<(Key, Value)>, depth: nat, limit: Option<nat>, keys: bool): seq<Text>
    decreases members
  {
    if members == [] then []
    else
      assert (members decreases to members[0]);
      KeyStrings(members[0].0, depth, limit, keys) + Strings(members[0].1, depth, limit, keys)
      + MemberStrings(members[1..], depth, limit, keys)
  }

  function KeyStrings(k: Key, depth: nat, limit: Option<nat>, keys: bool): seq<Text> {
    if keys && k.TextKey? && !Past(depth, limit) then [k.text] else []
  }

  /** `_has_deep_text`: a string or a container, not empty, below the scan depth. */
  predicate HasDeepText(v: Value, depth: nat)
    decreases v
  {
    match v
    case Str(text) => depth > SCAN_DEPTH && text.Cons?
    case Dict(members) => if depth > SCAN_DEPTH then members != [] else DeepMembers(members, depth + 1)
    case List(items) => if depth > SCAN_DEPTH then items != [] else DeepItems(items, depth + 1)
    case _ => false
  }

  predicate DeepItems(items: seq<Value>, depth: nat)
    decreases items
  {
    items != [] && (HasDeepText(items[0], depth) || DeepItems(items[1..], depth))
  }

  predicate DeepMembers(members: seq<(Key, Value)>, depth: nat)
    decreases members
  {
    members != [] && (
      assert (members decreases to members[0]);
      DeepKey(members[0].0, depth) || HasDeepText(members[0].1, depth) || DeepMembers(members[1..], depth))
  }

  predicate DeepKey(k: Key, depth: nat) { depth > SCAN_DEPTH && k.TextKey? && k.text.Cons? }

  function NonEmpty(ts: seq<Text>): seq<Text> {
    if ts == [] then [] else if ts[0].Cons? then [ts[0]] + NonEmpty(ts[1..]) else NonEmpty(ts[1..])
  }

  lemma {:induction false} NonEmptyCat(a: seq<Text>, b: seq<Text>)
    ensures NonEmpty(a + b) == NonEmpty(a) + NonEmpty(b)
  {
    if a == [] {
      assert a + b == b;
    } else {
      assert (a + b)[1..] == a[1..] + b;
      NonEmptyCat(a[1..], b);
    }
  }

  lemma {:induction false} NonEmptyHas(ts: seq<Text>, t: Text)
    ensures t in NonEmpty(ts) <==> t in ts && t.Cons?
  {
    if ts != [] {
      NonEmptyHas(ts[1..], t);
      assert ts == [ts[0]] + ts[1..];
    }
  }

  const BOUNDED: Option<nat> := Some(SCAN_DEPTH)

  /** Without deep text, the bounded traversal misses no string that is not empty. */
  lemma {:induction false} BoundedStringsComplete(v: Value, depth: nat, keys: bool)
    requires !HasDeepText(v, depth)
    ensures NonEmpty(Strings(v, depth, BOUNDED, keys)) == NonEmpty(Strings(v, depth, None, keys))
    decreases v
  {
    match v
    case Dict(members) => if depth <= SCAN_DEPTH { BoundedMembersComplete(members, depth + 1, keys); }
    case List(items) => if depth <= SCAN_DEPTH { BoundedItemsComplete(items, depth + 1, keys); }
    case _ =>
  }

  lemma {:induction false} BoundedItemsComplete(items: seq<Value>, depth: nat, keys: bool)
    requires !DeepItems(items, depth)
    ensures NonEmpty(ItemStrings(items, depth, BOUNDED, keys)) == NonEmpty(ItemStrings(items, depth, None, keys))
    decreases items
  {
    if items != [] {
      BoundedStringsComplete(items[0], depth, keys);
      BoundedItemsComplete(items[1..], depth, keys);
      NonEmptyCat(Strings(items[0], depth, BOUNDED, keys), ItemStrings(items[1..], depth, BOUNDED, keys));
      NonEmptyCat(Strings(items[0], depth, None, keys), ItemStrings(items[1..], depth, None, keys));
    }
  }

  lemma {:induction false} BoundedMembersComplete(members: seq<(Key, Value)>, depth: nat, keys: bool)
    requires !DeepMembers(members, depth)
    ensures NonEmpty(MemberStrings(members, depth, BOUNDED, keys))
      == NonEmpty(MemberStrings(members, depth, None, keys))
    decreases members
  {
    if members != [] {
      assert (members decreases to members[0]);
      BoundedStringsComplete(members[0].1, depth, keys);
      BoundedMembersComplete(members[1..], depth, keys);
      forall limit | limit == BOUNDED || limit == None
        ensures NonEmpty(MemberStrings(members, depth, limit, keys))
             == NonEmpty(KeyStrings(members[0].0, depth, limit, keys))
               + NonEmpty(Strings(members[0].1, depth, limit, keys))
              + NonEmpty(MemberStrings(members[1..], depth, limit, keys))
      {
        var k, s := KeyStrings(members[0].0, depth, limit, keys), Strings(members[0].1, depth, limit, keys);
        NonEmptyCat(k, s);
        NonEmptyCat(k + s, MemberStrings(members[1..], depth, limit, keys));
      }
    }
  }

  /** Text that is not deep at one level is not deep at a smaller one. */
  lemma {:induction false} DeepTextMonotone(v: Value, depth: nat, below: nat)
    requires depth <= below && HasDeepText(v, depth)
    ensures HasDeepText(v, below)
    decreases v
  {
    match v
    case Dict(members) => if depth <= SCAN_DEPTH { DeepMembersMonotone(members, depth + 1, below + 1); }
    case List(items) => if depth <= SCAN_DEPTH { DeepItemsMonotone(items, depth + 1, below + 1); }
    case _ =>
  }

  lemma {:induction false} DeepItemsMonotone(items: seq<Value>, depth: nat, below: nat)
    requires depth <= below && DeepItems(items, depth)
    ensures DeepItems(items, below)
    decreases items
  {
    if HasDeepText(items[0], depth) {
      DeepTextMonotone(items[0], depth, below);
    } else {
      DeepItemsMonotone(items[1..], depth, below);
    }
  }

  lemma {:induction false} DeepMembersMonotone(members: seq<(Key, Value)>, depth: nat, below: nat)
    requires depth <= below && DeepMembers(members, depth)
    ensures DeepMembers(members, below)
    decreases members
  {
    assert (members decreases to members[0]);
    if HasDeepText(members[0].1, depth) { DeepTextMonotone(members[0].1, depth, below); }
    else if !DeepKey(members[0].0, depth) { DeepMembersMonotone(members[1..], depth, below); }
  }

  // ----- The extraction, as it runs

  lemma ItemsFrom(items: seq<Value>, i: nat, depth: nat, limit: Option<nat>, keys: bool, before: seq<Text>)
    requires i < |items|
    ensures before + ItemStrings(items[i..], depth, limit, keys)
         == (before + Strings(items[i], depth, limit, keys)) + ItemStrings(items[i + 1..], depth, limit, keys)
  {
    assert items[i..][1..] == items[i + 1..];
  }

  lemma MembersFrom(members: seq<(Key, Value)>, i: nat, depth: nat, limit: Option<nat>, keys: bool, before: seq<Text>)
    requires i < |members|
    ensures before + MemberStrings(members[i..], depth, limit, keys)
         == before + KeyStrings(members[i].0, depth, limit, keys) + Strings(members[i].1, depth, limit, keys)
          + MemberStrings(members[i + 1..], depth, limit, keys)
  {
    assert members[i..][1..] == members[i + 1..];
  }

  method ExtractTextFields(v: Value, depth: nat) returns (texts: seq<Text>)
    ensures texts == Strings(v, depth, BOUNDED, true)
    decreases v
  {
    texts := [];
    if depth > SCAN_DEPTH { return; }
    match v
    case Str(text) => texts := texts + [text];
    case Dict(members) => texts := ExtractMembers(members, depth + 1);
    case List(items) => texts := ExtractItems(items, depth + 1);
    case _ =>
  }

  method ExtractMembers(members: seq<(Key, Value)>, depth: nat) returns (texts: seq<Text>)
    ensures texts == MemberStrings(members, depth, BOUNDED, true)
    decreases members
  {
    texts := [];
    for i := 0 to |members|
      invariant texts + MemberStrings(members[i..], depth, BOUNDED, true)
        == MemberStrings(members, depth, BOUNDED, true)
    {
      assert (members decreases to members[i]);
      MembersFrom(members, i, depth, BOUNDED, true, texts);
      var more := ExtractTextFields(members[i].1, depth);
      texts := texts + KeyStrings(members[i].0, depth, BOUNDED, true);
      texts := texts + more;
    }
  }

  method ExtractItems(items: seq<Value>, depth: nat) returns (texts: seq<Text>)
    ensures texts == ItemStrings(items, depth, BOUNDED, true)
    decreases items
  {
    texts := [];
    for i := 0 to |items|
      invariant texts + ItemStrings(items[i..], depth, BOUNDED, true) == ItemStrings(items, depth, BOUNDED, true)
    {
      ItemsFrom(items, i, depth, BOUNDED, true, texts);
      var more := ExtractTextFields(items[i], depth);
      texts := texts + more;
    }
  }
}
