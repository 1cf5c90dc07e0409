/** Which values `canonicalize` refuses, by what stands where in them, and which of two names is written first. */
module JcsDomain {
  import opened Sequences
  import opened Texts
  import opened PyValues
  import opened ValuePaths
  import opened JcsString
  import opened Jcs
  import opened JcsWriter

  // ----- What a value refuses, position by position

  /** One step into a value: to an item of a list or a tuple, or to a key or a value of a dict. */
  function Part(v: Value, m: Move): Option<Value> {
    match m
    case Item(i) => if (v.List? || v.Tuple?) && i < |v.items| then Some(v.items[i]) else None
    case KeyAt(i) => if v.Dict? && i < |v.members| then Some(KeyValue(v.members[i].0)) else None
    case ValueAt(i) => if v.Dict? && i < |v.members| then Some(v.members[i].1) else None
  }

  function Reach(v: Value, p: Path): Option<Value>
    decreases |p|
  {
    if p == [] then Some(v) else if Part(v, p[0]).None? then None else Reach(Part(v, p[0]).value, p[1..])
  }

  /** The exception that a value raises by itself. */
  function Offence(x: Value, floats: Floats): Option<Failure> {
    match x
    case Int(n) => if floats(n).Inexact? || floats(n).OutOfRange? then Some(ValueError) else None
    case Float(NaN) => Some(ValueError)
    case Float(Infinite(_)) => Some(ValueError)
    case Str(text) => if AllScalars(text) then None else Some(ValueError)
    case Other(_) => Some(TypeError)
    case _ => None
  }

  function OffenceAt(v: Value, p: Path, floats: Floats): Option<Failure> {
    if Reach(v, p).None? then None else Offence(Reach(v, p).value, floats)
  }

  lemma OffenceStep(v: Value, m: Move, p: Path, floats: Floats)
    requires Part(v, m).Some?
    ensures OffenceAt(v, [m] + p, floats) == OffenceAt(Part(v, m).value, p, floats)
  {
    assert ([m] + p)[1..] == p;
  }

  /** An accepted value refuses nothing anywhere. */
  lemma {:induction false} NoOffence(v: Value, p: Path, floats: Floats)
    requires Accepted(v, floats)
    ensures OffenceAt(v, p, floats).None?
    decreases |p|
  {
    if p != [] && Part(v, p[0]).Some? {
      OffenceStep(v, p[0], p[1..], floats);
      assert p == [p[0]] + p[1..];
      NoOffence(Part(v, p[0]).value, p[1..], floats);
    }
  }

  // ----- The order of writing

  /** The name `a` comes before `b`: at the first UTF-16 code unit where they differ it has the smaller one, or it
      ends there. */
  ghost predicate NameBefore(a: Text, b: Text) {
    exists same: List<int>, x: List<int>, y: List<int> ::
      Units(a) == Cat(same, x) && Units(b) == Cat(same, y) && y.Cons? && (x.Nil? || x.head < y.head)
  }

  lemma {:induction false} FirstDifference(a: List<int>, b: List<int>)
    returns (same: List<int>, x: List<int>, y: List<int>)
    requires LexLe(a, b) && a != b
    ensures a == Cat(same, x) && b == Cat(same, y) && y.Cons? && (x.Nil? || x.head < y.head)
  {
    if a.Nil? || a.head < b.head {
      same, x, y := Nil, a, b;
    } else {
      same, x, y := FirstDifference(a.tail, b.tail);
      same := Cons(a.head, same);
    }
  }

  lemma KeysOrdered(a: Text, b: Text)
    requires AllScalars(a) && AllScalars(b) && KeyLe(a, b) && a != b
    ensures NameBefore(a, b)
  {
    KeyOrderIsUnitOrder(a, b);
    if Units(a) == Units(b) { UnitsInjective(a, b); }
    var same, x, y := FirstDifference(Units(a), Units(b));
  }

  /** The members of an object are written by the order of their names. */
  lemma NamesInOrder(v: Value, floats: Floats, i: nat, j: nat)
    requires v.Dict? && Accepted(v, floats) && DistinctKeys(v.members) && i < j < |SortedDict(v, floats)|
    ensures var ms := SortedDict(v, floats); NameBefore(ms[i].0, ms[j].0)
  {
    var ms := SortedDict(v, floats);
    MembersIncreaseByUnits(v, floats, i, j);
    var same, x, y := FirstDifference(Units(ms[i].0), Units(ms[j].0));
  }

  /** Of two parts of a value, the one that is written, or checked, first: items in order; the keys of a dict in
      order, all before its values; the values in the order of their names. */
  ghost predicate PartBefore(v: Value, a: Move, b: Move) {
    match a
    case Item(i) => b.Item? && i < b.i
    case KeyAt(i) => b.ValueAt? || (b.KeyAt? && i < b.i)
    case ValueAt(i) =>
      && b.ValueAt? && v.Dict? && i < |v.members| && b.i < |v.members|
      && v.members[i].0.TextKey? && v.members[b.i].0.TextKey?
      && NameBefore(v.members[i].0.text, v.members[b.i].0.text)
  }

  ghost predicate WrittenBefore(v: Value, a: Path, b: Path)
    decreases |a|
  {
    a != [] && b != [] &&
    (PartBefore(v, a[0], b[0])
     || (a[0] == b[0] && Part(v, a[0]).Some? && WrittenBefore(Part(v, a[0]).value, a[1..], b[1..])))
  }

  /** `p` refuses with `f`, and every other position that refuses comes after it. */
  ghost predicate First(v: Value, p: Path, f: Failure, floats: Floats) {
    && OffenceAt(v, p, floats) == Some(f)
    && forall q :: OffenceAt(v, q, floats).Some? && q != p ==> WrittenBefore(v, p, q)
  }

  /** The first refusal inside the first part that refuses is the first of the value. */
  lemma FirstBelow(v: Value, m: Move, p: Path, f: Failure, floats: Floats)
    requires Part(v, m).Some? && First(Part(v, m).value, p, f, floats) && Offence(v, floats).None?
    requires forall q :: q != [] && q[0] != m && OffenceAt(v, q, floats).Some? ==> PartBefore(v, m, q[0])
    ensures First(v, [m] + p, f, floats)
  {
    OffenceStep(v, m, p, floats);
    assert ([m] + p)[1..] == p;
    forall q | OffenceAt(v, q, floats).Some? && q != [m] + p ensures WrittenBefore(v, [m] + p, q) {
      if q[0] == m {
        assert q == [m] + q[1..];
        OffenceStep(v, m, q[1..], floats);
      }
    }
  }

  lemma {:induction false} FirstProblem(v: Value, floats: Floats) returns (p: Path)
    requires ProperDicts(v) && Problem(v, floats).Some?
    ensures First(v, p, Problem(v, floats).value, floats)
    decreases v, 2, 0
  {
    match v
    case List(items) => p := FirstItemProblem(v, items, 0, floats);
    case Tuple(items) => p := FirstItemProblem(v, items, 0, floats);
    case Dict(members) =>
      if KeysProblem(members).Some? {
        p := FirstKeyProblem(v, 0, floats);
      } else {
        p := FirstValueProblem(v, 0, floats);
      }
    case _ => p := [];
  }

  lemma {:induction false} FirstItemProblem(v: Value, items: seq<Value>, i: nat, floats: Floats) returns (p: Path)
    requires ProperDicts(v) && (v.List? || v.Tuple?) && items == v.items && i <= |items|
    requires ItemsProblem(v, items[i..], floats).Some?
    requires forall j :: 0 <= j < i ==> Accepted(items[j], floats)
    ensures First(v, p, ItemsProblem(v, items[i..], floats).value, floats)
    decreases v, 1, |items| - i
  {
    assert items[i..][1..] == items[i + 1..];
    assert items[i] in items;
    if Problem(items[i], floats).Some? {
      p := FirstProblem(items[i], floats);
      forall q: Path | q != [] && q[0] != Item(i) && OffenceAt(v, q, floats).Some?
        ensures PartBefore(v, Item(i), q[0])
      {
        assert q == [q[0]] + q[1..];
        OffenceStep(v, q[0], q[1..], floats);
        if q[0].i < i { NoOffence(items[q[0].i], q[1..], floats); }
      }
      FirstBelow(v, Item(i), p, Problem(items[i], floats).value, floats);
      p := [Item(i)] + p;
    } else {
      NoProblemIffAccepted(items[i], floats);
      p := FirstItemProblem(v, items, i + 1, floats);
    }
  }

  /** A key is its own only position. */
  lemma KeyFirst(k: Key, f: Failure, floats: Floats)
    requires Offence(KeyValue(k), floats) == Some(f)
    ensures First(KeyValue(k), [], f, floats)
  {
    forall q ensures OffenceAt(KeyValue(k), q, floats).None? || q == [] {
      if q != [] { assert Part(KeyValue(k), q[0]).None?; }
    }
  }

  predicate KeyFine(k: Key) { k.TextKey? && AllScalars(k.text) }

  /** Nothing refuses at a key that is fine. */
  lemma FineKey(v: Value, q: Path, floats: Floats)
    requires v.Dict? && q != [] && q[0].KeyAt? && q[0].i < |v.members| && KeyFine(v.members[q[0].i].0)
    ensures OffenceAt(v, q, floats).None?
  {
    assert q == [q[0]] + q[1..];
    OffenceStep(v, q[0], q[1..], floats);
    NoOffence(KeyValue(v.members[q[0].i].0), q[1..], floats);
  }

  lemma {:induction false} FirstKeyProblem(v: Value, i: nat, floats: Floats) returns (p: Path)
    requires v.Dict? && i <= |v.members| && KeysProblem(v.members[i..]).Some?
    requires forall j :: 0 <= j < i ==> KeyFine(v.members[j].0)
    ensures First(v, p, KeysProblem(v.members[i..]).value, floats)
    decreases |v.members| - i
  {
    var k := v.members[i].0;
    assert v.members[i..][1..] == v.members[i + 1..];
    if KeyFine(k) {
      p := FirstKeyProblem(v, i + 1, floats);
    } else {
      var f := KeysProblem(v.members[i..]).value;
      KeyFirst(k, f, floats);
      forall q: Path | q != [] && q[0] != KeyAt(i) && OffenceAt(v, q, floats).Some?
        ensures PartBefore(v, KeyAt(i), q[0])
      {
        if q[0].KeyAt? && q[0].i < i { FineKey(v, q, floats); }
      }
      FirstBelow(v, KeyAt(i), [], f, floats);
      p := [KeyAt(i)] + [];
    }
  }

  /** The place of a sorted member in the dict. */
  lemma SortedPlace(v: Value, floats: Floats, k: nat) returns (i: nat)
    requires v.Dict? && TextKeys(v.members) && k < |SortedDict(v, floats)|
    ensures var ms := SortedDict(v, floats);
            i < |v.members| && v.members[i].0.text == ms[k].0 && v.members[i].1 == ms[k].1
  {
    var ms, sorted := DictMembers(v, floats), SortedDict(v, floats);
    SortedHas(ms, MemberLe, sorted[k]);
    i :| 0 <= i < |ms| && ms[i] == sorted[k];
  }

  /** The place of a member of the dict among the sorted ones. */
  lemma PlaceSorted(v: Value, floats: Floats, j: nat) returns (l: nat)
    requires v.Dict? && TextKeys(v.members) && j < |v.members|
    ensures var ms := SortedDict(v, floats);
            l < |ms| && v.members[j].0.text == ms[l].0 && v.members[j].1 == ms[l].1
  {
    var ms, sorted := DictMembers(v, floats), SortedDict(v, floats);
    SortedHas(ms, MemberLe, ms[j]);
    assert ms[j] in ms;
    l :| 0 <= l < |sorted| && sorted[l] == ms[j];
  }

  /** The values of smaller names are fine, so this one's refusal comes first. */
  lemma ValuesAfter(v: Value, k: nat, i: nat, q: Path, floats: Floats)
    requires ProperDicts(v) && v.Dict? && KeysProblem(v.members).None? && k < |SortedDict(v, floats)|
    requires i < |v.members| && v.members[i].0.text == SortedDict(v, floats)[k].0
    requires forall l :: 0 <= l < k ==> Accepted(SortedDict(v, floats)[l].1, floats)
    requires q != [] && q[0] != ValueAt(i) && OffenceAt(v, q, floats).Some?
    ensures PartBefore(v, ValueAt(i), q[0])
  {
    var ms := SortedDict(v, floats);
    assert q == [q[0]] + q[1..];
    assert Part(v, q[0]).Some?;
    if q[0].KeyAt? {
      FineKey(v, q, floats);
    } else {
      var j := q[0].i;
      var l := PlaceSorted(v, floats, j);
      OffenceStep(v, q[0], q[1..], floats);
      if l < k { NoOffence(ms[l].1, q[1..], floats); }
      SortedIncreasing(DictMembers(v, floats));
      SortedNames(v, floats);
      if l > k { KeysOrdered(ms[k].0, ms[l].0); }
    }
  }

  lemma {:induction false} FirstValueProblem(v: Value, k: nat, floats: Floats) returns (p: Path)
    requires ProperDicts(v) && v.Dict? && KeysProblem(v.members).None? && k <= |SortedDict(v, floats)|
    requires MembersProblem(v, SortedDict(v, floats)[k..], floats).Some?
    requires forall l :: 0 <= l < k ==> Accepted(SortedDict(v, floats)[l].1, floats)
    ensures First(v, p, MembersProblem(v, SortedDict(v, floats)[k..], floats).value, floats)
    decreases v, 1, |SortedDict(v, floats)| - k
  {
    var ms := SortedDict(v, floats);
    assert ms[k..][1..] == ms[k + 1..];
    if Problem(ms[k].1, floats).Some? {
      var i := SortedPlace(v, floats, k);
      assert v.members[i] in v.members;
      p := FirstProblem(ms[k].1, floats);
      forall q: Path | q != [] && q[0] != ValueAt(i) && OffenceAt(v, q, floats).Some?
        ensures PartBefore(v, ValueAt(i), q[0])
      {
        ValuesAfter(v, k, i, q, floats);
      }
      FirstBelow(v, ValueAt(i), p, Problem(ms[k].1, floats).value, floats);
      p := [ValueAt(i)] + p;
    } else {
      NoProblemIffAccepted(ms[k].1, floats);
      p := FirstValueProblem(v, k + 1, floats);
    }
  }

  /** `canonicalize` succeeds exactly when nothing in the value refuses. */
  lemma AcceptedExactly(v: Value, floats: Floats)
    requires ProperDicts(v)
    ensures Accepted(v, floats) <==> forall p :: OffenceAt(v, p, floats).None?
  {
    NoProblemIffAccepted(v, floats);
    if Accepted(v, floats) {
      forall p ensures OffenceAt(v, p, floats).None? { NoOffence(v, p, floats); }
    } else {
      var p := FirstProblem(v, floats);
    }
  }
}
