/** How the Presidio engine resolves overlapping spans, rewrites the text, and counts. */
module SpanMerge {
  import opened Sequences
  import opened Texts

  type Category = nat

  /** A detected span of a text; it is never empty. */
  datatype RawSpan = Span(start: nat, end: nat, category: Category, mask: seq<char>)
  type Span = s: RawSpan | s.start < s.end witness Span(0, 1, 0, [])

  // ----- Sorting

  /** The sort key `(start, -(end - start))`: earliest first, longest on ties. */
  predicate Before(a: Span, b: Span) { a.start < b.start || (a.start == b.start && a.end >= b.end) }

  function SortedSpans(spans: seq<Span>): seq<Span> { Sorted(spans, Before) }

  predicate InOrder(spans: seq<Span>) { Ordered(spans, Before) }

  /** The sort orders the spans and keeps each. */
  lemma SortedKeeps(spans: seq<Span>)
    ensures InOrder(SortedSpans(spans)) && multiset(SortedSpans(spans)) == multiset(spans)
  {
    SortedOrdered(spans, Before);
    SortedCounts(spans, Before);
  }

  // ----- Merging

  /** One span: it extends the last accepted one when it overlaps it, or is accepted itself. */
  function Accept(accepted: seq<Span>, s: Span): seq<Span> {
    var last := |accepted| - 1;
    if accepted != [] && s.start < accepted[last].end then
      if s.end > accepted[last].end then accepted[last := accepted[last].(end := s.end)] else accepted
    else accepted + [s]
  }

  function Merged(spans: seq<Span>): seq<Span> {
    if spans == [] then [] else Accept(Merged(spans[..|spans| - 1]), spans[|spans| - 1])
  }

  function Accepted(spans: seq<Span>): seq<Span> { Merged(SortedSpans(spans)) }

  /** The character at `p` is inside a span. */
  predicate Covers(spans: seq<Span>, p: int) { exists i :: 0 <= i < |spans| && spans[i].start <= p < spans[i].end }

  /** The boundary before the character at `b` is inside a span. */
  predicate Joins(spans: seq<Span>, b: int) { exists i :: 0 <= i < |spans| && spans[i].start < b < spans[i].end }

  /** In order and pairwise disjoint. */
  predicate Apart(spans: seq<Span>) { forall i, j :: 0 <= i < j < |spans| ==> spans[i].end <= spans[j].start }

  lemma AcceptKeeps(accepted: seq<Span>, s: Span)
    requires Apart(accepted) && forall i :: 0 <= i < |accepted| ==> accepted[i].start <= s.start
    ensures var next := Accept(accepted, s);
            Apart(next) && forall i :: 0 <= i < |next| ==> next[i].start <= s.start
    ensures forall p :: Covers(Accept(accepted, s), p) <==> Covers(accepted, p) || s.start <= p < s.end
    ensures forall b :: Joins(Accept(accepted, s), b) <==> Joins(accepted, b) || s.start < b < s.end
  {
    var next, last := Accept(accepted, s), |accepted| - 1;
    forall p ensures Covers(next, p) <==> Covers(accepted, p) || s.start <= p < s.end { AcceptAt(accepted, s, p); }
    forall b ensures Joins(next, b) <==> Joins(accepted, b) || s.start < b < s.end { AcceptAt(accepted, s, b); }
  }

  lemma AcceptAt(accepted: seq<Span>, s: Span, p: int)
    requires Apart(accepted) && forall i :: 0 <= i < |accepted| ==> accepted[i].start <= s.start
    ensures Covers(Accept(accepted, s), p) <==> Covers(accepted, p) || s.start <= p < s.end
    ensures Joins(Accept(accepted, s), p) <==> Joins(accepted, p) || s.start < p < s.end
  {
    var next, last := Accept(accepted, s), |accepted| - 1;
    forall i | 0 <= i < |accepted|
      ensures i < |next| && next[i].start == accepted[i].start && next[i].end >= accepted[i].end
    {}
    if accepted == [] || s.start >= accepted[last].end {
      assert next[|accepted|] == s;
    } else {
      assert next[last].end >= s.end && next[last].start <= s.start;
      assert next[last].end == s.end || next[last] == accepted[last];
    }
  }

  /** Merging keeps the union of the spans and the boundaries inside them, as disjoint spans. */
  lemma {:induction false} MergedIsUnion(spans: seq<Span>)
    requires InOrder(spans)
    ensures Apart(Merged(spans))
    ensures forall i :: 0 <= i < |Merged(spans)| && spans != [] ==> Merged(spans)[i].start <= spans[|spans| - 1].start
    ensures forall p :: Covers(Merged(spans), p) <==> Covers(spans, p)
    ensures forall b :: Joins(Merged(spans), b) <==> Joins(spans, b)
  {
    if spans != [] {
      var n := |spans| - 1;
      MergedIsUnion(spans[..n]);
      if n > 0 { assert spans[..n][n - 1] == spans[n - 1] && Before(spans[n - 1], spans[n]); }
      AcceptKeeps(Merged(spans[..n]), spans[n]);
      forall p ensures Covers(spans, p) <==> Covers(spans[..n], p) || spans[n].start <= p < spans[n].end {
        LastSpan(spans, p);
      }
      forall b ensures Joins(spans, b) <==> Joins(spans[..n], b) || spans[n].start < b < spans[n].end {
        LastSpan(spans, b);
      }
    }
  }

  lemma LastSpan(spans: seq<Span>, p: int)
    requires spans != []
    ensures var n := |spans| - 1;
            && (Covers(spans, p) <==> Covers(spans[..n], p) || spans[n].start <= p < spans[n].end)
            && (Joins(spans, p) <==> Joins(spans[..n], p) || spans[n].start < p < spans[n].end)
  {
    var n := |spans| - 1;
    forall i | 0 <= i < n ensures spans[..n][i] == spans[i] {}
  }

  // ----- Disjoint spans are determined by what they cover and join

  predicate SamePairs(a: seq<Span>, b: seq<Span>) {
    |a| == |b| && forall i :: 0 <= i < |a| ==> a[i].start == b[i].start && a[i].end == b[i].end
  }

  /** The tail of disjoint spans covers and joins what lies past the first. */
  lemma TailSpans(spans: seq<Span>, p: int)
    requires Apart(spans) && spans != []
    ensures Covers(spans[1..], p) <==> Covers(spans, p) && p >= spans[0].end
    ensures Joins(spans[1..], p) <==> Joins(spans, p) && p >= spans[0].end
  {
    forall i | 0 <= i < |spans[1..]| ensures spans[1..][i] == spans[i + 1] {}
    if Covers(spans, p) && p >= spans[0].end {
      var i :| 0 <= i < |spans| && spans[i].start <= p < spans[i].end;
      assert spans[1..][i - 1] == spans[i];
    }
    if Joins(spans, p) && p >= spans[0].end {
      var i :| 0 <= i < |spans| && spans[i].start < p < spans[i].end;
      assert spans[1..][i - 1] == spans[i];
    }
  }

  lemma FirstStart(a: seq<Span>, b: seq<Span>)
    requires Apart(a) && Apart(b) && a != [] && forall p :: Covers(a, p) <==> Covers(b, p)
    ensures b != [] && a[0].start >= b[0].start
  {
    assert Covers(a, a[0].start);
    var i :| 0 <= i < |b| && b[i].start <= a[0].start < b[i].end;
  }

  lemma EndNotJoined(b: seq<Span>)
    requires Apart(b) && b != []
    ensures !Joins(b, b[0].end)
  {}

  lemma NotInside(a: seq<Span>, x: int)
    requires a != [] && !Joins(a, x)
    ensures !(a[0].start < x < a[0].end)
  {}

  lemma FirstEnd(a: seq<Span>, b: seq<Span>)
    requires Apart(b) && a != [] && b != [] && a[0].start == b[0].start && forall p :: Joins(a, p) <==> Joins(b, p)
    ensures a[0].end <= b[0].end
  {
    EndNotJoined(b);
    NotInside(a, b[0].end);
  }

  lemma {:induction false} DisjointDetermined(a: seq<Span>, b: seq<Span>)
    requires Apart(a) && Apart(b)
    requires forall p :: Covers(a, p) <==> Covers(b, p)
    requires forall p :: Joins(a, p) <==> Joins(b, p)
    ensures SamePairs(a, b)
    decreases |a|
  {
    if a == [] {
      if b != [] { assert Covers(b, b[0].start); }
    } else {
      FirstStart(a, b);
      FirstStart(b, a);
      FirstEnd(a, b);
      FirstEnd(b, a);
      forall p ensures Covers(a[1..], p) <==> Covers(b[1..], p) { TailSpans(a, p); TailSpans(b, p); }
      forall p ensures Joins(a[1..], p) <==> Joins(b[1..], p) { TailSpans(a, p); TailSpans(b, p); }
      DisjointDetermined(a[1..], b[1..]);
      forall i | 0 <= i < |a| ensures a[i].start == b[i].start && a[i].end == b[i].end {
        if i > 0 { assert a[i] == a[1..][i - 1] && b[i] == b[1..][i - 1]; }
      }
    }
  }

  // ----- Main results on spans

  lemma AcceptedIsUnion(spans: seq<Span>)
    ensures Apart(Accepted(spans))
    ensures forall p :: Covers(Accepted(spans), p) <==> Covers(spans, p)
    ensures forall b :: Joins(Accepted(spans), b) <==> Joins(spans, b)
  {
    SortedKeeps(spans);
    MergedIsUnion(SortedSpans(spans));
    forall p ensures Covers(SortedSpans(spans), p) <==> Covers(spans, p) {
      SamePositions(spans, SortedSpans(spans), p);
    }
    forall b ensures Joins(SortedSpans(spans), b) <==> Joins(spans, b) { SamePositions(spans, SortedSpans(spans), b); }
  }

  lemma SamePositions(a: seq<Span>, b: seq<Span>, p: int)
    requires multiset(a) == multiset(b)
    ensures Covers(a, p) <==> Covers(b, p)
    ensures Joins(a, p) <==> Joins(b, p)
  {
    forall i | 0 <= i < |a| ensures a[i] in b { assert a[i] in multiset(b); }
    forall i | 0 <= i < |b| ensures b[i] in a { assert b[i] in multiset(a); }
  }

  /** Some span of `spans` has these ends. */
  predicate HasPair(spans: seq<Span>, start: nat, end: nat) {
    exists i :: 0 <= i < |spans| && spans[i].start == start && spans[i].end == end
  }

  /** The accepted start/end pairs depend on the set of detected pairs only: not on the order of the
      language passes, nor on a span that several passes find. */
  lemma OrderIrrelevant(a: seq<Span>, b: seq<Span>)
    requires forall start, end :: HasPair(a, start, end) <==> HasPair(b, start, end)
    ensures SamePairs(Accepted(a), Accepted(b))
  {
    AcceptedIsUnion(a);
    AcceptedIsUnion(b);
    forall p ensures (Covers(a, p) <==> Covers(b, p)) && (Joins(a, p) <==> Joins(b, p)) {
      PairsDecide(a, b, p);
      PairsDecide(b, a, p);
    }
    DisjointDetermined(Accepted(a), Accepted(b));
  }

  lemma PairsDecide(a: seq<Span>, b: seq<Span>, p: int)
    requires forall start, end :: HasPair(a, start, end) <==> HasPair(b, start, end)
    ensures Covers(a, p) ==> Covers(b, p)
    ensures Joins(a, p) ==> Joins(b, p)
  {
    if Covers(a, p) {
      var i :| 0 <= i < |a| && a[i].start <= p < a[i].end;
      assert HasPair(a, a[i].start, a[i].end);
      assert HasPair(b, a[i].start, a[i].end);
    }
    if Joins(a, p) {
      var i :| 0 <= i < |a| && a[i].start < p < a[i].end;
      assert HasPair(a, a[i].start, a[i].end);
      assert HasPair(b, a[i].start, a[i].end);
    }
  }

  // ----- Whose category and mask an accepted span has

  /** Of the detected spans that start at `start`, the longest; of the longest, the first detected. */
  function Leader(spans: seq<Span>, start: nat): Option<Span> {
    if spans == [] then None
    else
      var rest := Leader(spans[1..], start);
      if spans[0].start == start && (rest.None? || spans[0].end >= rest.value.end) then Some(spans[0]) else rest
  }

  /** The first span of a sorted list that starts at `start`. */
  function FirstAt(spans: seq<Span>, start: nat): (r: Option<Span>)
    ensures r.Some? ==> r.value in spans && r.value.start == start
    ensures r.None? ==> forall i :: 0 <= i < |spans| ==> spans[i].start != start
  {
    if spans == [] then None else if spans[0].start == start then Some(spans[0]) else FirstAt(spans[1..], start)
  }

  lemma {:induction false} InsertFirst(x: Span, spans: seq<Span>, start: nat)
    requires InOrder(spans)
    ensures var was := FirstAt(spans, start);
            FirstAt(Insert(x, spans, Before), start) ==
              if x.start == start && (was.None? || x.end >= was.value.end) then Some(x) else was
  {
    if spans == [] {
    } else if Before(x, spans[0]) {
      assert ([x] + spans)[1..] == spans;
      if x.start == start && FirstAt(spans, start).Some? {
        var i :| 0 <= i < |spans| && spans[i] == FirstAt(spans, start).value;
        assert i > 0 ==> Before(spans[0], spans[i]);
      }
    } else {
      var rest := Insert(x, spans[1..], Before);
      assert ([spans[0]] + rest)[1..] == rest;
      InsertFirst(x, spans[1..], start);
    }
  }

  lemma {:induction false} SortedFirst(spans: seq<Span>, start: nat)
    ensures FirstAt(SortedSpans(spans), start) == Leader(spans, start)
  {
    if spans != [] {
      SortedFirst(spans[1..], start);
      SortedKeeps(spans[1..]);
      InsertFirst(spans[0], SortedSpans(spans[1..]), start);
    }
  }

  lemma {:induction false} FirstOfMore(spans: seq<Span>, s: Span, start: nat)
    ensures FirstAt(spans + [s], start) ==
      if FirstAt(spans, start).Some? then FirstAt(spans, start) else if s.start == start then Some(s) else None
  {
    if spans == [] {
      assert spans + [s] == [s];
    } else {
      assert (spans + [s])[1..] == spans[1..] + [s];
      FirstOfMore(spans[1..], s, start);
    }
  }

  /** The accepted span has the start, category and mask of `f`, and reaches at least as far. */
  predicate Extends(a: Span, f: Option<Span>) {
    f.Some? && a == f.value.(end := a.end) && a.end >= f.value.end
  }

  ghost predicate AllExtend(accepted: seq<Span>, spans: seq<Span>) {
    forall i :: 0 <= i < |accepted| ==> Extends(accepted[i], FirstAt(spans, accepted[i].start))
  }

  lemma StillExtends(a: Span, spans: seq<Span>, s: Span)
    requires Extends(a, FirstAt(spans, a.start))
    ensures Extends(a, FirstAt(spans + [s], a.start))
    ensures s.end > a.end ==> Extends(a.(end := s.end), FirstAt(spans + [s], a.start))
  {
    FirstOfMore(spans, s, a.start);
  }

  lemma AcceptExtends(accepted: seq<Span>, spans: seq<Span>, s: Span)
    requires AllExtend(accepted, spans)
    requires accepted == [] || s.start >= accepted[|accepted| - 1].end ==> FirstAt(spans, s.start) == None
    ensures AllExtend(Accept(accepted, s), spans + [s])
  {
    var next := Accept(accepted, s);
    forall i | 0 <= i < |next| ensures Extends(next[i], FirstAt(spans + [s], next[i].start)) {
      if i < |accepted| { StillExtends(accepted[i], spans, s); } else { FirstOfMore(spans, s, s.start); }
    }
  }

  lemma PastEnd(accepted: seq<Span>, p: nat)
    requires Apart(accepted) && (accepted == [] || p >= accepted[|accepted| - 1].end)
    ensures !Covers(accepted, p)
  {}

  lemma UncoveredStart(spans: seq<Span>, p: nat)
    requires !Covers(spans, p)
    ensures FirstAt(spans, p) == None
  {}

  lemma {:induction false} MergedExtendFirst(spans: seq<Span>)
    requires InOrder(spans)
    ensures AllExtend(Merged(spans), spans)
  {
    if spans != [] {
      var before, s := spans[..|spans| - 1], spans[|spans| - 1];
      MergedExtendFirst(before);
      assert spans == before + [s];
      MergedIsUnion(before);
      var merged := Merged(before);
      if merged == [] || s.start >= merged[|merged| - 1].end {
        PastEnd(merged, s.start);
        UncoveredStart(before, s.start);
      }
      AcceptExtends(merged, before, s);
    }
  }

  /** Every accepted span starts where a detected one does, and keeps the category and mask of the longest
      of those, the first detected on ties; it may end later. */
  lemma AcceptedExtendsLeader(spans: seq<Span>, i: nat)
    requires i < |Accepted(spans)|
    ensures Extends(Accepted(spans)[i], Leader(spans, Accepted(spans)[i].start))
  {
    SortedKeeps(spans);
    MergedExtendFirst(SortedSpans(spans));
    SortedFirst(spans, Accepted(spans)[i].start);
  }

  // ----- The rewritten text

  predicate Within(spans: seq<Span>, n: nat) { forall i :: 0 <= i < |spans| ==> spans[i].end <= n }

  /** `replace_spans` from `position` on. */
  function ReplacedFrom(text: seq<char>, spans: seq<Span>, position: nat): seq<char>
    requires Apart(spans) && Within(spans, |text|) && position <= |text|
    requires forall i :: 0 <= i < |spans| ==> position <= spans[i].start
    decreases |spans|
  {
    if spans == [] then text[position..]
    else text[position..spans[0].start] + spans[0].mask + ReplacedFrom(text, spans[1..], spans[0].end)
  }

  /** The text from `position` on, character by character: one outside all spans is itself, the first of
      a span becomes its mask, and the others of a span are dropped. */
  function Rewritten(text: seq<char>, spans: seq<Span>, position: nat): seq<char>
    requires position <= |text|
    decreases |text| - position
  {
    if position == |text| then []
    else
      var here := if Covers(spans, position) then MaskAt(spans, position) else [text[position]];
      here + Rewritten(text, spans, position + 1)
  }

  function MaskAt(spans: seq<Span>, p: nat): seq<char> {
    if spans == [] then [] else if spans[0].start == p then spans[0].mask else MaskAt(spans[1..], p)
  }

  /** Before the first span every character is kept. */
  lemma {:induction false} KeptUpTo(text: seq<char>, spans: seq<Span>, position: nat, end: nat)
    requires position <= end <= |text| && forall p :: position <= p < end ==> !Covers(spans, p)
    ensures Rewritten(text, spans, position) == text[position..end] + Rewritten(text, spans, end)
    decreases end - position
  {
    if position < end {
      KeptUpTo(text, spans, position + 1, end);
      Regroup([text[position]], text[position + 1..end], Rewritten(text, spans, end));
      assert text[position..end] == [text[position]] + text[position + 1..end];
    }
  }

  /** Inside a span, past its first character, every character is dropped. */
  lemma {:induction false} DroppedUpTo(text: seq<char>, spans: seq<Span>, position: nat, end: nat)
    requires position <= end <= |text| && forall p :: position <= p < end ==> Covers(spans, p) && MaskAt(spans, p) == []
    ensures Rewritten(text, spans, position) == Rewritten(text, spans, end)
    decreases end - position
  {
    if position < end { DroppedUpTo(text, spans, position + 1, end); }
  }

  lemma {:induction false} NoMaskAt(spans: seq<Span>, p: nat)
    requires forall i :: 0 <= i < |spans| ==> spans[i].start != p
    ensures MaskAt(spans, p) == []
  {
    if spans != [] { NoMaskAt(spans[1..], p); }
  }

  /** Past the first span only the others count. */
  lemma {:induction false} RestRewritten(text: seq<char>, spans: seq<Span>, position: nat)
    requires Apart(spans) && spans != [] && spans[0].end <= position <= |text|
    ensures Rewritten(text, spans, position) == Rewritten(text, spans[1..], position)
    decreases |text| - position
  {
    if position < |text| {
      RestRewritten(text, spans, position + 1);
      TailSpans(spans, position);
    }
  }

  /** Up to the end of the first span: what is before it is kept, and it becomes its mask. */
  lemma FirstRewritten(text: seq<char>, spans: seq<Span>, position: nat)
    requires Apart(spans) && Within(spans, |text|) && spans != [] && position <= spans[0].start
    ensures Rewritten(text, spans, position)
         == text[position..spans[0].start] + (spans[0].mask + Rewritten(text, spans, spans[0].end))
  {
    forall p | position <= p < spans[0].start ensures !Covers(spans, p) {}
    KeptUpTo(text, spans, position, spans[0].start);
    FirstMasked(text, spans);
  }

  /** The first span becomes its mask. */
  lemma FirstMasked(text: seq<char>, spans: seq<Span>)
    requires Apart(spans) && Within(spans, |text|) && spans != []
    ensures Rewritten(text, spans, spans[0].start) == spans[0].mask + Rewritten(text, spans, spans[0].end)
  {
    var s := spans[0];
    InsideFirst(spans);
    MaskedAt(text, spans, s.start);
    DroppedUpTo(text, spans, s.start + 1, s.end);
  }

  lemma MaskedAt(text: seq<char>, spans: seq<Span>, position: nat)
    requires position < |text| && Covers(spans, position)
    ensures Rewritten(text, spans, position) == MaskAt(spans, position) + Rewritten(text, spans, position + 1)
  {}

  lemma InsideFirst(spans: seq<Span>)
    requires Apart(spans) && spans != []
    ensures Covers(spans, spans[0].start) && MaskAt(spans, spans[0].start) == spans[0].mask
    ensures forall p :: spans[0].start < p < spans[0].end ==> Covers(spans, p) && MaskAt(spans, p) == []
  {
    forall p | spans[0].start < p < spans[0].end ensures Covers(spans, p) && MaskAt(spans, p) == [] {
      NoMaskAt(spans, p);
    }
  }

  /** The rewritten text keeps every character outside the spans, in order, and has each span's mask in
      its place. */
  lemma {:induction false} ReplacedIsRewritten(text: seq<char>, spans: seq<Span>, position: nat)
    requires Apart(spans) && Within(spans, |text|) && position <= |text|
    requires forall i :: 0 <= i < |spans| ==> position <= spans[i].start
    ensures ReplacedFrom(text, spans, position) == Rewritten(text, spans, position)
    decreases |spans|
  {
    if spans == [] {
      KeptUpTo(text, spans, position, |text|);
    } else {
      var s := spans[0];
      FirstRewritten(text, spans, position);
      RestRewritten(text, spans, s.end);
      ReplacedIsRewritten(text, spans[1..], s.end);
      Regroup(text[position..s.start], s.mask, Rewritten(text, spans, s.end));
    }
  }

  // ----- The engine, as it runs

  lemma ReplaceStep(before: seq<char>, text: seq<char>, spans: seq<Span>, i: nat, position: nat)
    requires Apart(spans) && Within(spans, |text|) && position <= |text| && i < |spans|
    requires forall j :: i <= j < |spans| ==> position <= spans[j].start
    ensures forall j :: i + 1 <= j < |spans| ==> spans[i].end <= spans[j].start
    ensures before + ReplacedFrom(text, spans[i..], position)
         == (before + text[position..spans[i].start] + spans[i].mask) + ReplacedFrom(text, spans[i + 1..], spans[i].end)
  {
    assert spans[i..][1..] == spans[i + 1..];
    var piece, rest := text[position..spans[i].start] + spans[i].mask, ReplacedFrom(text, spans[i + 1..], spans[i].end);
    Regroup(before, text[position..spans[i].start], spans[i].mask);
    Regroup(before, piece, rest);
  }

  /** The number of spans of a category. */
  function CountOf(spans: seq<Span>, c: Category): nat {
    if spans == [] then 0 else CountOf(spans[..|spans| - 1], c) + (if spans[|spans| - 1].category == c then 1 else 0)
  }

  function Redactions(byType: map<Category, nat>, c: Category): nat { if c in byType then byType[c] else 0 }

  class PresidioEngine {
    var totalRedacted: nat
    var redactionsByType: map<Category, nat>
    /** Every accepted span so far. */
    ghost var redacted: seq<Span>

    /** The counters are the spans redacted so far, in all and by type. */
    ghost predicate Valid()
      reads this
    {
      totalRedacted == |redacted| && forall c :: Redactions(redactionsByType, c) == CountOf(redacted, c)
    }

    constructor ()
      ensures Valid() && redacted == []
    {
      totalRedacted, redactionsByType, redacted := 0, map[], [];
    }

    method Merge(spans: seq<Span>) returns (accepted: seq<Span>)
      ensures accepted == Accepted(spans)
    {
      var sorted := SortedSpans(spans);
      accepted := [];
      for i := 0 to |sorted|
        invariant accepted == Merged(sorted[..i])
      {
        var s := sorted[i];
        assert sorted[..i + 1][..i] == sorted[..i];
        if accepted != [] && s.start < accepted[|accepted| - 1].end {
          var first := accepted[|accepted| - 1];
          if s.end > first.end { accepted := accepted[|accepted| - 1 := first.(end := s.end)]; }
          continue;
        }
        accepted := accepted + [s];
      }
      assert sorted[..|sorted|] == sorted;
    }

    method Replace(text: seq<char>, spans: seq<Span>) returns (r: seq<char>)
      requires Apart(spans) && Within(spans, |text|)
      ensures r == Rewritten(text, spans, 0)
    {
      r := [];
      var position: nat := 0;
      assert spans[0..] == spans;
      for i := 0 to |spans|
        invariant position <= |text| && forall j :: i <= j < |spans| ==> position <= spans[j].start
        invariant r + ReplacedFrom(text, spans[i..], position) == ReplacedFrom(text, spans, 0)
      {
        ReplaceStep(r, text, spans, i, position);
        r := r + text[position..spans[i].start] + spans[i].mask;
        position := spans[i].end;
      }
      assert spans[|spans|..] == [];
      r := r + text[position..];
      ReplacedIsRewritten(text, spans, 0);
    }

    method CountRedactions(accepted: seq<Span>)
      requires Valid()
      modifies this
      ensures Valid() && redacted == old(redacted) + accepted
    {
      totalRedacted := totalRedacted + |accepted|;
      for i := 0 to |accepted|
        invariant redacted == old(redacted) + accepted[..i]
        invariant totalRedacted == |old(redacted)| + |accepted|
        invariant forall c :: Redactions(redactionsByType, c) == CountOf(redacted, c)
      {
        var c := accepted[i].category;
        redactionsByType := redactionsByType[c := Redactions(redactionsByType, c) + 1];
        ghost var before := redacted;
        redacted := redacted + [accepted[i]];
        assert redacted[..|redacted| - 1] == before;
        assert accepted[..i + 1] == accepted[..i] + [accepted[i]];
      }
      assert accepted[..|accepted|] == accepted;
    }

    /** The end of `redact`, for the spans that were detected. */
    method Redact(text: seq<char>, spans: seq<Span>) returns (r: seq<char>, entities: seq<Span>)
      requires Valid() && Within(spans, |text|)
      modifies this
      ensures Valid() && entities == Accepted(spans) && redacted == old(redacted) + entities
      ensures Apart(entities) && Within(entities, |text|) && r == Rewritten(text, entities, 0)
    {
      entities := Merge(spans);
      AcceptedIsUnion(spans);
      UnionWithin(spans, entities, |text|);
      r := Replace(text, entities);
      CountRedactions(entities);
    }
  }

  lemma UnionWithin(spans: seq<Span>, accepted: seq<Span>, n: nat)
    requires Within(spans, n) && forall p :: Covers(accepted, p) <==> Covers(spans, p)
    ensures Within(accepted, n)
  {
    forall i | 0 <= i < |accepted| ensures accepted[i].end <= n {
      assert Covers(accepted, accepted[i].end - 1);
      assert Covers(spans, accepted[i].end - 1);
    }
  }

  /** The counts by category are those of the spans' categories. */
  lemma {:induction false} CountExactly(spans: seq<Span>, c: Category)
    ensures CountOf(spans, c) == multiset(Categories(spans))[c]
  {
    if spans != [] {
      var before := spans[..|spans| - 1];
      CountExactly(before, c);
      assert Categories(spans) == Categories(before) + [spans[|spans| - 1].category];
    }
  }

  function Categories(spans: seq<Span>): seq<Category> {
    seq(|spans|, i requires 0 <= i < |spans| => spans[i].category)
  }

  // ----- The rewritten text by index

  /** How far the first `n` spans move what comes after them. */
  function Shift(spans: seq<Span>, n: nat): int
    requires n <= |spans|
  {
    if n == 0 then 0
    else Shift(spans, n - 1) + |spans[n - 1].mask| - (spans[n - 1].end - spans[n - 1].start)
  }

  lemma {:induction false} ShiftTail(spans: seq<Span>, n: nat)
    requires spans != [] && n < |spans|
    ensures Shift(spans, n + 1)
      == |spans[0].mask| - (spans[0].end - spans[0].start) + Shift(spans[1..], n)
  {
    if n > 0 { ShiftTail(spans, n - 1); }
  }

  /** The mask of the span `i` stands in `r` at the span's place, moved by the spans before it. */
  predicate MaskPlaced(spans: seq<Span>, position: nat, r: seq<char>, i: nat)
    requires i < |spans|
  {
    var at := spans[i].start - position + Shift(spans, i);
    0 <= at <= at + |spans[i].mask| <= |r| && r[at..at + |spans[i].mask|] == spans[i].mask
  }

  /** The character at `p`, which lies between the first `i` spans and the others. */
  predicate Between(text: seq<char>, spans: seq<Span>, position: nat, i: nat, p: nat) {
    && i <= |spans| && position <= p < |text|
    && (i > 0 ==> spans[i - 1].end <= p) && (i < |spans| ==> p < spans[i].start)
  }

  /** It stands in `r`, moved by the spans before it. */
  predicate CharPlaced(text: seq<char>, spans: seq<Span>, position: nat, r: seq<char>, i: nat, p: nat)
    requires i <= |spans| && p < |text|
  {
    var at := p - position + Shift(spans, i);
    0 <= at < |r| && r[at] == text[p]
  }

  /** The text from `position` on when `spans` are replaced: every mask, and every character outside the spans. */
  ghost predicate Places(text: seq<char>, spans: seq<Span>, position: nat, r: seq<char>) {
    && |r| == |text| - position + Shift(spans, |spans|)
    && (forall i :: 0 <= i < |spans| ==> MaskPlaced(spans, position, r, i))
    && (forall i, p :: Between(text, spans, position, i, p) ==> CharPlaced(text, spans, position, r, i, p))
  }

  lemma {:induction false} ReplacedPlaces(text: seq<char>, spans: seq<Span>, position: nat)
    requires Apart(spans) && Within(spans, |text|) && position <= |text|
    requires forall i :: 0 <= i < |spans| ==> position <= spans[i].start
    ensures Places(text, spans, position, ReplacedFrom(text, spans, position))
    decreases |spans|
  {
    if spans != [] {
      var s, rest := spans[0], spans[1..];
      ReplacedPlaces(text, rest, s.end);
      PlacesStep(text, spans, position, text[position..s.start] + s.mask, ReplacedFrom(text, rest, s.end));
    }
  }

  lemma PlacesStep(text: seq<char>, spans: seq<Span>, position: nat, lead: seq<char>, r: seq<char>)
    requires Apart(spans) && Within(spans, |text|) && spans != [] && position <= spans[0].start
    requires lead == text[position..spans[0].start] + spans[0].mask
    requires Places(text, spans[1..], spans[0].end, r)
    ensures Places(text, spans, position, lead + r)
  {
    ShiftTail(spans, |spans| - 1);
    forall i | 0 <= i < |spans| ensures MaskPlaced(spans, position, lead + r, i) {
      if i > 0 { MaskStep(text, spans, position, lead, r, i); }
    }
    forall i, p | Between(text, spans, position, i, p) ensures CharPlaced(text, spans, position, lead + r, i, p) {
      if i > 0 { CharStep(text, spans, position, lead, r, i, p); }
    }
  }

  lemma MaskStep(text: seq<char>, spans: seq<Span>, position: nat, lead: seq<char>, r: seq<char>, i: nat)
    requires 0 < i < |spans| && position <= spans[0].start
    requires |lead| == spans[0].start - position + |spans[0].mask|
    requires MaskPlaced(spans[1..], spans[0].end, r, i - 1)
    ensures MaskPlaced(spans, position, lead + r, i)
  {
    var at := spans[i].start - spans[0].end + Shift(spans[1..], i - 1);
    ShiftTail(spans, i - 1);
    assert (lead + r)[|lead| + at..|lead| + at + |spans[i].mask|] == r[at..at + |spans[i].mask|];
  }

  lemma CharStep(text: seq<char>, spans: seq<Span>, position: nat, lead: seq<char>, r: seq<char>, i: nat, p: nat)
    requires 0 < i <= |spans| && position <= spans[0].start && Apart(spans) && Between(text, spans, position, i, p)
    requires |lead| == spans[0].start - position + |spans[0].mask|
    requires Between(text, spans[1..], spans[0].end, i - 1, p) ==>
      CharPlaced(text, spans[1..], spans[0].end, r, i - 1, p)
    ensures CharPlaced(text, spans, position, lead + r, i, p)
  {
    ShiftTail(spans, i - 1);
    assert i > 1 ==> spans[1..][i - 2] == spans[i - 1];
  }

  /** Where the masks and the kept characters of a rewritten text stand. */
  lemma RewrittenPlaces(text: seq<char>, spans: seq<Span>)
    requires Apart(spans) && Within(spans, |text|)
    ensures Places(text, spans, 0, Rewritten(text, spans, 0))
  {
    ReplacedPlaces(text, spans, 0);
    ReplacedIsRewritten(text, spans, 0);
  }
}
