/** `generate_password`, its in-place shuffle, and `validate_password`. */
module Passwords {

  // ----- The shuffle

  function Swap<T>(s: seq<T>, i: nat, j: nat): seq<T>
    requires i < |s| && j < |s|
  {
    s[i := s[j]][j := s[i]]
  }

  /** The random draws: the one for position `i` is at most `i`. */
  predicate Draws(draws: seq<nat>) { forall i :: 0 <= i < |draws| ==> draws[i] <= i }

  /** The loop from position `i` down to 1; `draws[i]` is the draw made at position `i`. */
  function ShuffledFrom<T>(s: seq<T>, draws: seq<nat>, i: nat): (r: seq<T>)
    requires Draws(draws) && |draws| == |s| && (i < |s| || i == 0)
    ensures |r| == |s|
    ensures forall k :: i < k < |s| ==> r[k] == s[k]
    decreases i
  {
    if i == 0 then s else ShuffledFrom(Swap(s, i, draws[i]), draws, i - 1)
  }

  function Shuffled<T>(s: seq<T>, draws: seq<nat>): seq<T>
    requires Draws(draws) && |draws| == |s|
  {
    ShuffledFrom(s, draws, if |s| > 0 then |s| - 1 else 0)
  }

  method Shuffle<T>(a: array<T>, draws: seq<nat>)
    requires Draws(draws) && |draws| == a.Length
    modifies a
    ensures a[..] == Shuffled(old(a[..]), draws)
  {
    var i := if a.Length > 0 then a.Length - 1 else 0;
    while i > 0
      invariant 0 <= i && (i < a.Length || i == 0)
      invariant ShuffledFrom(a[..], draws, i) == Shuffled(old(a[..]), draws)
    {
      var j := draws[i];
      ghost var before := a[..];
      a[i], a[j] := a[j], a[i];
      assert a[..] == Swap(before, i, j);
      i := i - 1;
    }
  }

  predicate Distinct<T(==)>(s: seq<T>) { forall i, j :: 0 <= i < j < |s| ==> s[i] != s[j] }

  lemma SwapKeeps<T>(s: seq<T>, i: nat, j: nat)
    requires i < |s| && j < |s|
    ensures multiset(Swap(s, i, j)) == multiset(s)
    ensures Distinct(s) ==> Distinct(Swap(s, i, j))
  {}

  /** The shuffle is a permutation of what it is given. */
  lemma {:induction false} ShuffledFromKeeps<T>(s: seq<T>, draws: seq<nat>, i: nat)
    requires Draws(draws) && |draws| == |s| && (i < |s| || i == 0)
    ensures multiset(ShuffledFrom(s, draws, i)) == multiset(s)
    ensures Distinct(s) ==> Distinct(ShuffledFrom(s, draws, i))
    decreases i
  {
    if i > 0 {
      SwapKeeps(s, i, draws[i]);
      ShuffledFromKeeps(Swap(s, i, draws[i]), draws, i - 1);
    }
  }

  // ----- One shuffle for each permutation

  /** The draws for positions 1 to `i` are determined by the result. */
  lemma {:induction false} DrawsDetermined<T>(s: seq<T>, a: seq<nat>, b: seq<nat>, i: nat)
    requires Draws(a) && Draws(b) && |a| == |b| == |s| && (i < |s| || i == 0) && Distinct(s)
    requires ShuffledFrom(s, a, i) == ShuffledFrom(s, b, i)
    ensures forall k :: 0 < k <= i ==> a[k] == b[k]
    decreases i
  {
    if i > 0 {
      var x, y := Swap(s, i, a[i]), Swap(s, i, b[i]);
      assert ShuffledFrom(x, a, i - 1)[i] == x[i] == s[a[i]];
      assert ShuffledFrom(y, b, i - 1)[i] == y[i] == s[b[i]];
      assert a[i] == b[i];
      SwapKeeps(s, i, a[i]);
      DrawsDetermined(x, a, b, i - 1);
    }
  }

  /** The elements of `t` are among those of `s`. */
  ghost predicate From<T>(t: seq<T>, s: seq<T>) { forall k :: 0 <= k < |t| ==> t[k] in s }

  lemma FromSwapped<T>(t: seq<T>, s: seq<T>, i: nat, j: nat)
    requires From(t, s) && i < |s| && j < |s|
    ensures From(t, Swap(s, i, j))
  {
    SwapKeeps(s, i, j);
    forall k | 0 <= k < |t| ensures t[k] in Swap(s, i, j) {
      assert t[k] in multiset(s);
      assert t[k] in multiset(Swap(s, i, j));
    }
  }

  /** The element that belongs at position `i` is still at `i` or before it. */
  lemma Find<T>(s: seq<T>, t: seq<T>, i: nat) returns (j: nat)
    requires From(t, s) && Distinct(t) && i < |s| == |t|
    requires forall k :: i < k < |s| ==> s[k] == t[k]
    ensures j <= i && s[j] == t[i]
  {
    assert t[i] in s;
    j :| 0 <= j < |s| && s[j] == t[i];
  }

  /** Draws that lead from `s` to `t`, when `t` is `s` in another order up to position `i`. */
  lemma {:induction false} DrawsExist<T>(s: seq<T>, t: seq<T>, i: nat) returns (draws: seq<nat>)
    requires From(t, s) && Distinct(t) && |s| == |t| && (i < |s| || i == 0)
    requires forall k :: i < k < |s| ==> s[k] == t[k]
    ensures Draws(draws) && |draws| == |s| && ShuffledFrom(s, draws, i) == t
    decreases i
  {
    if i == 0 {
      draws := seq(|s|, k => 0);
      if |s| > 0 { var j := Find(s, t, 0); }
    } else {
      var j := Find(s, t, i);
      FromSwapped(t, s, i, j);
      var rest := DrawsExist(Swap(s, i, j), t, i - 1);
      draws := rest[i := j];
      SameDraws(Swap(s, i, j), rest, draws, i - 1);
    }
  }

  lemma {:induction false} SameDraws<T>(s: seq<T>, a: seq<nat>, b: seq<nat>, i: nat)
    requires Draws(a) && Draws(b) && |a| == |b| == |s| && (i < |s| || i == 0)
    requires forall k :: 0 < k <= i ==> a[k] == b[k]
    ensures ShuffledFrom(s, a, i) == ShuffledFrom(s, b, i)
    decreases i
  {
    if i > 0 { SameDraws(Swap(s, i, a[i]), a, b, i - 1); }
  }

  function Positions(n: nat): (r: seq<nat>)
    ensures |r| == n && forall k :: 0 <= k < n ==> r[k] == k
  {
    seq(n, k => k)
  }

  /** A permutation of the positions: each once. */
  predicate IsPermutation(p: seq<nat>) { Distinct(p) && forall k :: 0 <= k < |p| ==> p[k] < |p| }

  lemma ShuffledPositions(draws: seq<nat>)
    requires Draws(draws)
    ensures IsPermutation(Shuffled(Positions(|draws|), draws))
  {
    var n := |draws|;
    ShuffledFromKeeps(Positions(n), draws, if n > 0 then n - 1 else 0);
    var p := Shuffled(Positions(n), draws);
    forall k | 0 <= k < n ensures p[k] < n {
      assert p[k] in multiset(p);
      assert p[k] in multiset(Positions(n));
    }
  }

  /** Draws and permutations of the positions correspond one to one: different draws give different
      permutations, and every permutation comes from some draws. */
  lemma DrawsArePermutations(a: seq<nat>, b: seq<nat>)
    requires Draws(a) && Draws(b) && |a| == |b|
    ensures IsPermutation(Shuffled(Positions(|a|), a))
    ensures Shuffled(Positions(|a|), a) == Shuffled(Positions(|b|), b) <==> a == b
  {
    var n := |a|;
    ShuffledPositions(a);
    if Shuffled(Positions(n), a) == Shuffled(Positions(n), b) {
      DrawsDetermined(Positions(n), a, b, if n > 0 then n - 1 else 0);
      assert n > 0 ==> a[0] == 0 == b[0];
    }
  }

  lemma EveryPermutationDrawn(p: seq<nat>) returns (draws: seq<nat>)
    requires IsPermutation(p)
    ensures Draws(draws) && |draws| == |p| && Shuffled(Positions(|p|), draws) == p
  {
    forall k | 0 <= k < |p| ensures p[k] in Positions(|p|) { assert Positions(|p|)[p[k]] == p[k]; }
    draws := DrawsExist(Positions(|p|), p, if |p| > 0 then |p| - 1 else 0);
  }

  /** `t` holds the elements of `s` that stand at the positions `at`. */
  ghost predicate Taken<T>(s: seq<T>, at: seq<nat>, t: seq<T>) {
    |at| == |t| && forall k :: 0 <= k < |at| ==> at[k] < |s| && t[k] == s[at[k]]
  }

  /** The shuffle moves positions, whatever stands on them. */
  lemma {:induction false} ShuffleMovesPositions<T>(s: seq<T>, at: seq<nat>, t: seq<T>, draws: seq<nat>, i: nat)
    requires Taken(s, at, t) && Draws(draws) && |draws| == |at| && (i < |at| || i == 0)
    ensures Taken(s, ShuffledFrom(at, draws, i), ShuffledFrom(t, draws, i))
    decreases i
  {
    if i > 0 { ShuffleMovesPositions(s, Swap(at, i, draws[i]), Swap(t, i, draws[i]), draws, i - 1); }
  }

  // ----- Validation

  const MIN_LENGTH := 12

  datatype Issue = TooShort | NoUpper | NoLower | NoDigit | NoSpecial

  predicate Upper(c: char) { 'A' <= c <= 'Z' }
  predicate Lower(c: char) { 'a' <= c <= 'z' }
  predicate AsciiDigit(c: char) { '0' <= c <= '9' }
  predicate Special(c: char) { !Upper(c) && !Lower(c) && !AsciiDigit(c) }

  predicate Has(s: seq<char>, p: char -> bool) { exists i :: 0 <= i < |s| && p(s[i]) }

  /** `re.search` of a one-character class. */
  method Search(s: seq<char>, p: char -> bool) returns (found: bool)
    ensures found <==> Has(s, p)
  {
    for i := 0 to |s|
      invariant forall k :: 0 <= k < i ==> !p(s[k])
    {
      if p(s[i]) { return true; }
    }
    found := false;
  }

  /** What keeps `issue` away; `decimal` is the digit class of the regular expression engine. */
  predicate Meets(password: seq<char>, issue: Issue, decimal: char -> bool) {
    match issue
    case TooShort => |password| >= MIN_LENGTH
    case NoUpper => Has(password, Upper)
    case NoLower => Has(password, Lower)
    case NoDigit => Has(password, decimal)
    case NoSpecial => Has(password, Special)
  }

  lemma HasIs(s: seq<char>, p: char -> bool)
    ensures Has(s, p) <==> exists c <- s :: p(c)
  {
    if c :| c in s && p(c) { var i :| 0 <= i < |s| && s[i] == c; }
  }

  /** The rules, character by character. */
  lemma RulesExactly(password: seq<char>, issue: Issue, decimal: char -> bool)
    ensures Meets(password, issue, decimal) <==>
      match issue
      case TooShort => |password| >= 12
      case NoUpper => exists c <- password :: 'A' <= c <= 'Z'
      case NoLower => exists c <- password :: 'a' <= c <= 'z'
      case NoDigit => exists c <- password :: decimal(c)
      case NoSpecial => exists c <- password :: !('A' <= c <= 'Z') && !('a' <= c <= 'z') && !('0' <= c <= '9')
  {
    HasIs(password, Upper);
    HasIs(password, Lower);
    HasIs(password, decimal);
    HasIs(password, Special);
  }

  method ValidatePassword(password: seq<char>, decimal: char -> bool) returns (ok: bool, issues: seq<Issue>)
    ensures forall issue :: issue in issues <==> !Meets(password, issue, decimal)
    ensures ok <==> forall issue :: Meets(password, issue, decimal)
  {
    issues := [];
    if |password| < MIN_LENGTH { issues := issues + [TooShort]; }
    var upper := Search(password, Upper);
    if !upper { issues := issues + [NoUpper]; }
    var lower := Search(password, Lower);
    if !lower { issues := issues + [NoLower]; }
    var digit := Search(password, decimal);
    if !digit { issues := issues + [NoDigit]; }
    var special := Search(password, Special);
    if !special { issues := issues + [NoSpecial]; }
    ok := |issues| == 0;
    if !ok { assert issues[0] in issues; }
  }

  // ----- Generation

  const UPPER := "ABCDEFGHIJKLMNOPQRSTUVWXYZ"
  const LOWER := "abcdefghijklmnopqrstuvwxyz"
  const DIGITS := "0123456789"
  const SPECIAL := "!@#%&*+-"
  const ALPHABET := UPPER + LOWER + DIGITS + SPECIAL

  function PasswordLength(length: int): nat { if length < 12 then 12 else length }

  /** The random outcomes of one call: a choice for each character, and the draws of the shuffle. */
  predicate Outcomes(length: int, choices: seq<nat>, draws: seq<nat>) {
    && |choices| == PasswordLength(length) == |draws| && Draws(draws)
    && choices[0] < |UPPER| && choices[1] < |LOWER| && choices[2] < |DIGITS| && choices[3] < |SPECIAL|
    && forall k :: 4 <= k < |choices| ==> choices[k] < |ALPHABET|
  }

  /** The characters before the shuffle: one of each class, and the rest from the whole alphabet. */
  function Chosen(length: int, choices: seq<nat>, draws: seq<nat>): (r: seq<char>)
    requires Outcomes(length, choices, draws)
    ensures |r| == (if length < 12 then 12 else length)
    ensures r[0] == UPPER[choices[0]] && r[1] == LOWER[choices[1]]
    ensures r[2] == DIGITS[choices[2]] && r[3] == SPECIAL[choices[3]]
    ensures forall k :: 4 <= k < |r| ==> r[k] == ALPHABET[choices[k]]
  {
    Filled([UPPER[choices[0]], LOWER[choices[1]], DIGITS[choices[2]], SPECIAL[choices[3]]], ALPHABET, choices)
  }

  /** `first`, and then the chosen characters of an alphabet. */
  function Filled(first: seq<char>, alphabet: seq<char>, choices: seq<nat>): (r: seq<char>)
    requires |first| <= |choices| && forall k :: |first| <= k < |choices| ==> choices[k] < |alphabet|
    ensures |r| == |choices|
    ensures forall k :: 0 <= k < |r| ==> r[k] == if k < |first| then first[k] else alphabet[choices[k]]
    decreases |choices| - |first|
  {
    if |first| == |choices| then first else Filled(first + [alphabet[choices[|first|]]], alphabet, choices)
  }

  /** The loop that fills up. */
  method Fill(first: seq<char>, alphabet: seq<char>, choices: seq<nat>, n: nat) returns (chars: seq<char>)
    requires |first| <= |choices| == n && forall k :: |first| <= k < n ==> choices[k] < |alphabet|
    ensures chars == Filled(first, alphabet, choices)
  {
    chars := first;
    for k := |first| to n
      invariant |chars| == k && Filled(chars, alphabet, choices) == Filled(first, alphabet, choices)
    {
      chars := chars + [alphabet[choices[k]]];
    }
  }

  lemma AlphabetIs()
    ensures UPPER == "ABCDEFGHIJKLMNOPQRSTUVWXYZ" && LOWER == "abcdefghijklmnopqrstuvwxyz"
    ensures DIGITS == "0123456789" && SPECIAL == "!@#%&*+-"
    ensures ALPHABET == "ABCDEFGHIJKLMNOPQRSTUVWXYZ" + "abcdefghijklmnopqrstuvwxyz" + "0123456789" + "!@#%&*+-"
  {}

  lemma FirstFour(a: nat, b: nat, c: nat, d: nat)
    requires a < |UPPER| && b < |LOWER| && c < |DIGITS| && d < |SPECIAL|
    ensures Upper(UPPER[a]) && Lower(LOWER[b]) && AsciiDigit(DIGITS[c]) && Special(SPECIAL[d])
  {}

  lemma InShuffled(s: seq<char>, draws: seq<nat>, k: nat, p: char -> bool)
    requires Draws(draws) && |draws| == |s| && k < |s| && p(s[k])
    ensures Has(Shuffled(s, draws), p)
  {
    ShuffledFromKeeps(s, draws, |s| - 1);
    assert s[k] in multiset(Shuffled(s, draws));
    var i :| 0 <= i < |s| && Shuffled(s, draws)[i] == s[k];
  }

  lemma ChosenMeets(length: int, choices: seq<nat>, draws: seq<nat>, decimal: char -> bool)
    requires Outcomes(length, choices, draws)
    requires forall c :: AsciiDigit(c) ==> decimal(c)
    ensures forall issue :: Meets(Shuffled(Chosen(length, choices, draws), draws), issue, decimal)
  {
    var chars := Chosen(length, choices, draws);
    var password := Shuffled(chars, draws);
    FirstFour(choices[0], choices[1], choices[2], choices[3]);
    InShuffled(chars, draws, 0, Upper);
    InShuffled(chars, draws, 1, Lower);
    InShuffled(chars, draws, 2, AsciiDigit);
    InShuffled(chars, draws, 3, Special);
    var i :| 0 <= i < |password| && AsciiDigit(password[i]);
    assert decimal(password[i]);
    forall issue ensures Meets(password, issue, decimal) { if issue.TooShort? { assert |password| >= 12; } }
  }

  /** Whatever the random outcomes, the password is accepted by `validate_password`. */
  method GeneratePassword(length: int, choices: seq<nat>, draws: seq<nat>, ghost decimal: char -> bool)
    returns (password: seq<char>)
    requires Outcomes(length, choices, draws)
    requires forall c :: AsciiDigit(c) ==> decimal(c)
    ensures |password| == PasswordLength(length)
    ensures password == Shuffled(Chosen(length, choices, draws), draws)
    ensures forall issue :: Meets(password, issue, decimal)
  {
    var n := if length < 12 then 12 else length;
    var chars := [UPPER[choices[0]], LOWER[choices[1]], DIGITS[choices[2]], SPECIAL[choices[3]]];
    chars := Fill(chars, ALPHABET, choices, n);
    password := ShuffledCopy(chars, draws);
    ChosenMeets(length, choices, draws, decimal);
  }

  method ShuffledCopy(chars: seq<char>, draws: seq<nat>) returns (r: seq<char>)
    requires Draws(draws) && |draws| == |chars|
    ensures r == Shuffled(chars, draws)
  {
    var shuffled := new char[|chars|](i requires 0 <= i < |chars| => chars[i]);
    assert shuffled[..] == chars;
    Shuffle(shuffled, draws);
    r := shuffled[..];
  }
}
