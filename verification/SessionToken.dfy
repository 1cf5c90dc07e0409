/** Dashboard session tokens: `issue_token` prints one, `token_expiry` parses and checks one. */
module SessionToken {
  import opened Texts

  // ----- base64url (section 5 of RFC 4648)

  const PAD := 0x3D
  const DOT := 0x2E

  function Letter(v: int): int
    requires 0 <= v < 64
  {
    if v < 26 then 0x41 + v
    else if v < 52 then 0x61 + (v - 26)
    else if v < 62 then 0x30 + (v - 52)
    else if v == 62 then 0x2D else 0x5F
  }

  /** The value of a letter, as the decoder of the standard library reads it: '+' and '/' too. */
  function LetterValue(c: int): Option<int> {
    if 0x41 <= c <= 0x5A then Some(c - 0x41)
    else if 0x61 <= c <= 0x7A then Some(c - 0x61 + 26)
    else if 0x30 <= c <= 0x39 then Some(c - 0x30 + 52)
    else if c == 0x2D || c == 0x2B then Some(62)
    else if c == 0x5F || c == 0x2F then Some(63)
    else None
  }

  predicate AllBytes(bs: Bytes) { bs.Cons? ==> 0 <= bs.head < 256 && AllBytes(bs.tail) }

  lemma ThreeBytes(bs: Bytes)
    requires AllBytes(bs)
    ensures bs.Cons? ==> 0 <= bs.head < 256
    ensures bs.Cons? && bs.tail.Cons? ==> 0 <= bs.tail.head < 256
    ensures bs.Cons? && bs.tail.Cons? && bs.tail.tail.Cons?
      ==> 0 <= bs.tail.tail.head < 256 && AllBytes(bs.tail.tail.tail)
  {
    if bs.Cons? {
      assert AllBytes(bs.tail);
      if bs.tail.Cons? { assert AllBytes(bs.tail.tail); }
    }
  }

  /** `urlsafe_b64encode`: four letters for three bytes, and padding. */
  function Encode(bs: Bytes): Text
    requires AllBytes(bs)
  {
    if bs.Nil? then Nil
    else
      var a := bs.head;
      ThreeBytes(bs);
      if bs.tail.Nil? then Cons(Letter(a / 4), Cons(Letter((a % 4) * 16), Cons(PAD, Cons(PAD, Nil))))
      else
        var b := bs.tail.head;
        if bs.tail.tail.Nil? then
          Cons(Letter(a / 4), Cons(Letter((a % 4) * 16 + b / 16), Cons(Letter((b % 16) * 4), Cons(PAD, Nil))))
        else
          var c := bs.tail.tail.head;
          var low := Cons(Letter((b % 16) * 4 + c / 64), Cons(Letter(c % 64), Encode(bs.tail.tail.tail)));
          Cons(Letter(a / 4), Cons(Letter((a % 4) * 16 + b / 16), low))
  }

  predicate AllPads(t: Text) { t.Cons? ==> t.head == PAD && AllPads(t.tail) }

  /** `text.rstrip("=")`. */
  function WithoutPads(t: Text): Text { if AllPads(t) then Nil else Cons(t.head, WithoutPads(t.tail)) }

  function Pads(n: nat): Text { if n == 0 then Nil else Cons(PAD, Pads(n - 1)) }

  /** `token + "=" * (-len(token) % 4)`. */
  function Padded(t: Text): Text { Cat(t, Pads(Missing(Len(t)))) }

  function Missing(n: nat): nat { (4 - n % 4) % 4 }

  function Emit(b: int, rest: Option<Bytes>): Option<Bytes> { if rest.Some? then Some(Cons(b, rest.value)) else None }

  /** `urlsafe_b64decode`, which skips what is no letter: `quad` letters of the current four are read,
      `left` are the bits of the last one not used yet, and `pads` the padding since. */
  function Decode(t: Text, quad: nat, left: int, pads: nat): Option<Bytes> {
    if t.Nil? then (if quad == 0 then Some(Nil) else None)
    else if t.head == PAD then
      if quad >= 2 && quad + pads + 1 >= 4 then Some(Nil)
      else Decode(t.tail, quad, left, if quad >= 2 then pads + 1 else pads)
    else
      var v := LetterValue(t.head);
      if v.None? then Decode(t.tail, quad, left, pads)
      else if quad == 0 then Decode(t.tail, 1, v.value, 0)
      else if quad == 1 then Emit(left * 4 + v.value / 16, Decode(t.tail, 2, v.value % 16, 0))
      else if quad == 2 then Emit(left * 16 + v.value / 4, Decode(t.tail, 3, v.value % 4, 0))
      else Emit(left * 64 + v.value, Decode(t.tail, 0, 0, 0))
  }

  lemma LetterReads(v: int)
    requires 0 <= v < 64
    ensures Letter(v) != PAD && LetterValue(Letter(v)) == Some(v) && 0 <= Letter(v) < 128
  {}

  /** The letters of `bs` without padding. */
  function Letters(bs: Bytes): Text
    requires AllBytes(bs)
  {
    if bs.Nil? then Nil
    else
      var a := bs.head;
      ThreeBytes(bs);
      if bs.tail.Nil? then Cons(Letter(a / 4), Cons(Letter((a % 4) * 16), Nil))
      else
        var b := bs.tail.head;
        if bs.tail.tail.Nil? then
          Cons(Letter(a / 4), Cons(Letter((a % 4) * 16 + b / 16), Cons(Letter((b % 16) * 4), Nil)))
        else
          var c := bs.tail.tail.head;
          var low := Cons(Letter((b % 16) * 4 + c / 64), Cons(Letter(c % 64), Letters(bs.tail.tail.tail)));
          Cons(Letter(a / 4), Cons(Letter((a % 4) * 16 + b / 16), low))
  }

  lemma {:induction false} WithoutPadsIsLetters(bs: Bytes)
    requires AllBytes(bs)
    ensures WithoutPads(Encode(bs)) == Letters(bs)
  {
    ThreeBytes(bs);
    if bs.Cons? {
      var e := Encode(bs);
      LetterReads(bs.head / 4);
      if bs.tail.Nil? {
        LetterReads((bs.head % 4) * 16);
        assert AllPads(e.tail.tail) && WithoutPads(e.tail.tail) == Nil;
      } else if bs.tail.tail.Nil? {
        LetterReads((bs.head % 4) * 16 + bs.tail.head / 16);
        LetterReads((bs.tail.head % 16) * 4);
        assert AllPads(e.tail.tail.tail) && WithoutPads(e.tail.tail.tail) == Nil;
        assert WithoutPads(e.tail.tail) == Cons(e.tail.tail.head, Nil);
      } else {
        WithoutPadsIsLetters(bs.tail.tail.tail);
        FourKept(e);
      }
    }
  }

  lemma FourKept(e: Text)
    requires e.Cons? && e.tail.Cons? && e.tail.tail.Cons? && e.tail.tail.tail.Cons?
    requires e.head != PAD && e.tail.head != PAD && e.tail.tail.head != PAD && e.tail.tail.tail.head != PAD
    ensures WithoutPads(e)
      == Cons(e.head,
        Cons(e.tail.head, Cons(e.tail.tail.head, Cons(e.tail.tail.tail.head, WithoutPads(e.tail.tail.tail.tail)))))
  {
    assert WithoutPads(e.tail.tail)
      == Cons(e.tail.tail.head, Cons(e.tail.tail.tail.head, WithoutPads(e.tail.tail.tail.tail)));
  }

  lemma LenFour(t: Text)
    requires t.Cons? && t.tail.Cons? && t.tail.tail.Cons? && t.tail.tail.tail.Cons?
    ensures Len(t) == 4 + Len(t.tail.tail.tail.tail)
  {
    assert Len(t) == 2 + Len(t.tail.tail);
    assert Len(t.tail.tail) == 2 + Len(t.tail.tail.tail.tail);
  }

  lemma LenThree(t: Text)
    requires t.Cons? && t.tail.Cons? && t.tail.tail.Cons?
    ensures Len(t) == 3 + Len(t.tail.tail.tail)
  {
    assert Len(t) == 2 + Len(t.tail.tail);
  }

  /** The number of letters for `n` bytes. */
  function LetterCount(n: nat): nat {
    if n >= 3 then 4 + LetterCount(n - 3) else if n == 0 then 0 else n + 1
  }

  lemma LettersStep(bs: Bytes)
    requires AllBytes(bs) && bs.Cons? && bs.tail.Cons? && bs.tail.tail.Cons?
    ensures AllBytes(bs.tail.tail.tail)
    ensures Len(bs) == 3 + Len(bs.tail.tail.tail) && Len(Letters(bs)) == 4 + Len(Letters(bs.tail.tail.tail))
  {
    ThreeBytes(bs);
    LenThree(bs);
    LenFour(Letters(bs));
  }

  lemma LettersFew(bs: Bytes)
    requires AllBytes(bs) && bs.Cons? && (bs.tail.Nil? || bs.tail.tail.Nil?)
    ensures if bs.tail.Nil? then Len(bs) == 1 && Len(Letters(bs)) == 2 else Len(bs) == 2 && Len(Letters(bs)) == 3
  {
    if bs.tail.Cons? { LenThree(Letters(bs)); }
  }

  /** Three bytes take four letters, and those left over one more than they are. */
  lemma {:induction false} LettersLength(bs: Bytes)
    requires AllBytes(bs)
    ensures 4 * Len(bs) <= 3 * Len(Letters(bs)) <= 4 * Len(bs) + 2
  {
    if bs.Nil? {
    } else if bs.tail.Nil? || bs.tail.tail.Nil? {
      LettersFew(bs);
    } else {
      LettersStep(bs);
      LettersLength(bs.tail.tail.tail);
    }
  }

  /** The padding that the letters of `bs` lack. */
  function PadCount(bs: Bytes): nat {
    if bs.Nil? then 0 else if bs.tail.Nil? then 2 else if bs.tail.tail.Nil? then 1 else PadCount(bs.tail.tail.tail)
  }

  lemma MissingStep(n: nat)
    ensures Missing(4 + n) == Missing(n)
  {}

  lemma {:induction false} PadCountIsMissing(bs: Bytes)
    requires AllBytes(bs)
    ensures Missing(Len(Letters(bs))) == PadCount(bs)
  {
    if bs.Nil? {
    } else if bs.tail.Nil? || bs.tail.tail.Nil? {
      LettersFew(bs);
    } else {
      LettersStep(bs);
      PadCountIsMissing(bs.tail.tail.tail);
      MissingStep(Len(Letters(bs.tail.tail.tail)));
    }
  }

  lemma DecodeFour(a: int, b: int, c: int, rest: Text)
    requires 0 <= a < 256 && 0 <= b < 256 && 0 <= c < 256
    ensures var low := Cons(Letter((b % 16) * 4 + c / 64), Cons(Letter(c % 64), rest));
            Decode(Cons(Letter(a / 4), Cons(Letter((a % 4) * 16 + b / 16), low)), 0, 0, 0)
            == Emit(a, Emit(b, Emit(c, Decode(rest, 0, 0, 0))))
  {
    var w, x, y, z := a / 4, (a % 4) * 16 + b / 16, (b % 16) * 4 + c / 64, c % 64;
    LetterReads(w);
    LetterReads(x);
    LetterReads(y);
    LetterReads(z);
    var last := Cons(Letter(z), rest);
    assert Decode(last, 3, y % 4, 0) == Emit((y % 4) * 64 + z, Decode(rest, 0, 0, 0));
    var third := Cons(Letter(y), last);
    assert Decode(third, 2, x % 16, 0) == Emit((x % 16) * 16 + y / 4, Decode(last, 3, y % 4, 0));
    var second := Cons(Letter(x), third);
    assert Decode(second, 1, w, 0) == Emit(w * 4 + x / 16, Decode(third, 2, x % 16, 0));
    assert w * 4 + x / 16 == a && (x % 16) * 16 + y / 4 == b && (y % 4) * 64 + z == c;
  }

  lemma CatTwo(a: int, b: int, rest: Text)
    ensures Cat(Cons(a, Cons(b, Nil)), rest) == Cons(a, Cons(b, rest))
  {
    var last := Cons(b, Nil);
    assert Cat(last, rest) == Cons(b, rest);
  }

  lemma CatThree(a: int, b: int, c: int, rest: Text)
    ensures Cat(Cons(a, Cons(b, Cons(c, Nil))), rest) == Cons(a, Cons(b, Cons(c, rest)))
  {
    CatTwo(b, c, rest);
  }

  lemma DecodeOne(a: int)
    requires 0 <= a < 256
    ensures Decode(Cons(Letter(a / 4), Cons(Letter((a % 4) * 16), Pads(2))), 0, 0, 0) == Some(Cons(a, Nil))
  {
    var w, x := a / 4, (a % 4) * 16;
    LetterReads(w);
    LetterReads(x);
    var pads := Pads(2);
    assert pads == Cons(PAD, Cons(PAD, Nil));
    assert Decode(pads, 2, x % 16, 0) == Some(Nil);
    assert Decode(Cons(Letter(x), pads), 1, w, 0) == Some(Cons(a, Nil));
  }

  lemma DecodeTwo(a: int, b: int)
    requires 0 <= a < 256 && 0 <= b < 256
    ensures var low := Cons(Letter((b % 16) * 4), Pads(1));
            Decode(Cons(Letter(a / 4), Cons(Letter((a % 4) * 16 + b / 16), low)), 0, 0, 0)
            == Some(Cons(a, Cons(b, Nil)))
  {
    var w, x, y := a / 4, (a % 4) * 16 + b / 16, (b % 16) * 4;
    assert w * 4 + x / 16 == a && (x % 16) * 16 + y / 4 == b;
    LetterReads(w);
    LetterReads(x);
    LetterReads(y);
    var pads := Pads(1);
    assert pads == Cons(PAD, Nil);
    assert Decode(pads, 3, y % 4, 0) == Some(Nil);
    var low := Cons(Letter(y), pads);
    assert Decode(low, 2, x % 16, 0) == Some(Cons(b, Nil));
    assert Decode(Cons(Letter(x), low), 1, w, 0) == Some(Cons(a, Cons(b, Nil)));
  }

  lemma DecodeLast(bs: Bytes, t: Text)
    requires AllBytes(bs) && bs.Cons? && (bs.tail.Nil? || bs.tail.tail.Nil?)
    requires t == Cat(Letters(bs), Pads(if bs.tail.Nil? then 2 else 1))
    ensures Decode(t, 0, 0, 0) == Some(bs)
  {
    var a := bs.head;
    if bs.tail.Nil? {
      DecodeOne(a);
      CatTwo(Letter(a / 4), Letter((a % 4) * 16), Pads(2));
    } else {
      var b := bs.tail.head;
      DecodeTwo(a, b);
      CatThree(Letter(a / 4), Letter((a % 4) * 16 + b / 16), Letter((b % 16) * 4), Pads(1));
    }
  }

  lemma {:induction false} DecodeLetters(bs: Bytes)
    requires AllBytes(bs)
    ensures Decode(Cat(Letters(bs), Pads(PadCount(bs))), 0, 0, 0) == Some(bs)
  {
    if bs.Nil? {
    } else if bs.tail.Nil? || bs.tail.tail.Nil? {
      DecodeLast(bs, Cat(Letters(bs), Pads(PadCount(bs))));
    } else {
      var rest := bs.tail.tail.tail;
      ThreeBytes(bs);
      DecodeLetters(rest);
      FourCat(Letters(bs), Pads(PadCount(bs)));
      DecodeFour(bs.head, bs.tail.head, bs.tail.tail.head, Cat(Letters(rest), Pads(PadCount(rest))));
    }
  }

  /** Unpadded base64url, padded again and decoded, is the bytes. */
  lemma UnpaddedRoundTrip(bs: Bytes)
    requires AllBytes(bs)
    ensures Decode(Padded(WithoutPads(Encode(bs))), 0, 0, 0) == Some(bs)
  {
    WithoutPadsIsLetters(bs);
    PadCountIsMissing(bs);
    DecodeLetters(bs);
  }

  // ----- The text of a token

  /** `str(n)` of an int. */
  function IntText(n: int): Text {
    var magnitude: Text := NatDigits(if n < 0 then -n else n);
    if n < 0 then Cons(0x2D, magnitude) else magnitude
  }

  predicate IsBlank(c: int) { c == 0x20 || 0x09 <= c <= 0x0D || 0x1C <= c <= 0x1F }

  predicate AllBlank(t: Text) { t.Cons? ==> IsBlank(t.head) && AllBlank(t.tail) }

  function StripLeft(t: Text): Text { if t.Cons? && IsBlank(t.head) then StripLeft(t.tail) else t }
  function StripRight(t: Text): Text { if AllBlank(t) then Nil else Cons(t.head, StripRight(t.tail)) }

  /** The digits of an integer literal: an underscore may stand between two digits. */
  function ReadDigits(t: Text, before: nat): Option<nat>
    decreases t
  {
    if t.Nil? || !IsDigit(t.head) then None
    else
      var n := 10 * before + (t.head - ZERO);
      if t.tail.Nil? then Some(n)
      else if t.tail.head == 0x5F then ReadDigits(t.tail.tail, n)
      else ReadDigits(t.tail, n)
  }

  /** `int(text)` of an ASCII text; None is the ValueError. */
  function ReadInt(t: Text): Option<int> {
    var s := StripRight(StripLeft(t));
    if s.Nil? then None
    else if s.head == 0x2D || s.head == 0x2B then
      var n := ReadDigits(s.tail, 0);
      var value: int := if n.None? then 0 else if s.head == 0x2D then 0 - n.value else n.value;
      if n.None? then None else Some(value)
    else
      var n := ReadDigits(s, 0);
      if n.None? then None else Some(n.value)
  }

  lemma {:induction false} ReadDigitsOf(ds: Digits, before: nat)
    requires ds.Cons?
    ensures ReadDigits(ds, before) == Some(Extend(before, ds))
    decreases ds
  {
    if ds.tail.Cons? { ReadDigitsOf(ds.tail, 10 * before + (ds.head - ZERO)); }
  }

  lemma {:induction false} NothingToStrip(t: Text)
    requires NoBlank(t)
    ensures StripRight(t) == t && StripLeft(t) == t
  {
    if t.Cons? { NothingToStrip(t.tail); }
  }

  predicate NoBlank(t: Text) { t.Cons? ==> !IsBlank(t.head) && NoBlank(t.tail) }

  lemma {:induction false} DigitsNoBlank(ds: Digits)
    ensures NoBlank(ds)
  {
    if ds.Cons? { DigitsNoBlank(ds.tail); }
  }

  lemma IntRoundTrip(n: int)
    ensures ReadInt(IntText(n)) == Some(n)
  {
    var ds := NatDigits(if n < 0 then -n else n);
    NatDigitsValue(if n < 0 then -n else n);
    DigitsNoBlank(ds);
    ReadDigitsOf(ds, 0);
    NothingToStrip(IntText(n));
  }

  /** `raw.split(".")`. */
  function Split(t: Text): List<Text> {
    if t.Nil? then Cons(Nil, Nil)
    else if t.head == DOT then Cons(Nil, Split(t.tail))
    else
      var rest := Split(t.tail);
      if rest.Cons? then Cons(Cons(t.head, rest.head), rest.tail) else Cons(Cons(t.head, Nil), Nil)
  }

  predicate NoDot(t: Text) { t.Cons? ==> t.head != DOT && NoDot(t.tail) }

  lemma {:induction false} SplitPart(a: Text, rest: Text)
    requires NoDot(a)
    ensures Split(Cat(a, Cons(DOT, rest))) == Cons(a, Split(rest))
  {
    if a.Cons? { SplitPart(a.tail, rest); }
  }

  lemma {:induction false} SplitLast(a: Text)
    requires NoDot(a)
    ensures Split(a) == Cons(a, Nil)
  {
    if a.Cons? { SplitLast(a.tail); }
  }

  const VERSION := Cons(0x76, Cons(0x32, Nil))

  function Payload(expiry: Text, nonce: Text): Text { Cat(VERSION, Cons(DOT, Cat(expiry, Cons(DOT, nonce)))) }

  function Raw(expiry: Text, nonce: Text, signature: Text): Text { Cat(Payload(expiry, nonce), Cons(DOT, signature)) }

  predicate IsHex(t: Text) { t.Cons? ==> (IsDigit(t.head) || 0x61 <= t.head <= 0x66) && IsHex(t.tail) }

  lemma {:induction false} HexPlain(t: Text)
    requires IsHex(t)
    ensures NoDot(t) && AllBytes(t) && AllAscii(t)
  {
    if t.Cons? { HexPlain(t.tail); }
  }

  predicate AllAscii(t: Text) { t.Cons? ==> 0 <= t.head < 128 && AllAscii(t.tail) }

  lemma {:induction false} DigitsPlain(ds: Digits)
    ensures NoDot(ds) && AllBytes(ds) && AllAscii(ds)
  {
    if ds.Cons? { DigitsPlain(ds.tail); }
  }

  lemma {:induction false} PlainCat(a: Text, b: Text)
    ensures AllAscii(Cat(a, b)) <==> AllAscii(a) && AllAscii(b)
    ensures AllBytes(Cat(a, b)) <==> AllBytes(a) && AllBytes(b)
  {
    if a.Cons? { PlainCat(a.tail, b); }
  }

  // ----- Issuing and checking

  /** `_sign`: the signature of a payload under a key, 64 hexadecimal digits. */
  type Signer = (Text, Text) -> Text

  ghost predicate Signs(sign: Signer) {
    forall key, payload :: IsHex(sign(key, payload)) && Len(sign(key, payload)) == 64
  }

  const MIN_TTL := 60
  const MAX_TTL := 12 * 3600
  const MAX_TOKEN := 256

  /** `issue_token` with the random `nonce`; None is the ValueError. */
  function IssueToken(key: Text, ttl: int, now: int, nonce: Text, sign: Signer): Option<Text>
    requires IsHex(nonce) && Signs(sign)
  {
    if key.Nil? || !(MIN_TTL <= ttl <= MAX_TTL) then None
    else
      var payload := Payload(IntText(now + ttl), nonce);
      RawPlain(now + ttl, nonce, sign(key, payload));
      Some(WithoutPads(Encode(Cat(payload, Cons(DOT, sign(key, payload))))))
  }

  /** `token_expiry`. */
  function TokenExpiry(key: Text, token: Text, now: int, sign: Signer): Option<int> {
    if key.Nil? || token.Nil? || Len(token) > MAX_TOKEN || !AllAscii(token) then None
    else
      var raw := Decode(Padded(token), 0, 0, 0);
      if raw.None? || !AllAscii(raw.value) then None
      else
        var parts := Split(raw.value);
        if Len(parts) != 4 || parts.head != VERSION then None
        else
          var payload := Payload(Part(parts, 1), Part(parts, 2));
          if Part(parts, 3) != sign(key, payload) then None
          else
            var expiry := ReadInt(Part(parts, 1));
            if expiry.None? || now >= expiry.value then None else expiry
  }

  function Part(parts: List<Text>, i: nat): Text
    requires i < Len(parts)
  {
    if i == 0 then parts.head else Part(parts.tail, i - 1)
  }

  lemma IntTextPlain(n: int)
    ensures NoDot(IntText(n)) && AllBytes(IntText(n)) && AllAscii(IntText(n)) && IntText(n).Cons?
  {
    var ds := NatDigits(if n < 0 then -n else n);
    NatDigitsValue(if n < 0 then -n else n);
    DigitsPlain(ds);
  }

  lemma RawPlain(expiry: int, nonce: Text, signature: Text)
    requires IsHex(nonce) && IsHex(signature)
    ensures var raw := Raw(IntText(expiry), nonce, signature); AllBytes(raw) && AllAscii(raw)
  {
    var e := IntText(expiry);
    IntTextPlain(expiry);
    HexPlain(nonce);
    HexPlain(signature);
    PlainCat(e, Cons(DOT, nonce));
    PlainCat(VERSION, Cons(DOT, Cat(e, Cons(DOT, nonce))));
    PlainCat(Payload(e, nonce), Cons(DOT, signature));
  }

  lemma SplitsInFour(expiry: Text, nonce: Text, signature: Text)
    requires NoDot(expiry) && NoDot(nonce) && NoDot(signature)
    ensures Split(Raw(expiry, nonce, signature)) == Cons(VERSION, Cons(expiry, Cons(nonce, Cons(signature, Nil))))
  {
    CatAssoc(VERSION, Cons(DOT, Cat(expiry, Cons(DOT, nonce))), Cons(DOT, signature));
    CatAssoc(expiry, Cons(DOT, nonce), Cons(DOT, signature));
    SplitPart(VERSION, Cat(expiry, Cons(DOT, Cat(nonce, Cons(DOT, signature)))));
    SplitPart(expiry, Cat(nonce, Cons(DOT, signature)));
    SplitPart(nonce, signature);
    SplitLast(signature);
  }

  lemma RawSplits(expiry: int, nonce: Text, signature: Text)
    requires IsHex(nonce) && IsHex(signature)
    ensures Split(Raw(IntText(expiry), nonce, signature))
         == Cons(VERSION, Cons(IntText(expiry), Cons(nonce, Cons(signature, Nil))))
  {
    IntTextPlain(expiry);
    HexPlain(nonce);
    HexPlain(signature);
    SplitsInFour(IntText(expiry), nonce, signature);
  }

  lemma RawLength(expiry: Text, nonce: Text, signature: Text)
    ensures Len(Raw(expiry, nonce, signature)) == 5 + Len(expiry) + Len(nonce) + Len(signature)
  {
    LenCat(Payload(expiry, nonce), Cons(DOT, signature));
    LenCat(VERSION, Cons(DOT, Cat(expiry, Cons(DOT, nonce))));
    LenCat(expiry, Cons(DOT, nonce));
    assert Len(VERSION) == 2;
  }

  lemma {:induction false} LettersAscii(bs: Bytes)
    requires AllBytes(bs)
    ensures AllAscii(Letters(bs))
  {
    ThreeBytes(bs);
    if bs.Cons? {
      LetterReads(bs.head / 4);
      var t := Letters(bs);
      if bs.tail.Nil? {
        LetterReads((bs.head % 4) * 16);
      } else if bs.tail.tail.Nil? {
        LetterReads((bs.head % 4) * 16 + bs.tail.head / 16);
        LetterReads((bs.tail.head % 16) * 4);
        assert AllAscii(t.tail.tail);
      } else {
        LettersAscii(bs.tail.tail.tail);
        LetterReads((bs.head % 4) * 16 + bs.tail.head / 16);
        LetterReads((bs.tail.head % 16) * 4 + bs.tail.tail.head / 64);
        LetterReads(bs.tail.tail.head % 64);
        assert AllAscii(t.tail.tail);
      }
    }
  }

  // ----- Main results

  /** A token is within the length cap exactly when its expiry has at most 91 characters. */
  lemma TokenLength(key: Text, ttl: int, now: int, nonce: Text, sign: Signer)
    requires key.Cons? && MIN_TTL <= ttl <= MAX_TTL && IsHex(nonce) && Len(nonce) == 32 && Signs(sign)
    ensures IssueToken(key, ttl, now, nonce, sign).Some?
    ensures Len(IssueToken(key, ttl, now, nonce, sign).value) <= MAX_TOKEN <==> Len(IntText(now + ttl)) <= 91
  {
    var e := IntText(now + ttl);
    var signature := sign(key, Payload(e, nonce));
    RawPlain(now + ttl, nonce, signature);
    RawLength(e, nonce, signature);
    WithoutPadsIsLetters(Raw(e, nonce, signature));
    LettersLength(Raw(e, nonce, signature));
  }

  /** An issued token gives back its expiry at every instant before it, and nothing from then on. */
  lemma IssuedTokenExpires(key: Text, ttl: int, now: int, nonce: Text, sign: Signer, later: int)
    requires key.Cons? && MIN_TTL <= ttl <= MAX_TTL && IsHex(nonce) && Len(nonce) == 32 && Signs(sign)
    requires Len(IntText(now + ttl)) <= 91
    ensures IssueToken(key, ttl, now, nonce, sign).Some?
    ensures TokenExpiry(key, IssueToken(key, ttl, now, nonce, sign).value, later, sign)
         == if later < now + ttl then Some(now + ttl) else None
  {
    var e := IntText(now + ttl);
    var signature := sign(key, Payload(e, nonce));
    var raw := Raw(e, nonce, signature);
    var token := IssueToken(key, ttl, now, nonce, sign).value;
    TokenLength(key, ttl, now, nonce, sign);
    RawPlain(now + ttl, nonce, signature);
    WithoutPadsIsLetters(raw);
    RawLength(e, nonce, signature);
    LettersLength(raw);
    LettersAscii(raw);
    UnpaddedRoundTrip(raw);
    RawSplits(now + ttl, nonce, signature);
    FourParts(VERSION, e, nonce, signature);
    IntRoundTrip(now + ttl);
  }

  lemma FourParts(a: Text, b: Text, c: Text, d: Text)
    ensures var parts := Cons(a, Cons(b, Cons(c, Cons(d, Nil))));
            Len(parts) == 4 && parts.head == a && Part(parts, 1) == b && Part(parts, 2) == c && Part(parts, 3) == d
  {
    var p3 := Cons(d, Nil);
    var p2 := Cons(c, p3);
    var p1 := Cons(b, p2);
    assert Len(p3) == 1 && Len(p2) == 2 && Len(p1) == 3;
    assert Part(p3, 0) == d;
    assert Part(p2, 0) == c && Part(p2, 1) == d;
    assert Part(p1, 1) == c && Part(p1, 2) == d;
  }

  /** Whoever presents a token that is accepted presents a signature of its expiry under the key, and the
      expiry is still ahead. */
  lemma AcceptedIsSigned(key: Text, token: Text, now: int, sign: Signer) returns (expiry: Text, nonce: Text)
    requires TokenExpiry(key, token, now, sign).Some?
    ensures Decode(Padded(token), 0, 0, 0) == Some(Raw(expiry, nonce, sign(key, Payload(expiry, nonce))))
    ensures ReadInt(expiry) == TokenExpiry(key, token, now, sign) && now < TokenExpiry(key, token, now, sign).value
    ensures NoDot(expiry) && NoDot(nonce)
  {
    var raw := Decode(Padded(token), 0, 0, 0).value;
    var parts := Split(raw);
    expiry, nonce := Part(parts, 1), Part(parts, 2);
    var signature := Part(parts, 3);
    JoinSplit(raw);
    SplitNoDots(raw);
    IsFourParts(parts);
    assert NoDots(parts.tail) && NoDots(parts.tail.tail);
    JoinFour(VERSION, expiry, nonce, signature);
    CatAssoc(VERSION, Cons(DOT, Cat(expiry, Cons(DOT, nonce))), Cons(DOT, signature));
    CatAssoc(expiry, Cons(DOT, nonce), Cons(DOT, signature));
  }

  predicate NoDots(parts: List<Text>) { parts.Cons? ==> NoDot(parts.head) && NoDots(parts.tail) }

  lemma {:induction false} SplitNoDots(t: Text)
    ensures NoDots(Split(t))
  {
    if t.Cons? { SplitNoDots(t.tail); }
  }

  lemma IsFourParts(parts: List<Text>)
    requires Len(parts) == 4
    ensures parts == Cons(parts.head, Cons(Part(parts, 1), Cons(Part(parts, 2), Cons(Part(parts, 3), Nil))))
  {
    var p1 := parts.tail;
    assert Len(p1) == 3;
    var p2 := p1.tail;
    assert Len(p2) == 2;
    var p3 := p2.tail;
    assert Len(p3) == 1 && p3.tail == Nil;
    assert Part(p3, 0) == p3.head;
    assert Part(p2, 1) == p3.head && Part(p2, 0) == p2.head;
    assert Part(p1, 2) == p3.head && Part(p1, 1) == p2.head;
  }

  lemma JoinFour(a: Text, b: Text, c: Text, d: Text)
    ensures Join(Cons(a, Cons(b, Cons(c, Cons(d, Nil)))))
         == Cat(a, Cons(DOT, Cat(b, Cons(DOT, Cat(c, Cons(DOT, d))))))
  {
    var last := Cons(c, Cons(d, Nil));
    assert Join(last) == Cat(c, Cons(DOT, d));
    assert Join(Cons(b, last)) == Cat(b, Cons(DOT, Join(last)));
  }

  /** `".".join(parts)`. */
  function Join(parts: List<Text>): Text {
    if parts.Nil? then Nil else if parts.tail.Nil? then parts.head else Cat(parts.head, Cons(DOT, Join(parts.tail)))
  }

  lemma {:induction false} JoinSplit(t: Text)
    ensures Split(t).Cons? && Join(Split(t)) == t
  {
    if t.Cons? { JoinSplit(t.tail); }
  }

  // ----- The form of a token, and all that are accepted

  /** The letters are A-Z, a-z, 0-9, '-' and '_', in that order. */
  lemma LetterIs(v: int)
    requires 0 <= v < 64
    ensures v < 26 <==> 'A' as int <= Letter(v) <= 'Z' as int
    ensures 26 <= v < 52 <==> 'a' as int <= Letter(v) <= 'z' as int
    ensures 52 <= v < 62 <==> '0' as int <= Letter(v) <= '9' as int
    ensures v == 62 ==> Letter(v) == '-' as int
    ensures v == 63 ==> Letter(v) == '_' as int
    ensures v < 63 && v !in {25, 51, 61, 62} ==> Letter(v + 1) == Letter(v) + 1
  {}

  /** Three bytes are one number of 24 bits, and four letters its groups of six, the highest first. */
  lemma GroupValue(a: int, b: int, c: int, rest: Bytes)
    requires 0 <= a < 256 && 0 <= b < 256 && 0 <= c < 256 && AllBytes(rest)
    ensures AllBytes(Cons(a, Cons(b, Cons(c, rest))))
    ensures var t := Encode(Cons(a, Cons(b, Cons(c, rest))));
            var n := 65536 * a + 256 * b + c;
            t == Cons(Letter(n / 262144), Cons(Letter(n / 4096 % 64), Cons(Letter(n / 64 % 64), Cons(Letter(n % 64),
              Encode(rest)))))
  {
    var bs := Cons(a, Cons(b, Cons(c, rest)));
    assert AllBytes(bs.tail) && AllBytes(bs.tail.tail);
    GroupDigits(a, b, c);
  }

  lemma GroupDigits(a: int, b: int, c: int)
    requires 0 <= a < 256 && 0 <= b < 256 && 0 <= c < 256
    ensures var n := 65536 * a + 256 * b + c;
            && n / 262144 == a / 4 && n / 4096 % 64 == (a % 4) * 16 + b / 16
            && n / 64 % 64 == (b % 16) * 4 + c / 64 && n % 64 == c % 64
  {
    var w, x, y, z := a / 4, (a % 4) * 16 + b / 16, (b % 16) * 4 + c / 64, c % 64;
    var n := 65536 * a + 256 * b + c;
    assert n == 64 * (64 * (64 * w + x) + y) + z;
    Sixty(n, 64 * (64 * w + x) + y, z);
    Sixty(n / 64, 64 * w + x, y);
    Sixty(n / 64 / 64, w, x);
    assert n / 4096 == n / 64 / 64 && n / 262144 == n / 64 / 64 / 64;
  }

  lemma Sixty(n: int, high: int, low: int)
    requires n == 64 * high + low && 0 <= low < 64
    ensures n / 64 == high && n % 64 == low
  {}

  /** The payload: "v2", the expiry and the nonce, with dots between. */
  function PayloadText(expiry: Text, nonce: Text): Text {
    var dot: int := 0x2E;
    Cat(Ascii("v2"), Cons(dot, Cat(expiry, Cons(dot, nonce))))
  }

  lemma PayloadIs(expiry: Text, nonce: Text)
    ensures Payload(expiry, nonce) == PayloadText(expiry, nonce)
  {
    assert Ascii("2") == Cons(0x32, Nil);
    assert Ascii("v2") == Cons(0x76, Ascii("2"));
  }

  /** A token is issued exactly for a key and a lifetime between a minute and twelve hours, and it encodes the
      payload and its signature under the key. */
  lemma IssueExactly(key: Text, ttl: int, now: int, nonce: Text, sign: Signer)
    requires IsHex(nonce) && Signs(sign)
    ensures var token := IssueToken(key, ttl, now, nonce, sign);
            && (token.Some? <==> key != Nil && 60 <= ttl <= 43200)
            && (token.Some? ==>
                  var payload := PayloadText(IntText(now + ttl), nonce);
                  Decode(Padded(token.value), 0, 0, 0) == Some(Cat(payload, Cons(0x2E, sign(key, payload)))))
  {
    PayloadIs(IntText(now + ttl), nonce);
    if key.Cons? && MIN_TTL <= ttl <= MAX_TTL {
      var signature := sign(key, Payload(IntText(now + ttl), nonce));
      RawPlain(now + ttl, nonce, signature);
      UnpaddedRoundTrip(Raw(IntText(now + ttl), nonce, signature));
    }
  }

  /** The bytes of an accepted token: a payload, its signature, and an expiry `n` that is still ahead. */
  ghost predicate Vouches(key: Text, raw: Text, now: int, sign: Signer, expiry: Text, nonce: Text, n: int) {
    && NoDot(expiry) && NoDot(nonce)
    && (var payload := PayloadText(expiry, nonce); raw == Cat(payload, Cons(0x2E, sign(key, payload))))
    && ReadInt(expiry) == Some(n) && now < n
  }

  lemma VouchedAccepted(key: Text, token: Text, now: int, sign: Signer, expiry: Text, nonce: Text, n: int)
    requires Signs(sign) && key.Cons? && token.Cons? && Len(token) <= 256 && AllAscii(token)
    requires Decode(Padded(token), 0, 0, 0).Some? && AllAscii(Decode(Padded(token), 0, 0, 0).value)
    requires Vouches(key, Decode(Padded(token), 0, 0, 0).value, now, sign, expiry, nonce, n)
    ensures TokenExpiry(key, token, now, sign) == Some(n)
  {
    var signature := sign(key, Payload(expiry, nonce));
    PayloadIs(expiry, nonce);
    HexPlain(signature);
    SplitsInFour(expiry, nonce, signature);
    FourParts(VERSION, expiry, nonce, signature);
  }

  /** A token is accepted exactly when it is ASCII of 1 to 256 characters that decodes to ASCII bytes which vouch
      for the expiry. */
  lemma AcceptedExactly(key: Text, token: Text, now: int, sign: Signer, n: int)
    requires Signs(sign)
    ensures TokenExpiry(key, token, now, sign) == Some(n) <==>
      && key != Nil && 1 <= Len(token) <= 256 && AllAscii(token)
      && Decode(Padded(token), 0, 0, 0).Some? && AllAscii(Decode(Padded(token), 0, 0, 0).value)
      && exists expiry, nonce :: Vouches(key, Decode(Padded(token), 0, 0, 0).value, now, sign, expiry, nonce, n)
  {
    if TokenExpiry(key, token, now, sign) == Some(n) {
      var raw := Decode(Padded(token), 0, 0, 0).value;
      var expiry, nonce := AcceptedIsSigned(key, token, now, sign);
      PayloadIs(expiry, nonce);
      assert Vouches(key, raw, now, sign, expiry, nonce, n);
    } else if key.Cons? && token.Cons? && Len(token) <= 256 && AllAscii(token) {
      var raw := Decode(Padded(token), 0, 0, 0);
      if raw.Some? && AllAscii(raw.value) {
        forall expiry, nonce ensures !Vouches(key, raw.value, now, sign, expiry, nonce, n) {
          if Vouches(key, raw.value, now, sign, expiry, nonce, n) {
            VouchedAccepted(key, token, now, sign, expiry, nonce, n);
            assert false;
          }
        }
      }
    }
  }
}
