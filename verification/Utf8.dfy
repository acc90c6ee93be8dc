/**
 * JavaScript strings are sequences of UTF-16 code units; `Buffer` turns them into bytes and back
 * with UTF-8 (RFC 3629).  Neither direction ever fails: an unpaired surrogate is written as U+FFFD,
 * and each maximal ill-formed subpart that is read becomes U+FFFD.
 */
module Utf8 {

  type CodeUnit = n: int | 0 <= n < 0x1_0000
  type JsString = seq<CodeUnit>
  type Byte = n: int | 0 <= n < 0x100

  const REPLACEMENT: CodeUnit := 0xFFFD

  predicate High(u: CodeUnit) { 0xD800 <= u < 0xDC00 }

  predicate Low(u: CodeUnit) { 0xDC00 <= u < 0xE000 }

  predicate Surrogate(u: CodeUnit) { 0xD800 <= u < 0xE000 }

  predicate Pair(s: JsString) { |s| >= 2 && High(s[0]) && Low(s[1]) }

  predicate Partnered(s: JsString, i: nat)
    requires i < |s|
  {
    && (High(s[i]) ==> i + 1 < |s| && Low(s[i + 1]))
    && (Low(s[i]) ==> i > 0 && High(s[i - 1]))
  }

  /** No surrogate without its partner (`String.prototype.isWellFormed`). */
  ghost predicate WellFormed(s: JsString) {
    forall i :: 0 <= i < |s| ==> Partnered(s, i)
  }

  function Repair(s: JsString): JsString {
    if s == [] then []
    else if Pair(s) then s[..2] + Repair(s[2..])
    else [if Surrogate(s[0]) then REPLACEMENT else s[0]] + Repair(s[1..])
  }

  // ---- Encoding -----------------------------------------------------------------------------

  function UnitBytes(u: CodeUnit): seq<Byte> {
    if u < 0x80 then [u]
    else if u < 0x800 then [0xC0 + u / 64, 0x80 + u % 64]
    else [0xE0 + u / 64 / 64, 0x80 + u / 64 % 64, 0x80 + u % 64]
  }

  function PairBytes(high: CodeUnit, low: CodeUnit): seq<Byte>
    requires High(high) && Low(low)
  {
    var c := 0x1_0000 + (high as int - 0xD800) * 0x400 + (low as int - 0xDC00);
    [0xF0 + c / 64 / 64 / 64, 0x80 + c / 64 / 64 % 64, 0x80 + c / 64 % 64, 0x80 + c % 64]
  }

  function Encode(s: JsString): seq<Byte> {
    if s == [] then []
    else if Pair(s) then PairBytes(s[0], s[1]) + Encode(s[2..])
    else UnitBytes(if Surrogate(s[0]) then REPLACEMENT else s[0]) + Encode(s[1..])
  }

  // ---- Decoding -----------------------------------------------------------------------------

  predicate Continues(b: seq<Byte>, i: nat) { i < |b| && 0x80 <= b[i] < 0xC0 }

  /** Range of the second byte after `lead` (RFC 3629, section 4). */
  predicate SecondFits(b: seq<Byte>)
    requires |b| >= 1
  {
    && |b| >= 2
    && (if b[0] == 0xE0 then 0xA0 else if b[0] == 0xF0 then 0x90 else 0x80) <= b[1]
    && b[1] < (if b[0] == 0xED then 0xA0 else if b[0] == 0xF4 then 0x90 else 0xC0)
  }

  function SupplementaryPair(c: int): JsString
    requires 0x1_0000 <= c < 0x11_0000
  {
    [0xD800 + (c - 0x1_0000) / 0x400, 0xDC00 + (c - 0x1_0000) % 0x400]
  }

  function Payload(continuation: Byte): int { continuation as int - 0x80 }

  /** The characters read first, and how many bytes they take. */
  function DecodeOne(b: seq<Byte>): (r: (JsString, nat))
    requires b != []
    ensures 1 <= r.1 <= |b|
  {
    var lead: int := b[0];
    if lead < 0x80 then ([lead], 1)
    else if lead < 0xC2 || lead > 0xF4 || !SecondFits(b) then ([REPLACEMENT], 1)
    else if lead < 0xE0 then ([(lead - 0xC0) * 64 + Payload(b[1])], 2)
    else if !Continues(b, 2) then ([REPLACEMENT], 2)
    else if lead < 0xF0 then ([(lead - 0xE0) * 4096 + Payload(b[1]) * 64 + Payload(b[2])], 3)
    else if !Continues(b, 3) then ([REPLACEMENT], 3)
    else
      (SupplementaryPair((lead - 0xF0) * 0x4_0000 + Payload(b[1]) * 4096 + Payload(b[2]) * 64 + Payload(b[3])), 4)
  }

  function Decode(b: seq<Byte>): JsString {
    if b == [] then [] else var (chars, n) := DecodeOne(b); chars + Decode(b[n..])
  }

  // ---- Round trips --------------------------------------------------------------------------

  lemma {:induction false} DecodeUnitBytes(u: CodeUnit, rest: seq<Byte>)
    requires !Surrogate(u)
    ensures Decode(UnitBytes(u) + rest) == [u] + Decode(rest)
  {
    var b := UnitBytes(u) + rest;
    assert b[|UnitBytes(u)|..] == rest;
    assert DecodeOne(b) == ([u], |UnitBytes(u)|);
  }

  lemma {:induction false} SextetsOf(c: int)
    requires 0x1_0000 <= c < 0x11_0000
    ensures 0 <= c / 64 / 64 / 64 <= 4
    ensures c / 64 / 64 / 64 == 0 ==> c / 64 / 64 % 64 >= 0x10
    ensures c / 64 / 64 / 64 == 4 ==> c / 64 / 64 % 64 < 0x10
    ensures (c / 64 / 64 / 64) * 0x4_0000 + (c / 64 / 64 % 64) * 4096 + (c / 64 % 64) * 64 + c % 64 == c
  {
    var c1 := c / 64;
    var c2 := c1 / 64;
    assert c == c1 * 64 + c % 64 && c1 == c2 * 64 + c1 % 64 && c2 == (c2 / 64) * 64 + c2 % 64;
  }

  lemma {:induction false} PairBytesPayloads(high: CodeUnit, low: CodeUnit)
    requires High(high) && Low(low)
    ensures var c := 0x1_0000 + (high as int - 0xD800) * 0x400 + (low as int - 0xDC00);
            var b := PairBytes(high, low);
            && 0xF0 <= b[0] <= 0xF4 && SecondFits(b) && Continues(b, 2) && Continues(b, 3)
            && (b[0] as int - 0xF0) * 0x4_0000 + Payload(b[1]) * 4096 + Payload(b[2]) * 64 + Payload(b[3]) == c
  {
    SextetsOf(0x1_0000 + (high as int - 0xD800) * 0x400 + (low as int - 0xDC00));
  }

  lemma {:induction false} SupplementaryPairOf(high: CodeUnit, low: CodeUnit)
    requires High(high) && Low(low)
    ensures SupplementaryPair(0x1_0000 + (high as int - 0xD800) * 0x400 + (low as int - 0xDC00)) == [high, low]
  {
  }

  lemma {:induction false} DecodePairBytes(high: CodeUnit, low: CodeUnit, rest: seq<Byte>)
    requires High(high) && Low(low)
    ensures Decode(PairBytes(high, low) + rest) == [high, low] + Decode(rest)
  {
    var b := PairBytes(high, low) + rest;
    assert b[4..] == rest;
    PairBytesPayloads(high, low);
    SupplementaryPairOf(high, low);
    assert DecodeOne(b) == ([high, low], 4);
  }

  /** Writing a string out and reading it back replaces unpaired surrogates, and nothing else. */
  lemma {:induction false} DecodeOfEncode(s: JsString)
    ensures Decode(Encode(s)) == Repair(s)
  {
    if s == [] {
    } else if Pair(s) {
      DecodeOfEncode(s[2..]);
      DecodePairBytes(s[0], s[1], Encode(s[2..]));
    } else {
      DecodeOfEncode(s[1..]);
      DecodeUnitBytes(if Surrogate(s[0]) then REPLACEMENT else s[0], Encode(s[1..]));
    }
  }

  lemma {:induction false} WellFormedTail(s: JsString)
    requires s != []
    ensures Pair(s) ==> (WellFormed(s) <==> WellFormed(s[2..]))
    ensures !Surrogate(s[0]) ==> (WellFormed(s) <==> WellFormed(s[1..]))
    ensures Surrogate(s[0]) && !Pair(s) ==> !WellFormed(s)
  {
    if Pair(s) {
      assert Partnered(s, 0) && Partnered(s, 1);
      WellFormedAfter(s, 2);
    } else if !Surrogate(s[0]) {
      assert Partnered(s, 0);
      WellFormedAfter(s, 1);
    } else {
      assert !Partnered(s, 0);
    }
  }

  lemma {:induction false} WellFormedAfter(s: JsString, n: nat)
    requires 0 < n <= |s| && !High(s[n - 1])
    requires forall i :: 0 <= i < n ==> Partnered(s, i)
    ensures WellFormed(s) <==> WellFormed(s[n..])
  {
    var t := s[n..];
    assert forall i {:trigger Partnered(t, i)} :: 0 <= i < |t| ==> Partnered(t, i) == Partnered(s, i + n);
    if WellFormed(t) {
      forall i | 0 <= i < |s| ensures Partnered(s, i) {
        if i >= n { assert Partnered(t, i - n); }
      }
    }
  }

  lemma {:induction false} RepairedIffIllFormed(s: JsString)
    ensures Repair(s) == s <==> WellFormed(s)
  {
    if s != [] {
      WellFormedTail(s);
      var n := if Pair(s) then 2 else 1;
      RepairedIffIllFormed(s[n..]);
      assert s == s[..n] + s[n..];
      assert |s[..n]| == n;
      assert Repair(s)[n..] == Repair(s[n..]);
    }
  }

  /** Whatever the bytes, the decoded string is well formed. */
  lemma {:induction false} DecodedIsWellFormed(b: seq<Byte>)
    ensures WellFormed(Decode(b))
  {
    if b != [] {
      var (chars, n) := DecodeOne(b);
      DecodedIsWellFormed(b[n..]);
      var s := Decode(b);
      WellFormedTail(s);
      assert s[|chars|..] == Decode(b[n..]);
    }
  }

  /** UTF-8 never needs fewer bytes than the string has code units. */
  lemma {:induction false} EncodeIsNoShorter(s: JsString)
    ensures |Encode(s)| >= |s|
  {
    if s != [] {
      EncodeIsNoShorter(s[if Pair(s) then 2 else 1..]);
    }
  }

  /** The examples of section 7 of RFC 3629: one to three bytes a character, and a supplementary one. */
  lemma {:induction false} Rfc3629Examples()
    ensures UnitBytes(0x0041) == [0x41]
    ensures UnitBytes(0x2262) == [0xE2, 0x89, 0xA2] && UnitBytes(0x0391) == [0xCE, 0x91]
    ensures UnitBytes(0xD55C) == [0xED, 0x95, 0x9C]
    ensures PairBytes(0xD84C, 0xDFB4) == [0xF0, 0xA3, 0x8E, 0xB4]
  {
  }

  // ---- Ill-formed bytes ---------------------------------------------------------------------

  /** A byte that begins no character (RFC 3629, section 4): a continuation, an overlong lead, or out of range. */
  predicate BeginsNothing(lead: Byte) { 0x80 <= lead < 0xC2 || lead > 0xF4 }

  /** A pair of bytes that no character begins with although its first byte could begin one. */
  predicate BeginsBadly(lead: Byte, second: Byte) {
    && 0xC2 <= lead <= 0xF4
    && (|| second < 0x80 || second > 0xBF
        || (lead == 0xE0 && second < 0xA0)    // overlong
        || (lead == 0xED && second > 0x9F)    // surrogates
        || (lead == 0xF0 && second < 0x90)    // overlong
        || (lead == 0xF4 && second > 0x8F))   // above U+10FFFF
  }

  /** Such a byte is replaced on its own, and reading goes on with the next one. */
  lemma {:induction false} StrayByteIsReplaced(lead: Byte, rest: seq<Byte>)
    requires BeginsNothing(lead) || (0xC2 <= lead <= 0xF4 && (rest == [] || BeginsBadly(lead, rest[0])))
    ensures Decode([lead] + rest) == [REPLACEMENT] + Decode(rest)
  {
    var b := [lead] + rest;
    assert b[1..] == rest;
    assert DecodeOne(b) == ([REPLACEMENT], 1);
  }

  /** The bytes of one character. */
  ghost predicate Character(b: seq<Byte>) {
    || (exists u: CodeUnit :: !Surrogate(u) && b == UnitBytes(u))
    || (exists high: CodeUnit, low: CodeUnit :: High(high) && Low(low) && b == PairBytes(high, low))
  }

  lemma {:induction false} CharacterShape(b: seq<Byte>)
    requires Character(b) && |b| > 1
    ensures SecondFits(b) && forall i :: 1 <= i < |b| ==> Continues(b, i)
    ensures 0xC2 <= b[0] <= 0xF4 && |b| == if b[0] < 0xE0 then 2 else if b[0] < 0xF0 then 3 else 4
  {
    if u: CodeUnit :| !Surrogate(u) && b == UnitBytes(u) {
      UnitBytesShape(u);
    } else {
      var high: CodeUnit, low: CodeUnit :| High(high) && Low(low) && b == PairBytes(high, low);
      PairBytesPayloads(high, low);
    }
  }

  lemma {:induction false} UnitBytesShape(u: CodeUnit)
    requires !Surrogate(u) && u >= 0x80
    ensures var b := UnitBytes(u);
            && SecondFits(b) && (forall i :: 1 <= i < |b| ==> Continues(b, i))
            && 0xC2 <= b[0] < 0xF0 && |b| == if b[0] < 0xE0 then 2 else 3
  {
  }

  /** A character cut short is replaced as a whole, by one U+FFFD, and what follows is read as usual. */
  lemma {:induction false} TruncatedCharacterIsReplaced(character: seq<Byte>, k: nat, rest: seq<Byte>)
    requires Character(character) && 0 < k < |character|
    requires rest == [] || !(0x80 <= rest[0] < 0xC0)
    ensures Decode(character[..k] + rest) == [REPLACEMENT] + Decode(rest)
  {
    hide Character;
    CharacterShape(character);
    var b := character[..k] + rest;
    assert b[k..] == rest;
    assert forall i :: 0 <= i < k ==> b[i] == character[i];
    assert k < |b| ==> b[k] == b[k..][0];
    assert !Continues(b, k);
    if k == 1 {
      assert !SecondFits(b);
    } else {
      assert SecondFits(b);
      assert k > 2 ==> Continues(character, 2) && Continues(b, 2) && !Continues(b, 3);
    }
    assert DecodeOne(b) == ([REPLACEMENT], k);
  }
}
