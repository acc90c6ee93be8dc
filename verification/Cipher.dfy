/** The `iv:tag:ciphertext` text format shared by the rotation, migration and backfill scripts. */
module Cipher {
  import opened Text
  import opened Utf8

  const COLON: CodeUnit := 58
  const IV_BYTES := 12
  const TAG_BYTES := 16
  const KEY_BYTES := 32

  // ---- Hex ----------------------------------------------------------------------------------

  function HexDigit(n: int): CodeUnit
    requires 0 <= n < 16
  {
    if n < 10 then 48 + n else 97 + (n - 10)
  }

  function HexValue(u: CodeUnit): Option<int> {
    if 48 <= u < 58 then Some(u as int - 48)
    else if 97 <= u < 103 then Some(u as int - 87)
    else if 65 <= u < 71 then Some(u as int - 55)
    else None
  }

  /** `buffer.toString('hex')` */
  function HexEncode(b: seq<Byte>): JsString {
    if b == [] then [] else [HexDigit(b[0] / 16), HexDigit(b[0] % 16)] + HexEncode(b[1..])
  }

  /** `Buffer.from(text, 'hex')`: stops silently at the first pair that is not two hex digits. */
  function HexDecode(s: JsString): seq<Byte> {
    if |s| < 2 || HexValue(s[0]).None? || HexValue(s[1]).None? then []
    else
      var high, low := HexValue(s[0]).value, HexValue(s[1]).value;
      [high * 16 + low] + HexDecode(s[2..])
  }

  lemma {:induction false} HexDecodePair(byte: Byte, s: JsString)
    ensures HexDecode([HexDigit(byte / 16), HexDigit(byte % 16)] + s) == [byte] + HexDecode(s)
  {
    assert ([HexDigit(byte / 16), HexDigit(byte % 16)] + s)[2..] == s;
  }

  lemma {:induction false} HexRoundTrip(b: seq<Byte>)
    ensures HexDecode(HexEncode(b)) == b
    ensures |HexEncode(b)| == 2 * |b|
    ensures SepFree(HexEncode(b), COLON)
  {
    if b != [] {
      hide HexDecode;
      HexRoundTrip(b[1..]);
      HexDecodePair(b[0], HexEncode(b[1..]));
      assert b == [b[0]] + b[1..];
    }
  }

  const HEX_DIGITS := "0123456789abcdef"

  /** Two lower-case digits a byte, the higher half first. */
  lemma {:induction false} HexIsPositional(b: seq<Byte>, i: nat)
    requires i < |b|
    ensures |HexEncode(b)| == 2 * |b|
    ensures HexEncode(b)[2 * i] as int == HEX_DIGITS[b[i] / 16] as int
    ensures HexEncode(b)[2 * i + 1] as int == HEX_DIGITS[b[i] % 16] as int
  {
    HexRoundTrip(b);
    if i > 0 {
      HexIsPositional(b[1..], i - 1);
      assert HexEncode(b)[2..] == HexEncode(b[1..]);
    }
  }

  function UpperCase(s: JsString): JsString {
    if s == [] then [] else [if 97 <= s[0] < 123 then s[0] - 32 else s[0]] + UpperCase(s[1..])
  }

  /** Upper-case hex reads the same. */
  lemma {:induction false} HexIgnoresCase(b: seq<Byte>)
    ensures HexDecode(UpperCase(HexEncode(b))) == b
  {
    if b != [] {
      HexIgnoresCase(b[1..]);
      var s := HexEncode(b);
      assert s[1..][1..] == HexEncode(b[1..]);
      assert UpperCase(s)[2..] == UpperCase(HexEncode(b[1..]));
    }
  }

  predicate IsHexDigit(u: CodeUnit) { 48 <= u <= 57 || 65 <= u <= 70 || 97 <= u <= 102 }

  /** Reading stops without complaint where two hex digits no longer follow. */
  lemma {:induction false} HexStopsAtJunk(b: seq<Byte>, junk: JsString)
    requires |junk| < 2 || !IsHexDigit(junk[0]) || !IsHexDigit(junk[1])
    ensures HexDecode(HexEncode(b) + junk) == b
  {
    if b == [] {
      assert HexEncode(b) + junk == junk;
    } else {
      hide HexDecode, HexDigit, IsHexDigit;
      HexStopsAtJunk(b[1..], junk);
      HexDecodePair(b[0], HexEncode(b[1..]) + junk);
      assert HexEncode(b) + junk == [HexDigit(b[0] / 16), HexDigit(b[0] % 16)] + (HexEncode(b[1..]) + junk);
      assert b == [b[0]] + b[1..];
    }
  }

  // ---- AES-256-GCM --------------------------------------------------------------------------

  type Key = k: seq<Byte> | |k| == KEY_BYTES witness seq(KEY_BYTES, _ => 0)
  type Iv = v: seq<Byte> | |v| == IV_BYTES witness seq(IV_BYTES, _ => 0)

  datatype Sealed = Sealed(tag: seq<Byte>, body: seq<Byte>)

  /** An authenticated cipher: `open` gets whatever iv, tag and body were stored, and may refuse. */
  datatype AeadFunctions = Aead(
    seal: (Key, Iv, seq<Byte>) -> Sealed,
    open: (Key, seq<Byte>, seq<Byte>, seq<Byte>) -> Option<seq<Byte>>)

  /** The laws of section 7 of NIST SP 800-38D that the scripts rely on. */
  ghost predicate Lawful(a: AeadFunctions) {
    forall key: Key, iv: Iv, plain: seq<Byte> ::
      var s := a.seal(key, iv, plain);
      && |s.tag| == TAG_BYTES
      && |s.body| == |plain|
      && a.open(key, iv, s.tag, s.body) == Some(plain)
  }

  type Aead = a: AeadFunctions | Lawful(a)
    ghost witness Aead((_, _, plain) => Sealed(seq(TAG_BYTES, _ => 0), plain), (_, _, _, body) => Some(body))

  // ---- Encrypt and decrypt ------------------------------------------------------------------

  function Encrypt(a: Aead, plaintext: JsString, key: Key, iv: Iv): JsString {
    var s := a.seal(key, iv, Encode(plaintext));
    HexEncode(iv) + [COLON] + HexEncode(s.tag) + [COLON] + HexEncode(s.body)
  }

  /** None stands for a thrown error: a part count other than three, or a refused `open`. */
  function Decrypt(a: Aead, text: JsString, key: Key): Option<JsString> {
    var parts := Split(text, COLON);
    if |parts| != 3 then None
    else
      match a.open(key, HexDecode(parts[0]), HexDecode(parts[1]), HexDecode(parts[2]))
      case None => None
      case Some(plain) => Some(Decode(plain))
  }

  lemma {:induction false} EncryptedParts(a: Aead, plaintext: JsString, key: Key, iv: Iv)
    ensures var s := a.seal(key, iv, Encode(plaintext));
            Split(Encrypt(a, plaintext, key, iv), COLON) == [HexEncode(iv), HexEncode(s.tag), HexEncode(s.body)]
  {
    var s := a.seal(key, iv, Encode(plaintext));
    HexRoundTrip(iv);
    HexRoundTrip(s.tag);
    HexRoundTrip(s.body);
    var tail := HexEncode(s.tag) + [COLON] + HexEncode(s.body);
    assert Encrypt(a, plaintext, key, iv) == HexEncode(iv) + [COLON] + tail;
    SplitAtSep(HexEncode(iv), tail, COLON);
    SplitAtSep(HexEncode(s.tag), HexEncode(s.body), COLON);
    SplitSepFree(HexEncode(s.body), COLON);
  }

  /** Anything but two colons is an error. */
  lemma {:induction false} DecryptNeedsTwoColons(a: Aead, text: JsString, key: Key)
    requires multiset(text)[COLON] != 2
    ensures Decrypt(a, text, key) == None
  {
    SplitLength(text, COLON);
  }

  /** With two colons the cipher decides, given the bytes of the three fields. */
  lemma {:induction false} DecryptOfParts(a: Aead, iv: JsString, tag: JsString, body: JsString, key: Key)
    requires SepFree(iv, COLON) && SepFree(tag, COLON) && SepFree(body, COLON)
    ensures var plain := a.open(key, HexDecode(iv), HexDecode(tag), HexDecode(body));
            Decrypt(a, iv + [COLON] + tag + [COLON] + body, key)
              == if plain.None? then None else Some(Decode(plain.value))
  {
    var tail := tag + [COLON] + body;
    assert iv + [COLON] + tag + [COLON] + body == iv + [COLON] + tail;
    SplitAtSep(iv, tail, COLON);
    SplitAtSep(tag, body, COLON);
    SplitSepFree(body, COLON);
  }

  /** Decryption undoes encryption up to the repair of unpaired surrogates. */
  lemma {:induction false} DecryptOfEncrypt(a: Aead, plaintext: JsString, key: Key, iv: Iv)
    ensures Decrypt(a, Encrypt(a, plaintext, key, iv), key) == Some(Repair(plaintext))
  {
    var s := a.seal(key, iv, Encode(plaintext));
    EncryptedParts(a, plaintext, key, iv);
    HexRoundTrip(iv);
    HexRoundTrip(s.tag);
    HexRoundTrip(s.body);
    DecodeOfEncode(plaintext);
  }

  /** The exact strings that survive a round trip: those without unpaired surrogates. */
  lemma {:induction false} RoundTripIffWellFormed(a: Aead, plaintext: JsString, key: Key, iv: Iv)
    ensures Decrypt(a, Encrypt(a, plaintext, key, iv), key) == Some(plaintext) <==> WellFormed(plaintext)
  {
    DecryptOfEncrypt(a, plaintext, key, iv);
    RepairedIffIllFormed(plaintext);
  }

  /** A string that does not survive: a single unpaired high surrogate comes back as U+FFFD. */
  lemma {:induction false} LoneSurrogateIsLost(a: Aead, key: Key, iv: Iv)
    ensures Decrypt(a, Encrypt(a, [0xD83D], key, iv), key) == Some([REPLACEMENT])
  {
    DecryptOfEncrypt(a, [0xD83D], key, iv);
    assert Repair([0xD83D]) == [REPLACEMENT];
  }

  lemma {:induction false} DecryptedIsWellFormed(a: Aead, text: JsString, key: Key)
    requires Decrypt(a, text, key).Some?
    ensures WellFormed(Decrypt(a, text, key).value)
  {
    var parts := Split(text, COLON);
    DecodedIsWellFormed(a.open(key, HexDecode(parts[0]), HexDecode(parts[1]), HexDecode(parts[2])).value);
  }

  /** Text that was read from a ciphertext can be re-encrypted under any key without loss. */
  lemma {:induction false} ReencryptionIsLossless(a: Aead, text: JsString, oldKey: Key, newKey: Key, iv: Iv)
    requires Decrypt(a, text, oldKey).Some?
    ensures Decrypt(a, Encrypt(a, Decrypt(a, text, oldKey).value, newKey, iv), newKey) == Decrypt(a, text, oldKey)
  {
    DecryptedIsWellFormed(a, text, oldKey);
    RoundTripIffWellFormed(a, Decrypt(a, text, oldKey).value, newKey, iv);
  }

  /** 24 + 1 + 32 + 1 characters of framing, then two per byte of UTF-8: always longer than the input. */
  lemma {:induction false} EncryptedLength(a: Aead, plaintext: JsString, key: Key, iv: Iv)
    ensures |Encrypt(a, plaintext, key, iv)| == 58 + 2 * |Encode(plaintext)|
    ensures |Encrypt(a, plaintext, key, iv)| >= 58 + 2 * |plaintext|
  {
    var s := a.seal(key, iv, Encode(plaintext));
    HexRoundTrip(iv);
    HexRoundTrip(s.tag);
    HexRoundTrip(s.body);
    EncodeIsNoShorter(plaintext);
  }

  /** Under `key` nothing opens that was sealed under `other`. */
  ghost predicate Refuses(a: Aead, key: Key, other: Key) {
    forall iv: Iv, plain: seq<Byte> ::
      a.open(key, iv, a.seal(other, iv, plain).tag, a.seal(other, iv, plain).body) == None
  }

  lemma {:induction false} WrongKeyIsRefused(a: Aead, plaintext: JsString, key: Key, other: Key, iv: Iv)
    requires Refuses(a, key, other)
    ensures Decrypt(a, Encrypt(a, plaintext, other, iv), key) == None
  {
    var s := a.seal(other, iv, Encode(plaintext));
    EncryptedParts(a, plaintext, other, iv);
    HexRoundTrip(iv);
    HexRoundTrip(s.tag);
    HexRoundTrip(s.body);
  }

  // ---- The backfill's own encryptor ---------------------------------------------------------

  datatype ShapeError = StoredAsPlaintext | WrongPartCount

  function AssertEncryptedShape(encrypted: JsString, original: JsString): Option<ShapeError> {
    if encrypted == original then Some(StoredAsPlaintext)
    else if |Split(encrypted, COLON)| != 3 then Some(WrongPartCount)
    else None
  }

  /** The guard never trips on what the encryptor produced. */
  lemma {:induction false} EncryptedShapeHolds(a: Aead, plaintext: JsString, key: Key, iv: Iv)
    ensures AssertEncryptedShape(Encrypt(a, plaintext, key, iv), plaintext) == None
  {
    EncryptedLength(a, plaintext, key, iv);
    EncryptedParts(a, plaintext, key, iv);
  }

  /** What the guard complains about: the plaintext itself, and otherwise anything but two colons. */
  lemma {:induction false} ShapeErrors(encrypted: JsString, original: JsString)
    ensures AssertEncryptedShape(encrypted, original) == Some(StoredAsPlaintext) <==> encrypted == original
    ensures AssertEncryptedShape(encrypted, original) == Some(WrongPartCount)
       <==> encrypted != original && multiset(encrypted)[COLON] != 2
  {
    SplitLength(encrypted, COLON);
  }

  /** The key a hex environment value stands for; None for the thrown length error. */
  function ParseKey(hex: JsString): Option<Key> {
    var bytes := HexDecode(hex);
    if |bytes| == KEY_BYTES then Some(bytes) else None
  }

  /** Every 32-byte key can be configured, as its 64 hex characters. */
  lemma {:induction false} ParseKeyOfHex(key: Key)
    ensures ParseKey(HexEncode(key)) == Some(key) && |HexEncode(key)| == 64
  {
    HexRoundTrip(key);
  }

  /** Bytes are a key iff there are 32 of them, and characters after their hex do not change that. */
  lemma {:induction false} KeysHaveThirtyTwoBytes(b: seq<Byte>, junk: JsString)
    requires |junk| < 2 || !IsHexDigit(junk[0]) || !IsHexDigit(junk[1])
    ensures ParseKey(HexEncode(b) + junk) == if |b| == 32 then Some(b) else None
  {
    HexStopsAtJunk(b, junk);
  }
}
