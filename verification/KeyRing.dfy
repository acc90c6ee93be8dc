/**
 * Key references and key loading: `loadKeys` of the rotation script and `loadEncryptionKey` of the
 * MFA migration read the same environment by different routes and must agree.
 */
module KeyRing {
  import opened Text
  import opened Utf8
  import opened Cipher
  import Decimal

  const MAX_VERSION := 100

  // ---- Key references -----------------------------------------------------------------------

  function KeyRef(version: nat): string { "v" + Decimal.Print(version) }

  /** `v` and digits name that version; anything else, `aws` and `local` included, means version 1. */
  function KeyRefToVersion(keyRef: string): nat {
    if |keyRef| >= 2 && keyRef[0] == 'v' && Decimal.HasOnlyDigits(keyRef[1..])
    then Decimal.Value(keyRef[1..])
    else 1
  }

  lemma {:induction false} KeyRefRoundTrip(version: nat)
    ensures KeyRefToVersion(KeyRef(version)) == version
  {
    Decimal.ValueOfPrint(version);
    assert KeyRef(version)[1..] == Decimal.Print(version);
  }

  /** The older references, and every other text that is not `v` and digits, mean version 1. */
  lemma {:induction false} OtherKeyRefsMeanVersionOne(keyRef: string)
    requires forall digits :: keyRef == "v" + digits ==> digits == "" || !Decimal.AllDigits(digits)
    ensures KeyRefToVersion(keyRef) == 1
    ensures KeyRefToVersion("aws") == KeyRefToVersion("local") == 1
  {
    assert keyRef != [] && keyRef[0] == 'v' ==> keyRef == "v" + keyRef[1..];
  }

  /** `v` and digits mean what the digits denote, leading zeros included. */
  lemma {:induction false} KeyRefOfDigits(digits: string)
    requires digits != "" && Decimal.AllDigits(digits)
    ensures KeyRefToVersion("v" + digits) == Decimal.Value(digits)
  {
    assert ("v" + digits)[1..] == digits;
  }

  // ---- Environment --------------------------------------------------------------------------

  /** An unset variable is absent from the map or None; a variable may also be set to the empty string. */
  datatype Env = Env(
    versioned: map<nat, JsString>,
    legacy: Option<JsString>,
    legacyLocal: Option<JsString>,
    currentVersion: Option<string>)

  datatype KeyError = WrongLength(version: nat) | WrongLegacyLength | NoKeys

  predicate Configured(env: Env, v: nat) { v in env.versioned && env.versioned[v] != [] }

  function LegacyHex(env: Env): Option<JsString> {
    var hex := if env.legacy.Some? then env.legacy else env.legacyLocal;
    if hex == Some([]) then None else hex
  }

  function CurrentVersion(env: Env): Option<int> {
    Decimal.ParseInt(if env.currentVersion.Some? then env.currentVersion.value else "1")
  }

  /** The second legacy variable counts only when the first is not set at all; an empty first one hides it. */
  lemma {:induction false} LegacyKeyIsTheFirstSet(env: Env, hex: JsString)
    ensures LegacyHex(env) == Some(hex)
       <==> hex != [] && (env.legacy == Some(hex) || (env.legacy.None? && env.legacyLocal == Some(hex)))
  {
  }

  /** An unset current version is version 1; a printed one is itself, whatever surrounds the digits. */
  lemma {:induction false} CurrentVersionIs(env: Env, version: nat, junk: string)
    requires junk == [] || !Decimal.IsDigit(junk[0])
    ensures CurrentVersion(env.(currentVersion := None)) == Some(1)
    ensures CurrentVersion(env.(currentVersion := Some(Decimal.Print(version) + junk))) == Some(version)
  {
    Decimal.ParseIntOfOne();
    Decimal.ValueOfPrint(version);
    Decimal.ParseIntOfNumeral("", "", Decimal.Print(version), junk);
    assert "" + "" + Decimal.Print(version) + junk == Decimal.Print(version) + junk;
  }

  ghost predicate GoodUpTo(env: Env, n: nat) {
    forall v :: 1 <= v <= n ==> Configured(env, v) && ParseKey(env.versioned[v]).Some?
  }

  ghost predicate LoadedUpTo(env: Env, n: nat, keys: map<nat, Key>) {
    && (forall v :: v in keys <==> 1 <= v <= n)
    && GoodUpTo(env, n)
    && forall v :: 1 <= v <= n ==> Configured(env, v) && ParseKey(env.versioned[v]) == Some(keys[v])
  }

  ghost predicate Last(env: Env, n: nat) {
    n == MAX_VERSION || (n < MAX_VERSION && !Configured(env, n + 1))
  }

  /** What it means for an environment to hold exactly these keys: a gapless run from 1, or one legacy key. */
  ghost predicate Holds(env: Env, keys: map<nat, Key>) {
    if Configured(env, 1) then exists n: nat :: Last(env, n) && LoadedUpTo(env, n, keys)
    else LegacyHex(env).Some? && ParseKey(LegacyHex(env).value).Some?
         && keys == map[1 := ParseKey(LegacyHex(env).value).value]
  }

  lemma {:induction false} BadKeyBlocksLoading(env: Env, v: nat, keys: map<nat, Key>)
    requires 1 <= v <= MAX_VERSION && GoodUpTo(env, v - 1)
    requires Configured(env, v) && ParseKey(env.versioned[v]).None?
    ensures !Holds(env, keys)
  {
    assert Configured(env, 1);
    forall n: nat | Last(env, n) ensures !LoadedUpTo(env, n, keys) {
    }
  }

  method LoadKeys(env: Env) returns (r: Result<map<nat, Key>, KeyError>)
    ensures r.Ok? ==> Holds(env, r.value)
    ensures r.Err? ==> forall keys :: !Holds(env, keys)
    ensures forall v: nat :: r == Err(WrongLength(v)) ==>
      1 <= v && GoodUpTo(env, v - 1) && Configured(env, v) && ParseKey(env.versioned[v]).None?
    ensures r == Err(WrongLegacyLength) ==>
      !Configured(env, 1) && LegacyHex(env).Some? && ParseKey(LegacyHex(env).value).None?
    ensures r == Err(NoKeys) ==> !Configured(env, 1) && LegacyHex(env).None?
  {
    var keys: map<nat, Key> := map[];
    var v := 1;
    while v <= MAX_VERSION
      invariant 1 <= v <= MAX_VERSION + 1
      invariant LoadedUpTo(env, v - 1, keys)
    {
      if !Configured(env, v) {
        break;
      }
      var key := ParseKey(env.versioned[v]);
      if key.None? {
        forall keys { BadKeyBlocksLoading(env, v, keys); }
        return Err(WrongLength(v));
      }
      keys := keys[v := key.value];
      v := v + 1;
    }
    assert Last(env, v - 1);
    if 1 !in keys {
      assert !Configured(env, 1) && keys == map[];
      var hex := LegacyHex(env);
      if hex.Some? {
        var key := ParseKey(hex.value);
        if key.None? {
          return Err(WrongLegacyLength);
        }
        keys := keys[1 := key.value];
      }
    }
    if |keys| == 0 {
      return Err(NoKeys);
    }
    return Ok(keys);
  }

  /** The environments that the rotation script goes on with, and what it then works with. */
  ghost predicate RotationAccepts(env: Env, keys: map<nat, Key>, current: nat) {
    Holds(env, keys) && CurrentVersion(env) == Some(current) && current in keys
  }

  /** The key found under a version variable, or the legacy key, which both loaders label version 1. */
  ghost predicate Names(env: Env, version: nat, key: Key) {
    || (Configured(env, version) && ParseKey(env.versioned[version]) == Some(key))
    || (version == 1 && LegacyHex(env).Some? && ParseKey(LegacyHex(env).value) == Some(key))
  }

  /** There are versioned keys, and a current version is asked for that is not among them. */
  ghost predicate Missed(env: Env, keys: map<nat, Key>) {
    && Configured(env, 1) && env.currentVersion != Some("")
    && forall v :: v in keys ==> CurrentVersion(env) != Some(v)
  }

  /** The result is a key that rotation loads, under the version that rotation loads it as. */
  ghost predicate Agrees(r: Result<(Key, nat), KeyError>, keys: map<nat, Key>) {
    r.Ok? && r.value.1 in keys && keys[r.value.1] == r.value.0
  }

  /**
   * The migration's loader.  On every environment that rotation accepts it picks rotation's current
   * key and version.  Where the current version is missed it falls back to the legacy key, labelled
   * version 1, and only without one to version 1 itself; so what it returns is a key that rotation
   * knows by that version exactly when no other legacy key is in the way.
   */
  method LoadEncryptionKey(env: Env) returns (r: Result<(Key, nat), KeyError>)
    ensures forall keys, current: nat :: RotationAccepts(env, keys, current) ==> r == Ok((keys[current], current))
    ensures r.Ok? ==> Names(env, r.value.1, r.value.0)
    ensures forall keys :: Holds(env, keys) ==>
      (Agrees(r, keys) <==>
        (Missed(env, keys) && LegacyHex(env).Some? ==> ParseKey(LegacyHex(env).value) == Some(keys[1])))
    ensures forall keys :: Holds(env, keys) && Missed(env, keys) ==>
      r == if LegacyHex(env).None? then Ok((keys[1], 1))
           else if ParseKey(LegacyHex(env).value).None? then Err(WrongLegacyLength)
           else Ok((ParseKey(LegacyHex(env).value).value, 1))
  {
    var v := 1;
    while v <= MAX_VERSION
      invariant 1 <= v <= MAX_VERSION + 1
      invariant GoodUpTo(env, v - 1)
      invariant forall u :: 1 <= u < v ==> CurrentVersion(env) != Some(u)
      invariant v > 1 ==> env.currentVersion != Some("")
    {
      if !Configured(env, v) {
        break;
      }
      var key := ParseKey(env.versioned[v]);
      if key.None? {
        return Err(WrongLength(v));
      }
      var current := if env.currentVersion.Some? && env.currentVersion.value != ""
                     then Decimal.ParseInt(env.currentVersion.value) else Some(1);
      Decimal.ParseIntOfOne();
      if current == Some(v) {
        return Ok((key.value, v));
      }
      v := v + 1;
    }
    var hex := LegacyHex(env);
    if hex.Some? {
      var key := ParseKey(hex.value);
      if key.None? {
        return Err(WrongLegacyLength);
      }
      return Ok((key.value, 1));
    }
    if Configured(env, 1) {
      // The script tests the length of this key once more; the loop has already accepted it.
      return Ok((ParseKey(env.versioned[1]).value, 1));
    }
    return Err(NoKeys);
  }

  /** Two keys under one version: the migration takes the legacy key for the version that rotation loads otherwise. */
  method LoadMislabelledKey(loaded: Key, legacy: Key) returns (env: Env, r: Result<(Key, nat), KeyError>)
    requires loaded != legacy
    ensures env == Env(map[1 := HexEncode(loaded)], Some(HexEncode(legacy)), None, Some("2"))
    ensures Holds(env, map[1 := loaded]) && r == Ok((legacy, 1))
  {
    env := Env(map[1 := HexEncode(loaded)], Some(HexEncode(legacy)), None, Some("2"));
    ParseKeyOfHex(loaded);
    ParseKeyOfHex(legacy);
    Decimal.ParseIntOfDigits("2");
    assert "2"[..0] == [];
    assert LoadedUpTo(env, 1, map[1 := loaded]) && Last(env, 1);
    r := LoadEncryptionKey(env);
  }
}
