/** The one-time migration that encrypts plaintext MFA secrets, and its place before later rotations. */
module MfaMigration {
  import opened Text
  import opened Utf8
  import opened Cipher
  import opened KeyRing
  import opened Rotation
  import RotationRun
  import Decimal

  /** The query: a secret without a key reference is still plaintext. */
  predicate Found(user: Row) {
    user.fields != [] && user.fields[0].Some? && user.keyRef.None?
  }

  /** Found users whose secret is empty are passed over. */
  predicate Pending(user: Row) { Found(user) && user.fields[0].value != [] }

  ghost predicate Migrates(a: Aead, key: Key, version: nat, user: Row, user': Row) {
    if Pending(user) then
      exists iv ::
        user' == Row(Some(KeyRef(version)), user.fields[0 := Some(Encrypt(a, user.fields[0].value, key, iv))])
    else user' == user
  }

  ghost predicate Migration(a: Aead, key: Key, version: nat, before: Rows, after: Rows) {
    |after| == |before| && forall i :: 0 <= i < |before| ==> Migrates(a, key, version, before[i], after[i])
  }

  /** Part of a migration: some rows are still as they were. */
  ghost predicate Partial(a: Aead, key: Key, version: nat, before: Rows, after: Rows) {
    && |after| == |before|
    && forall i :: 0 <= i < |before| ==> after[i] == before[i] || Migrates(a, key, version, before[i], after[i])
  }

  ghost predicate OnlyPartial(a: Aead, key: Key, version: nat, before: Rows, past: seq<Rows>, history: seq<Rows>) {
    past <= history && forall h :: |past| <= h < |history| ==> Partial(a, key, version, before, history[h])
  }

  function PendingCount(rows: Rows): nat {
    if rows == [] then 0 else PendingCount(rows[..|rows| - 1]) + if Pending(rows[|rows| - 1]) then 1 else 0
  }

  method MigrateSecrets(db: RotationRun.Database, a: Aead, env: Env) returns (migrated: Result<nat, KeyError>)
    modifies db
    ensures migrated.Err? ==> db.rows == old(db.rows) && db.history == old(db.history)
    ensures migrated.Ok? ==>
      && migrated.value == PendingCount(old(db.rows))
      && exists key, version ::
           && Names(env, version, key) && Migration(a, key, version, old(db.rows), db.rows)
           && OnlyPartial(a, key, version, old(db.rows), old(db.history), db.history)
    ensures forall keys, current: nat :: RotationAccepts(env, keys, current) ==>
      migrated.Ok? && Migration(a, keys[current], current, old(db.rows), db.rows)
    ensures forall keys :: Holds(env, keys) && !(Missed(env, keys) && LegacyHex(env).Some?) ==>
      migrated.Ok? && exists version: nat ::
        version in keys && Migration(a, keys[version], version, old(db.rows), db.rows)
    ensures forall keys :: Holds(env, keys) && Missed(env, keys) && LegacyHex(env).Some? ==>
      match ParseKey(LegacyHex(env).value)
      case Some(legacy) => migrated.Ok? && Migration(a, legacy, 1, old(db.rows), db.rows)
      case None => migrated == Err(WrongLegacyLength)
  {
    hide Encrypt, RotationAccepts, Names, KeyRef;
    var loaded := LoadEncryptionKey(env);
    if loaded.Err? {
      return Err(loaded.error);
    }
    var (key, version) := loaded.value;
    var before := db.rows;  // the rows as fetched; each is updated at most once below
    var count: nat := 0;
    for i := 0 to |before|
      invariant |db.rows| == |before|
      invariant forall j :: 0 <= j < i ==> Migrates(a, key, version, before[j], db.rows[j])
      invariant forall j :: i <= j < |before| ==> db.rows[j] == before[j]
      invariant count == PendingCount(before[..i])
      invariant OnlyPartial(a, key, version, before, old(db.history), db.history)
    {
      var user := before[i];
      assert before[..i + 1][..i] == before[..i];
      if Found(user) && user.fields[0].value != [] {
        var iv: Iv :| true;
        db.Update(i, Row(Some(KeyRef(version)), user.fields[0 := Some(Encrypt(a, user.fields[0].value, key, iv))]));
        count := count + 1;
      }
    }
    assert before[..|before|] == before;
    assert Migration(a, key, version, before, db.rows);
    return Ok(count);
  }

  /**
   * A migration leaves no secret in plain text; it touches no row that has a key reference already, or no
   * secret, or an empty one.
   */
  lemma {:induction false} MigrationLeavesNoPlaintext(
    a: Aead, key: Key, version: nat, before: Rows, after: Rows, i: nat)
    requires Migration(a, key, version, before, after) && i < |before| && before[i].fields != []
    ensures after[i].fields != [] && (after[i].keyRef == None ==> after[i].fields[0] in {None, Some([])})
    ensures before[i].keyRef != None || before[i].fields[0] in {None, Some([])} ==> after[i] == before[i]
    ensures after[i] != before[i] ==> after[i].keyRef == Some("v" + Decimal.Print(version))
  {
    assert Migrates(a, key, version, before[i], after[i]);
  }

  ghost function PendingIds(rows: Rows): set<nat> { set i: nat | i < |rows| && Pending(rows[i]) }

  lemma {:induction false} PendingAreCounted(rows: Rows)
    ensures PendingCount(rows) == |PendingIds(rows)|
  {
    hide Pending;
    if rows == [] {
      assert PendingIds(rows) == {};
    } else {
      var n := |rows| - 1;
      PendingAreCounted(rows[..n]);
      assert PendingIds(rows) == PendingIds(rows[..n]) + if Pending(rows[n]) then {n} else {};
    }
  }

  /**
   * Stopping anywhere and migrating again, with whatever key, encrypts each pending secret exactly once:
   * what the first run has encrypted stays, and the second run encrypts the rest.
   */
  lemma {:induction false} InterruptedMigrationIsResumed(
    a: Aead, key: Key, version: nat, key': Key, version': nat, before: Rows, partial: Rows, after: Rows)
    requires Partial(a, key, version, before, partial) && Migration(a, key', version', partial, after)
    ensures |after| == |before|
    ensures forall i :: 0 <= i < |before| ==>
      if partial[i] != before[i] then after[i] == partial[i] && Migrates(a, key, version, before[i], after[i])
      else Migrates(a, key', version', before[i], after[i])
    ensures forall i :: 0 <= i < |before| && Pending(before[i]) ==> after[i] != before[i] && !Pending(after[i])
    ensures key == key' && version == version' ==> Migration(a, key, version, before, after)
  {
    forall i | 0 <= i < |before|
      ensures if partial[i] != before[i] then after[i] == partial[i] && Migrates(a, key, version, before[i], after[i])
              else Migrates(a, key', version', before[i], after[i])
      ensures Pending(before[i]) ==> after[i] != before[i] && !Pending(after[i])
    {
      assert Migrates(a, key', version', partial[i], after[i]);
    }
  }

  /** Running the migration again, with whatever key, changes nothing. */
  lemma {:induction false} SecondMigrationIsNoop(
    a: Aead, key: Key, version: nat, key': Key, version': nat, before: Rows, after: Rows, again: Rows)
    requires Migration(a, key, version, before, after) && Migration(a, key', version', after, again)
    ensures again == after
  {
    forall i | 0 <= i < |after| ensures again[i] == after[i] {
      assert Migrates(a, key, version, before[i], after[i]) && Migrates(a, key', version', after[i], again[i]);
    }
  }

  lemma {:induction false} MigratedSecretReads(job: Job, version: nat, user: Row, user': Row)
    requires job.Valid() && job.table == Users && version in job.keys
    requires Pending(user) && Migrates(job.aead, job.keys[version], version, user, user')
    ensures |user'.fields| == |user.fields|
    ensures job.Opened(user', user'.fields[0]) == Some(Repair(user.fields[0].value))
  {
    var secret, key := user.fields[0].value, job.keys[version];
    var iv: Iv :| user' == Row(Some(KeyRef(version)), user.fields[0 := Some(Encrypt(job.aead, secret, key, iv))]);
    KeyRefRoundTrip(version);
    DecryptOfEncrypt(job.aead, secret, job.keys[version], iv);
  }

  /**
   * A secret encrypted by the migration and then carried through any part of any rotation still reads
   * as the original, provided the original has no unpaired surrogate; otherwise it never does.
   */
  lemma {:induction false} MigratedSecretSurvivesRotation(
    job: Job, version: nat, before: Rows, migrated: Rows, rotated: Rows, i: nat)
    requires job.Valid() && job.table == Users && version in job.keys
    requires Migration(job.aead, job.keys[version], version, before, migrated) && Progress(job, migrated, rotated)
    requires i < |before| && Pending(before[i])
    ensures |rotated[i].fields| == |before[i].fields|
    ensures job.Opened(rotated[i], rotated[i].fields[0]) == before[i].fields[0]
       <==> WellFormed(before[i].fields[0].value)
  {
    assert Migrates(job.aead, job.keys[version], version, before[i], migrated[i]);
    MigratedSecretReads(job, version, before[i], migrated[i]);
    RepairedIffIllFormed(before[i].fields[0].value);
    if rotated[i] != migrated[i] {
      ResealedReadsSame(job, migrated[i], rotated[i], 0);
    }
  }

  lemma {:induction false} UnreadableSecretIsStuck(job: Job, user: Row)
    requires job.table == Users && job.Selected(user) && job.Opened(user, user.fields[0]) == None
    ensures job.Stuck(user)
  {
    assert job.Present(user.fields[0]);
  }

  /**
   * A secret sealed under a legacy key and labelled version 1, where rotation knows version 1 by another
   * key, can no longer be read; and it is a row on which every live rotation to another version is stuck.
   */
  lemma {:induction false} MislabelledSecretIsStuck(job: Job, legacy: Key, user: Row, user': Row)
    requires job.Valid() && job.table == Users && 1 in job.keys
    requires Refuses(job.aead, job.keys[1], legacy)
    requires Pending(user) && Migrates(job.aead, legacy, 1, user, user')
    ensures |user'.fields| == |user.fields| && job.Opened(user', user'.fields[0]) == None
    ensures job.current != 1 ==> job.Stuck(user')
  {
    var secret := user.fields[0].value;
    var iv: Iv :| user' == Row(Some(KeyRef(1)), user.fields[0 := Some(Encrypt(job.aead, secret, legacy, iv))]);
    hide Encrypt, Decrypt, Refuses, KeyRef, KeyRefToVersion, Job.Try, Job.Stuck;
    KeyRefRoundTrip(1);
    KeyRefRoundTrip(job.current);
    WrongKeyIsRefused(job.aead, secret, job.keys[1], legacy, iv);
    assert user'.fields[0] == Some(Encrypt(job.aead, secret, legacy, iv));
    if job.current != 1 {
      UnreadableSecretIsStuck(job, user');
    }
  }
}
