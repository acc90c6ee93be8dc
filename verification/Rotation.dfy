/**
 * Key rotation: batched loops that re-encrypt rows while, in live mode, the query they page through
 * shrinks under them.  The three tables are walked by the same loop and differ only in which rows
 * are selected and which fields of a row are processed.
 */
module Rotation {
  import opened Text
  import opened Utf8
  import opened Cipher
  import opened KeyRing
  import Decimal

  const BATCH_SIZE := 50

  datatype Table = StripeConfigs | StaffProfiles | Users

  /** The encrypted columns of one row and the key reference stored beside them. */
  datatype Row = Row(keyRef: Option<string>, fields: seq<Option<JsString>>)

  type Rows = seq<Row>

  datatype Attempt = Rotate | Skip | Fail

  datatype Job = Job(table: Table, aead: Aead, keys: map<nat, Key>, current: nat) {

    predicate Valid() { current in keys }

    function Ref(): string { KeyRef(current) }

    /** The `where` clause of the table's query. */
    predicate Selected(row: Row)
      ensures Selected(row) ==> row.keyRef.Some?
    {
      && row.keyRef.Some?
      && row.keyRef.value != Ref()
      && (table.Users? ==> row.fields != [] && row.fields[0].Some?)
    }

    /** Bank columns are tested for truth, so an empty one counts as absent; the others are always decrypted. */
    predicate Present(field: Option<JsString>) {
      field.Some? && (table.StaffProfiles? ==> field.value != [])
    }

    function Opened(row: Row, field: Option<JsString>): Option<JsString> {
      if Present(field) && row.keyRef.Some? && KeyRefToVersion(row.keyRef.value) in keys
      then Decrypt(aead, field.value, keys[KeyRefToVersion(row.keyRef.value)])
      else None
    }

    /** What one pass of the inner loop does with a selected row. */
    function Try(row: Row): Attempt
      requires row.keyRef.Some?
    {
      if KeyRefToVersion(row.keyRef.value) !in keys then Skip
      else if exists i :: 0 <= i < |row.fields| && Present(row.fields[i]) && Opened(row, row.fields[i]).None? then Fail
      else if table.StaffProfiles? && forall i :: 0 <= i < |row.fields| ==> !Present(row.fields[i]) then Skip
      else Rotate
    }

    predicate Ready(row: Row)
      ensures Ready(row) ==> row.keyRef.Some?
    { Selected(row) && Try(row) == Rotate }

    predicate Stuck(row: Row) { Selected(row) && Try(row) != Rotate }

    ghost predicate Resealed(row: Row, row': Row, i: nat)
      requires Valid() && i < |row.fields| == |row'.fields|
    {
      if Opened(row, row.fields[i]).Some? then
        exists iv :: row'.fields[i] == Some(Encrypt(aead, Opened(row, row.fields[i]).value, keys[current], iv))
      else row'.fields[i] == row.fields[i]
    }

    /** `row'` is what rotation may store in place of `row`: same plaintexts, current key, any iv. */
    ghost predicate Reencrypts(row: Row, row': Row)
      requires Valid()
    {
      && row'.keyRef == Some(Ref())
      && |row'.fields| == |row.fields|
      && forall i :: 0 <= i < |row.fields| ==> Resealed(row, row', i)
    }
  }

  // ---- Which rows are skipped, and which fail -----------------------------------------------

  /** A column that rotation decrypts: of bank details only a non-empty one, elsewhere whatever is stored. */
  ghost predicate InUse(table: Table, field: Option<JsString>) {
    match table
    case StaffProfiles => field != None && field != Some([])
    case _ => field != None
  }

  /** The row was encrypted under a key that is not loaded. */
  ghost predicate LacksKey(job: Job, row: Row) { row.keyRef.Some? && KeyRefToVersion(row.keyRef.value) !in job.keys }

  /** The row's own key is loaded, and some column cannot be decrypted under it. */
  ghost predicate Refused(job: Job, row: Row) {
    && row.keyRef.Some? && KeyRefToVersion(row.keyRef.value) in job.keys
    && exists i :: 0 <= i < |row.fields| && InUse(job.table, row.fields[i])
                   && Decrypt(job.aead, row.fields[i].value, job.keys[KeyRefToVersion(row.keyRef.value)]) == None
  }

  /** The bank details of a staff member whose key is loaded are both absent or empty. */
  ghost predicate HasNothing(job: Job, row: Row) {
    && row.keyRef.Some? && KeyRefToVersion(row.keyRef.value) in job.keys
    && job.table == StaffProfiles
    && forall i :: 0 <= i < |row.fields| ==> row.fields[i] == None || row.fields[i] == Some([])
  }

  /** A selected row is skipped for want of a key or of anything to encrypt, and fails iff a column is refused. */
  lemma {:induction false} AttemptsMean(job: Job, row: Row)
    requires row.keyRef.Some?
    ensures job.Try(row) == Fail <==> Refused(job, row)
    ensures job.Try(row) == Skip <==> LacksKey(job, row) || HasNothing(job, row)
    ensures job.Try(row) == Rotate <==> !Refused(job, row) && !LacksKey(job, row) && !HasNothing(job, row)
  {
    forall i | 0 <= i < |row.fields| ensures job.Present(row.fields[i]) <==> InUse(job.table, row.fields[i]) {
    }
  }

  /** A row that still names another key; of a user, only one with a secret. */
  ghost predicate Outdated(job: Job, row: Row) {
    && row.keyRef != None && row.keyRef != Some("v" + Decimal.Print(job.current))
    && (job.table == Users ==> row.fields != [] && row.fields[0] != None)
  }

  lemma {:induction false} SelectedAreOutdated(job: Job, row: Row)
    ensures job.Selected(row) <==> Outdated(job, row)
  {
  }

  // ---- Plaintexts are never lost ------------------------------------------------------------

  /** Every row was left alone, or was ready and has been re-encrypted. */
  ghost predicate Progress(job: Job, before: Rows, after: Rows)
    requires job.Valid()
  {
    && |after| == |before|
    && forall i :: 0 <= i < |before| ==>
         after[i] == before[i] || (job.Ready(before[i]) && job.Reencrypts(before[i], after[i]))
  }

  /** What the application reads from a row: each field under the key its reference names. */
  function Plaintexts(job: Job, row: Row): seq<Option<JsString>> {
    seq(|row.fields|, i requires 0 <= i < |row.fields| => job.Opened(row, row.fields[i]))
  }

  lemma {:induction false} EncryptedReadsBack(job: Job, row': Row, plain: JsString, sealed: JsString, iv: Iv)
    requires job.Valid() && row'.keyRef == Some(job.Ref())
    requires sealed == Encrypt(job.aead, plain, job.keys[job.current], iv) && WellFormed(plain)
    ensures job.Opened(row', Some(sealed)) == Some(plain)
  {
    KeyRefRoundTrip(job.current);
    EncryptedLength(job.aead, plain, job.keys[job.current], iv);
    RoundTripIffWellFormed(job.aead, plain, job.keys[job.current], iv);
  }

  lemma {:induction false} ResealedReadsSame(job: Job, row: Row, row': Row, i: nat)
    requires job.Valid() && job.Ready(row) && job.Reencrypts(row, row') && i < |row.fields|
    ensures job.Opened(row', row'.fields[i]) == job.Opened(row, row.fields[i])
  {
    assert job.Resealed(row, row', i);
    if job.Opened(row, row.fields[i]).Some? {
      var plain := job.Opened(row, row.fields[i]).value;
      var iv :| row'.fields[i] == Some(Encrypt(job.aead, plain, job.keys[job.current], iv));
      DecryptedIsWellFormed(job.aead, row.fields[i].value, job.keys[KeyRefToVersion(row.keyRef.value)]);
      EncryptedReadsBack(job, row', plain, row'.fields[i].value, iv);
    } else {
      assert !job.Present(row.fields[i]);
    }
  }

  lemma {:induction false} ReencryptionKeepsPlaintexts(job: Job, row: Row, row': Row)
    requires job.Valid() && job.Ready(row) && job.Reencrypts(row, row')
    ensures Plaintexts(job, row') == Plaintexts(job, row)
    ensures !job.Selected(row')
  {
    forall i | 0 <= i < |row.fields|
      ensures job.Opened(row', row'.fields[i]) == job.Opened(row, row.fields[i])
    {
      ResealedReadsSame(job, row, row', i);
    }
  }

  /** Whatever part of a live rotation has been carried out, every row still reads the same. */
  lemma {:induction false} ProgressKeepsPlaintexts(job: Job, before: Rows, after: Rows)
    requires job.Valid() && Progress(job, before, after)
    ensures forall i :: 0 <= i < |before| ==> Plaintexts(job, after[i]) == Plaintexts(job, before[i])
  {
    forall i | 0 <= i < |before| ensures Plaintexts(job, after[i]) == Plaintexts(job, before[i]) {
      if after[i] != before[i] {
        ReencryptionKeepsPlaintexts(job, before[i], after[i]);
      }
    }
  }

  /** Stopping anywhere and starting again composes: two partial rotations are one partial rotation. */
  lemma {:induction false} ProgressComposes(job: Job, first: Rows, second: Rows, third: Rows)
    requires job.Valid() && Progress(job, first, second) && Progress(job, second, third)
    ensures Progress(job, first, third)
  {
    forall i | 0 <= i < |first| && first[i] != second[i]
      ensures third[i] == second[i]
    {
      ReencryptionKeepsPlaintexts(job, first[i], second[i]);
    }
  }

  /** Once nothing is selected, no further run changes anything. */
  lemma {:induction false} CompletedRotationIsStable(job: Job, before: Rows, after: Rows)
    requires job.Valid() && Progress(job, before, after)
    requires SelectedIds(job, before) == []
    ensures after == before
  {
    SelectedIdsAre(job, before);
  }

  // ---- The query ----------------------------------------------------------------------------

  /** Ids of the selected rows, in table order; a row's id is its position. */
  function SelectedIds(job: Job, rows: Rows): (ids: seq<nat>)
    ensures |ids| <= |rows|
  {
    if rows == [] then []
    else
      var n := |rows| - 1;
      SelectedIds(job, rows[..n]) + if job.Selected(rows[n]) then [n] else []
  }

  /** These are the positions of the selected rows, each once, in table order. */
  ghost predicate Lists(job: Job, rows: Rows, ids: seq<nat>) {
    && (forall k :: 0 <= k < |ids| ==> ids[k] < |rows| && job.Selected(rows[ids[k]]))
    && (forall j, k :: 0 <= j < k < |ids| ==> ids[j] < ids[k])
    && (forall i :: 0 <= i < |rows| && job.Selected(rows[i]) ==> i in ids)
  }

  lemma {:induction false} ListsOneMore(job: Job, rows: Rows, ids: seq<nat>)
    requires rows != [] && Lists(job, rows[..|rows| - 1], ids)
    ensures Lists(job, rows, ids + if job.Selected(rows[|rows| - 1]) then [|rows| - 1] else [])
  {
    hide Job.Selected;
    var n := |rows| - 1;
    forall i | 0 <= i < n && job.Selected(rows[i]) ensures i in ids {
      assert rows[..n][i] == rows[i];
    }
  }

  lemma {:induction false} SelectedIdsAre(job: Job, rows: Rows)
    ensures Lists(job, rows, SelectedIds(job, rows))
  {
    if rows != [] {
      SelectedIdsAre(job, rows[..|rows| - 1]);
      ListsOneMore(job, rows, SelectedIds(job, rows[..|rows| - 1]));
    }
  }

  /** The selected rows before position `i` come first, and `i` itself right after them. */
  lemma {:induction false} RankOf(job: Job, rows: Rows, i: nat)
    requires i < |rows| && job.Selected(rows[i])
    ensures var rank := |SelectedIds(job, rows[..i])|;
            rank < |SelectedIds(job, rows)| && SelectedIds(job, rows)[rank] == i
  {
    var n := |rows| - 1;
    if i < n {
      RankOf(job, rows[..n], i);
      assert rows[..n][..i] == rows[..i];
    }
  }

  /** Overwriting a selected row with one that is not takes exactly that row out of the query. */
  lemma {:induction false} DeselectOne(job: Job, rows: Rows, i: nat, row': Row)
    requires i < |rows| && job.Selected(rows[i]) && !job.Selected(row')
    ensures |SelectedIds(job, rows[i := row'])| == |SelectedIds(job, rows)| - 1
  {
    var n := |rows| - 1;
    var rows' := rows[i := row'];
    if i < n {
      DeselectOne(job, rows[..n], i, row');
      assert rows'[..n] == rows[..n][i := row'];
    } else {
      assert rows'[..n] == rows[..n];
    }
  }

  // ---- Statistics ---------------------------------------------------------------------------

  datatype Stats = Stats(total: nat, rotated: nat, skipped: nat, failed: nat) {
    function Add(attempt: Attempt): Stats {
      match attempt
      case Rotate => Stats(total + 1, rotated + 1, skipped, failed)
      case Skip => Stats(total + 1, rotated, skipped + 1, failed)
      case Fail => Stats(total + 1, rotated, skipped, failed + 1)
    }
  }

  const ZERO := Stats(0, 0, 0, 0)

  ghost predicate Balanced(s: Stats) { s.total == s.rotated + s.skipped + s.failed }

  /** How often each outcome occurs. */
  function Tally(attempts: seq<Attempt>): Stats {
    var m := multiset(attempts);
    Stats(|attempts|, m[Rotate], m[Skip], m[Fail])
  }

  lemma {:induction false} TallyAppends(a: seq<Attempt>, b: seq<Attempt>)
    ensures Tally(a + b) == Plus(Tally(a), Tally(b))
  {
    assert multiset(a + b) == multiset(a) + multiset(b);
  }

  function Plus(a: Stats, b: Stats): Stats {
    Stats(a.total + b.total, a.rotated + b.rotated, a.skipped + b.skipped, a.failed + b.failed)
  }

  lemma {:induction false} TallyOfNone()
    ensures Tally([]) == ZERO
  {
  }

  lemma {:induction false} TallySnoc(attempts: seq<Attempt>, attempt: Attempt)
    ensures Tally(attempts + [attempt]) == Tally(attempts).Add(attempt)
  {
    assert multiset(attempts + [attempt]) == multiset(attempts) + multiset{attempt};
  }

  lemma {:induction false} TallyIsBalanced(attempts: seq<Attempt>)
    ensures Balanced(Tally(attempts))
  {
    if attempts != [] {
      var n := |attempts| - 1;
      TallyIsBalanced(attempts[..n]);
      TallySnoc(attempts[..n], attempts[n]);
      assert attempts == attempts[..n] + [attempts[n]];
    }
  }

  lemma {:induction false} TallyOfRotations(attempts: seq<Attempt>)
    requires forall k :: 0 <= k < |attempts| ==> attempts[k] == Rotate
    ensures Tally(attempts) == Stats(|attempts|, |attempts|, 0, 0)
  {
    if attempts != [] {
      var n := |attempts| - 1;
      TallyOfRotations(attempts[..n]);
      TallySnoc(attempts[..n], attempts[n]);
      assert attempts == attempts[..n] + [attempts[n]];
    }
  }

  /** What trying each of these rows once would come to. */
  ghost function Attempts(job: Job, rows: Rows, ids: seq<nat>): seq<Attempt>
    requires Eligible(job, rows, ids)
  {
    seq(|ids|, k requires 0 <= k < |ids| => job.Try(rows[ids[k]]))
  }

  ghost predicate Eligible(job: Job, rows: Rows, ids: seq<nat>) {
    forall k :: 0 <= k < |ids| ==> ids[k] < |rows| && job.Selected(rows[ids[k]])
  }
}
