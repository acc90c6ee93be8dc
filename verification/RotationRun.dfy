/** The rotation loops themselves, over a table that they update row by row. */
module RotationRun {
  import opened Text
  import opened Cipher
  import opened KeyRing
  import opened Rotation

  function Min(a: nat, b: nat): nat { if a < b then a else b }

  // ---- Stuck rows ---------------------------------------------------------------------------

  ghost predicate AllReady(job: Job, rows: Rows) {
    forall i :: 0 <= i < |rows| && job.Selected(rows[i]) ==> job.Ready(rows[i])
  }

  /** How many selected rows live rotation cannot re-encrypt. */
  function StuckCount(job: Job, rows: Rows): nat {
    if rows == [] then 0
    else StuckCount(job, rows[..|rows| - 1]) + if job.Stuck(rows[|rows| - 1]) then 1 else 0
  }

  /** A full batch of stuck rows comes before position `i`. */
  predicate Starved(job: Job, rows: Rows, i: nat)
    requires i < |rows|
  {
    StuckCount(job, rows[..i]) >= BATCH_SIZE
  }

  lemma {:induction false} StuckAmongSelected(job: Job, rows: Rows)
    ensures StuckCount(job, rows) <= |SelectedIds(job, rows)|
    ensures StuckCount(job, rows) == 0 <==> AllReady(job, rows)
    ensures (forall i :: 0 <= i < |rows| ==> !job.Ready(rows[i])) ==> StuckCount(job, rows) == |SelectedIds(job, rows)|
  {
    if rows != [] {
      var n := |rows| - 1;
      StuckAmongSelected(job, rows[..n]);
      assert forall i :: 0 <= i < n ==> rows[..n][i] == rows[i];
    }
  }

  lemma {:induction false} StuckCountGrows(job: Job, rows: Rows, i: nat, j: nat)
    requires i <= j <= |rows|
    ensures StuckCount(job, rows[..i]) <= StuckCount(job, rows[..j])
    decreases j
  {
    if i < j {
      StuckCountGrows(job, rows, i, j - 1);
      assert rows[..j][..j - 1] == rows[..j - 1];
    }
  }

  lemma {:induction false} ProgressKeepsStuck(job: Job, before: Rows, after: Rows)
    requires job.Valid() && Progress(job, before, after)
    ensures StuckCount(job, after) == StuckCount(job, before)
  {
    if before != [] {
      var n := |before| - 1;
      ProgressKeepsStuck(job, before[..n], after[..n]);
      if after[n] != before[n] {
        ReencryptionKeepsPlaintexts(job, before[n], after[n]);
      }
    }
  }

  lemma {:induction false} ProgressKeepsStarved(job: Job, before: Rows, after: Rows, i: nat)
    requires job.Valid() && Progress(job, before, after) && i < |before|
    ensures Starved(job, after, i) == Starved(job, before, i)
  {
    ProgressKeepsStuck(job, before[..i], after[..i]);
  }

  /** The first batch of the query never reaches a starved row. */
  lemma {:induction false} FirstBatchSparesStarved(job: Job, rows: Rows, k: nat)
    requires k < Min(BATCH_SIZE, |SelectedIds(job, rows)|)
    ensures var ids := SelectedIds(job, rows); ids[k] < |rows| && !Starved(job, rows, ids[k])
  {
    var ids := SelectedIds(job, rows);
    SelectedIdsAre(job, rows);
    RankOf(job, rows, ids[k]);
    StuckAmongSelected(job, rows[..ids[k]]);
  }

  /** As long as some ready row is not starved, the first batch holds a ready row. */
  lemma {:induction false} FirstBatchReaches(job: Job, rows: Rows, i: nat) returns (k: nat)
    requires i < |rows| && job.Ready(rows[i]) && !Starved(job, rows, i)
    ensures k < Min(BATCH_SIZE, |SelectedIds(job, rows)|)
    ensures SelectedIds(job, rows)[k] < |rows| && job.Ready(rows[SelectedIds(job, rows)[k]])
    decreases i
  {
    if j :| 0 <= j < i && job.Ready(rows[j]) {
      StuckCountGrows(job, rows, j, i);
      k := FirstBatchReaches(job, rows, j);
    } else {
      assert forall j :: 0 <= j < i ==> !job.Ready(rows[..i][j]);
      StuckAmongSelected(job, rows[..i]);
      RankOf(job, rows, i);
      k := |SelectedIds(job, rows[..i])|;
    }
  }

  // ---- The table ----------------------------------------------------------------------------

  class Database {
    var rows: Rows
    ghost var history: seq<Rows>  // the contents after each update so far

    constructor (rows: Rows)
      ensures this.rows == rows && history == []
    {
      this.rows := rows;
      history := [];
    }

    /** Selected rows in table order, from the `skip`-th on and `take` of them unless the table ends before. */
    method FindMany(job: Job, take: nat, skip: nat) returns (ids: seq<nat>)
      ensures ids == Page(SelectedIds(job, rows), take, skip)
      ensures Eligible(job, rows, ids)
      ensures forall j, k :: 0 <= j < k < |ids| ==> ids[j] < ids[k]
      ensures forall k :: 0 <= k < |ids| ==> |SelectedIds(job, rows[..ids[k]])| == skip + k
      ensures |ids| == Min(take, |SelectedIds(job, rows)| - Min(skip, |SelectedIds(job, rows)|))
    {
      ids := Page(SelectedIds(job, rows), take, skip);
      PageOf(job, rows, take, skip);
      PageRanks(job, rows, take, skip);
    }

    method Update(id: nat, row: Row)
      requires id < |rows|
      modifies this
      ensures rows == old(rows)[id := row]
      ensures history == old(history) + [rows]
    {
      rows := rows[id := row];
      history := history + [rows];
    }
  }

  function Page(ids: seq<nat>, take: nat, skip: nat): seq<nat> {
    ids[Min(skip, |ids|)..Min(skip + take, |ids|)]
  }

  /** Every state stored since `past` is a partial rotation of `before`. */
  ghost predicate OnlyProgress(job: Job, before: Rows, past: seq<Rows>, history: seq<Rows>)
    requires job.Valid()
  {
    past <= history && forall h :: |past| <= h < |history| ==> Progress(job, before, history[h])
  }

  ghost predicate Batch(job: Job, before: Rows, ids: seq<nat>, after: Rows)
    requires job.Valid()
  {
    && |after| == |before|
    && forall i :: 0 <= i < |before| ==>
         if i in ids && job.Ready(before[i]) then job.Reencrypts(before[i], after[i]) else after[i] == before[i]
  }

  method ReencryptRow(job: Job, row: Row) returns (row': Row)
    requires job.Valid() && job.Ready(row)
    ensures job.Reencrypts(row, row')
  {
    var fields := [];
    for i := 0 to |row.fields|
      invariant |fields| == i
      invariant forall j :: 0 <= j < i ==> job.Resealed(row, Row(Some(job.Ref()), fields + row.fields[i..]), j)
    {
      var field := row.fields[i];
      ghost var row0 := Row(Some(job.Ref()), fields + row.fields[i..]);
      if job.Present(field) {
        var plain := Decrypt(job.aead, field.value, job.keys[KeyRefToVersion(row.keyRef.value)]).value;
        var iv: Iv :| true;
        field := Some(Encrypt(job.aead, plain, job.keys[job.current], iv));
      }
      fields := fields + [field];
      ghost var row1 := Row(Some(job.Ref()), fields + row.fields[i + 1..]);
      assert forall j :: 0 <= j < i ==> row1.fields[j] == row0.fields[j];
      assert job.Resealed(row, row1, i);
      assert forall j :: 0 <= j < i && job.Resealed(row, row0, j) ==> job.Resealed(row, row1, j);
    }
    row' := Row(Some(job.Ref()), fields);
    assert fields + row.fields[|row.fields|..] == fields;
  }

  method ProcessRow(db: Database, job: Job, dryRun: bool, id: nat) returns (attempt: Attempt)
    requires job.Valid() && id < |db.rows| && job.Selected(db.rows[id])
    modifies db
    ensures attempt == job.Try(old(db.rows[id]))
    ensures attempt == Fail <==> Refused(job, old(db.rows[id]))
    ensures attempt == Skip <==> LacksKey(job, old(db.rows[id])) || HasNothing(job, old(db.rows[id]))
    ensures dryRun || attempt != Rotate ==> db.rows == old(db.rows) && db.history == old(db.history)
    ensures !dryRun && attempt == Rotate ==>
      && db.history == old(db.history) + [db.rows]
      && |db.rows| == |old(db.rows)| && db.rows == old(db.rows)[id := db.rows[id]]
      && job.Reencrypts(old(db.rows[id]), db.rows[id])
    ensures |SelectedIds(job, db.rows)|
         == |SelectedIds(job, old(db.rows))| - if !dryRun && attempt == Rotate then 1 else 0
  {
    var row := db.rows[id];
    attempt := job.Try(row);
    AttemptsMean(job, row);
    hide Refused, LacksKey, HasNothing;
    if attempt == Rotate {
      var row' := ReencryptRow(job, row);
      if !dryRun {
        ReencryptionKeepsPlaintexts(job, row, row');
        DeselectOne(job, db.rows, id, row');
        db.Update(id, row');
      }
    }
  }

  lemma {:induction false} BatchGrows(job: Job, before: Rows, ids: seq<nat>, id: nat, rows: Rows, row': Row)
    requires job.Valid() && Batch(job, before, ids, rows) && id < |before| && id !in ids
    requires job.Ready(before[id]) ==> job.Reencrypts(before[id], row')
    requires !job.Ready(before[id]) ==> row' == before[id]
    ensures Batch(job, before, ids + [id], rows[id := row'])
  {
  }

  lemma {:induction false} BatchIsProgress(job: Job, before: Rows, ids: seq<nat>, after: Rows)
    requires job.Valid() && Batch(job, before, ids, after)
    ensures Progress(job, before, after)
  {
  }

  method ProcessBatch(db: Database, job: Job, dryRun: bool, ids: seq<nat>) returns (stats: Stats)
    requires job.Valid() && Eligible(job, db.rows, ids)
    requires forall j, k :: 0 <= j < k < |ids| ==> ids[j] < ids[k]
    modifies db
    ensures stats == Tally(Attempts(job, old(db.rows), ids))
    ensures dryRun ==> db.rows == old(db.rows) && db.history == old(db.history)
    ensures !dryRun ==> Batch(job, old(db.rows), ids, db.rows)
    ensures !dryRun ==> |SelectedIds(job, db.rows)| == |SelectedIds(job, old(db.rows))| - stats.rotated
    ensures OnlyProgress(job, old(db.rows), old(db.history), db.history)
  {
    hide Job.Reencrypts, Job.Selected, Job.Try, SelectedIds, Tally, Progress;
    ghost var before := db.rows;
    ghost var attempts := [];
    TallyOfNone();
    stats := ZERO;
    for k := 0 to |ids|
      invariant attempts == Attempts(job, before, ids)[..k]
      invariant stats == Tally(attempts)
      invariant dryRun ==> db.rows == before && db.history == old(db.history)
      invariant !dryRun ==> Batch(job, before, ids[..k], db.rows)
      invariant !dryRun ==> |SelectedIds(job, db.rows)| == |SelectedIds(job, before)| - stats.rotated
      invariant OnlyProgress(job, before, old(db.history), db.history)
    {
      ghost var rows := db.rows;
      assert rows[ids[k]] == before[ids[k]];
      var attempt := ProcessRow(db, job, dryRun, ids[k]);
      if !dryRun {
        assert ids[..k + 1] == ids[..k] + [ids[k]];
        BatchGrows(job, before, ids[..k], ids[k], rows, db.rows[ids[k]]);
        BatchIsProgress(job, before, ids[..k + 1], db.rows);
      }
      TallySnoc(attempts, attempt);
      attempts := attempts + [attempt];
      stats := stats.Add(attempt);
    }
    assert ids[..|ids|] == ids;
    assert attempts == Attempts(job, before, ids);
  }

  // ---- The outer loop -----------------------------------------------------------------------

  /** Batches with at least one row among `n` selected rows. */
  function Batches(n: nat): nat { (n + BATCH_SIZE - 1) / BATCH_SIZE }

  /** Every row that live rotation can reach has been re-encrypted. */
  ghost predicate Exhausted(job: Job, before: Rows, after: Rows)
    requires job.Valid() && |after| == |before|
  {
    forall i :: 0 <= i < |before| && job.Ready(before[i]) && !Starved(job, before, i) ==>
      job.Reencrypts(before[i], after[i])
  }

  ghost predicate StarvedUntouched(job: Job, before: Rows, after: Rows)
    requires |after| == |before|
  {
    forall i :: 0 <= i < |before| && Starved(job, before, i) ==> after[i] == before[i]
  }

  ghost predicate LiveRows(job: Job, before: Rows, rows: Rows)
    requires job.Valid()
  {
    |rows| == |before| && Progress(job, before, rows) && StarvedUntouched(job, before, rows)
  }

  /** The counters after `batches` turns, with `n` rows selected at first. */
  ghost predicate LiveStats(stats: Stats, batches: nat, n: nat, allReady: bool) {
    && Balanced(stats)
    && (allReady ==>
          && stats == Stats(stats.total, stats.total, 0, 0)
          && stats.total == Min(BATCH_SIZE * batches, n)
          && batches <= Batches(n))
  }

  lemma {:induction false} PageOf(job: Job, rows: Rows, take: nat, skip: nat)
    ensures var ids := Page(SelectedIds(job, rows), take, skip);
            && Eligible(job, rows, ids)
            && (forall j, k :: 0 <= j < k < |ids| ==> ids[j] < ids[k])
            && |ids| == Min(take, |SelectedIds(job, rows)| - Min(skip, |SelectedIds(job, rows)|))
  {
    SelectedIdsAre(job, rows);
    hide SelectedIds, Job.Selected;
  }

  lemma {:induction false} ReadyAfterProgress(job: Job, before: Rows, rows: Rows)
    requires job.Valid() && Progress(job, before, rows)
    ensures forall i :: 0 <= i < |rows| && job.Selected(rows[i]) ==> rows[i] == before[i]
    ensures AllReady(job, before) ==> AllReady(job, rows)
  {
    forall i | 0 <= i < |rows| && rows[i] != before[i] ensures !job.Selected(rows[i]) {
      ReencryptionKeepsPlaintexts(job, before[i], rows[i]);
    }
  }

  lemma {:induction false} RankOfId(job: Job, rows: Rows, k: nat)
    requires k < |SelectedIds(job, rows)|
    ensures SelectedIds(job, rows)[k] < |rows| && |SelectedIds(job, rows[..SelectedIds(job, rows)[k]])| == k
  {
    SelectedIdsAre(job, rows);
    hide SelectedIds;
    var id := SelectedIds(job, rows)[k];
    RankOf(job, rows, id);
  }

  /** The rows of a page are those with `skip`, `skip + 1`, … selected rows before them. */
  lemma {:induction false} PageRanks(job: Job, rows: Rows, take: nat, skip: nat)
    ensures var ids := Page(SelectedIds(job, rows), take, skip);
            forall k :: 0 <= k < |ids| ==> ids[k] < |rows| && |SelectedIds(job, rows[..ids[k]])| == skip + k
  {
    hide SelectedIds;
    var ids := Page(SelectedIds(job, rows), take, skip);
    forall k | 0 <= k < |ids| ensures ids[k] < |rows| && |SelectedIds(job, rows[..ids[k]])| == skip + k {
      RankOfId(job, rows, skip + k);
    }
  }

  lemma {:induction false} BatchSparesStarved(job: Job, before: Rows, rows: Rows, ids: seq<nat>, after: Rows)
    requires job.Valid() && Progress(job, before, rows) && StarvedUntouched(job, before, rows)
    requires ids == Page(SelectedIds(job, rows), BATCH_SIZE, 0) && Batch(job, rows, ids, after)
    ensures StarvedUntouched(job, before, after)
  {
    forall i | 0 <= i < |before| && Starved(job, before, i) ensures after[i] == before[i] {
      ProgressKeepsStarved(job, before, rows, i);
      if i in ids {
        var k :| 0 <= k < |ids| && ids[k] == i;
        FirstBatchSparesStarved(job, rows, k);
      }
    }
  }

  lemma {:induction false} BatchMovesOn(job: Job, before: Rows, rows: Rows, ids: seq<nat>)
    requires job.Valid() && Progress(job, before, rows) && !Exhausted(job, before, rows)
    requires ids == Page(SelectedIds(job, rows), BATCH_SIZE, 0) && Eligible(job, rows, ids)
    ensures Tally(Attempts(job, rows, ids)).rotated > 0
  {
    var i :| 0 <= i < |before| && job.Ready(before[i]) && !Starved(job, before, i)
          && !job.Reencrypts(before[i], rows[i]);
    ProgressKeepsStarved(job, before, rows, i);
    var k := FirstBatchReaches(job, rows, i);
    assert Attempts(job, rows, ids)[k] == Rotate;
  }

  lemma {:induction false} ExhaustedStays(job: Job, before: Rows, rows: Rows, after: Rows)
    requires job.Valid() && Progress(job, before, rows) && Progress(job, rows, after)
    requires Exhausted(job, before, rows)
    ensures Exhausted(job, before, after)
  {
    forall i | 0 <= i < |before| && job.Ready(before[i]) && !Starved(job, before, i)
      ensures after[i] == rows[i]
    {
      ReencryptionKeepsPlaintexts(job, before[i], rows[i]);
    }
  }

  lemma {:induction false} LiveRowsStep(job: Job, before: Rows, rows: Rows, ids: seq<nat>, after: Rows)
    requires job.Valid() && LiveRows(job, before, rows)
    requires ids == Page(SelectedIds(job, rows), BATCH_SIZE, 0) && Batch(job, rows, ids, after)
    ensures LiveRows(job, before, after) && Progress(job, rows, after)
  {
    hide Job.Reencrypts, Job.Try;
    BatchIsProgress(job, rows, ids, after);
    ProgressComposes(job, before, rows, after);
    BatchSparesStarved(job, before, rows, ids, after);
  }

  lemma {:induction false} LiveStatsStep(stats: Stats, batches: nat, n: nat, allReady: bool, batch: Stats)
    requires LiveStats(stats, batches, n, allReady) && Balanced(batch)
    requires stats.rotated <= n
    requires allReady ==>
      batch == Stats(batch.total, batch.total, 0, 0) && 0 < batch.total == Min(BATCH_SIZE, n - stats.rotated)
    ensures LiveStats(Plus(stats, batch), batches + 1, n, allReady)
  {
  }

  lemma {:induction false} BatchTally(job: Job, before: Rows, rows: Rows, ids: seq<nat>)
    requires job.Valid() && Progress(job, before, rows) && Eligible(job, rows, ids)
    ensures var batch := Tally(Attempts(job, rows, ids));
            && Balanced(batch) && batch.total == |ids|
            && (AllReady(job, before) ==> batch == Stats(|ids|, |ids|, 0, 0))
  {
    TallyIsBalanced(Attempts(job, rows, ids));
    ReadyAfterProgress(job, before, rows);
    if AllReady(job, before) {
      TallyOfRotations(Attempts(job, rows, ids));
    }
  }

  /** A stuck row is selected before the run and in every state that the run can reach. */
  lemma {:induction false} StuckStaysSelected(job: Job, before: Rows, rows: Rows)
    requires job.Valid() && Progress(job, before, rows) && !AllReady(job, before)
    ensures SelectedIds(job, rows) != []
  {
    StuckAmongSelected(job, before);
    ProgressKeepsStuck(job, before, rows);
    StuckAmongSelected(job, rows);
  }

  lemma {:induction false} NothingSelectedMeansExhausted(job: Job, before: Rows, rows: Rows)
    requires job.Valid() && Progress(job, before, rows) && SelectedIds(job, rows) == []
    ensures Exhausted(job, before, rows)
  {
    SelectedIdsAre(job, rows);
  }

  lemma {:induction false} OnlyProgressExtends(
    job: Job, before: Rows, rows: Rows, first: seq<Rows>, past: seq<Rows>, history: seq<Rows>)
    requires job.Valid() && Progress(job, before, rows)
    requires OnlyProgress(job, before, first, past) && OnlyProgress(job, rows, past, history)
    ensures OnlyProgress(job, before, first, history)
  {
    forall h | |past| <= h < |history| ensures Progress(job, before, history[h]) {
      ProgressComposes(job, before, rows, history[h]);
    }
  }

  /** The tally of trying the first `k` selected rows once each, storing nothing. */
  ghost function Foreseen(job: Job, rows: Rows, k: nat): Stats {
    PageOf(job, rows, k, 0);
    Tally(Attempts(job, rows, Page(SelectedIds(job, rows), k, 0)))
  }

  lemma {:induction false} AttemptsAppend(job: Job, rows: Rows, a: seq<nat>, b: seq<nat>)
    requires Eligible(job, rows, a) && Eligible(job, rows, b)
    ensures Eligible(job, rows, a + b)
    ensures Attempts(job, rows, a + b) == Attempts(job, rows, a) + Attempts(job, rows, b)
  {
    hide Job.Try;
  }

  lemma {:induction false} DryStep(job: Job, rows: Rows, offset: nat)
    ensures var ids := Page(SelectedIds(job, rows), BATCH_SIZE, offset);
            && Eligible(job, rows, ids)
            && Foreseen(job, rows, offset + BATCH_SIZE)
               == Plus(Foreseen(job, rows, offset), Tally(Attempts(job, rows, ids)))
  {
    hide Job.Try, Attempts, Tally, SelectedIds, Eligible;
    PageOf(job, rows, offset, 0);
    PageOf(job, rows, BATCH_SIZE, offset);
    var seen := Page(SelectedIds(job, rows), offset, 0);
    var ids := Page(SelectedIds(job, rows), BATCH_SIZE, offset);
    AttemptsAppend(job, rows, seen, ids);
    TallyAppends(Attempts(job, rows, seen), Attempts(job, rows, ids));
    assert Page(SelectedIds(job, rows), offset + BATCH_SIZE, 0) == seen + ids;
  }

  lemma {:induction false} ForeseenWhole(job: Job, rows: Rows, k: nat)
    requires k >= |SelectedIds(job, rows)|
    ensures Foreseen(job, rows, k) == Foreseen(job, rows, |SelectedIds(job, rows)|)
  {
  }

  lemma {:induction false} ForeseenIsAll(job: Job, rows: Rows)
    ensures var ids := SelectedIds(job, rows);
            && Eligible(job, rows, ids)
            && Foreseen(job, rows, |ids|) == Tally(Attempts(job, rows, ids))
  {
    hide SelectedIds, Attempts, Tally;
    var ids := SelectedIds(job, rows);
    PageOf(job, rows, |ids|, 0);
    assert Page(ids, |ids|, 0) == ids;
  }

  lemma {:induction false} ReadyIffAllRotate(job: Job, rows: Rows)
    requires Eligible(job, rows, SelectedIds(job, rows))
    ensures AllReady(job, rows) <==>
      forall k :: 0 <= k < |SelectedIds(job, rows)| ==> Attempts(job, rows, SelectedIds(job, rows))[k] == Rotate
  {
    SelectedIdsAre(job, rows);
    hide SelectedIds, Job.Try, Job.Selected;
    var ids := SelectedIds(job, rows);
    if !AllReady(job, rows) {
      var i :| 0 <= i < |rows| && job.Selected(rows[i]) && !job.Ready(rows[i]);
      var k :| 0 <= k < |ids| && ids[k] == i;
      assert Attempts(job, rows, ids)[k] != Rotate;
    }
  }

  lemma {:induction false} TallyShowsAllRotate(attempts: seq<Attempt>)
    ensures Tally(attempts).skipped == 0 && Tally(attempts).failed == 0 <==>
      forall k :: 0 <= k < |attempts| ==> attempts[k] == Rotate
  {
    if k :| 0 <= k < |attempts| && attempts[k] != Rotate {
      assert attempts[k] in multiset(attempts);
    } else {
      TallyOfRotations(attempts);
    }
  }

  /** A dry run announces no skip and no failure exactly when every selected row is ready. */
  lemma {:induction false} ForeseenIfAllReady(job: Job, rows: Rows)
    ensures var n := |SelectedIds(job, rows)|;
            AllReady(job, rows) <==> Foreseen(job, rows, n).skipped == 0 && Foreseen(job, rows, n).failed == 0
    ensures var n := |SelectedIds(job, rows)|; AllReady(job, rows) ==> Foreseen(job, rows, n) == Stats(n, n, 0, 0)
  {
    hide SelectedIds, Tally, Foreseen, AllReady, Job.Try;
    ForeseenIsAll(job, rows);
    ReadyIffAllRotate(job, rows);
    TallyShowsAllRotate(Attempts(job, rows, SelectedIds(job, rows)));
    if AllReady(job, rows) {
      TallyOfRotations(Attempts(job, rows, SelectedIds(job, rows)));
    }
  }

  // ---- What a run comes to ------------------------------------------------------------------

  /**
   * A live run, watched for `budget` turns of the outer loop, comes to an end exactly when every
   * selected row is ready; otherwise it selects the rows it cannot re-encrypt for ever.  Even then it
   * re-encrypts every ready row except those behind a full batch of stuck ones, and those it never
   * touches.  What it counts as rotated is what has left the query.
   */
  ghost predicate LiveOutcome(job: Job, before: Rows, rows: Rows, stats: Stats, budget: nat, finished: bool)
    requires job.Valid()
  {
    var n := |SelectedIds(job, before)|;
    && LiveRows(job, before, rows)
    && (finished <==> AllReady(job, before) && budget > Batches(n))
    && (finished ==> SelectedIds(job, rows) == [] && stats == Stats(n, n, 0, 0))
    && (budget > n ==> Exhausted(job, before, rows))
    && Balanced(stats) && stats.rotated == n - |SelectedIds(job, rows)|
  }

  /** A dry run always ends, having tried each selected row exactly once. */
  ghost predicate DryOutcome(job: Job, before: Rows, stats: Stats, budget: nat, finished: bool) {
    var n := |SelectedIds(job, before)|;
    && (finished <==> budget > Batches(n))
    && (finished ==> stats == Foreseen(job, before, n))
    && Balanced(stats)
  }

  /**
   * A finished dry run foretells the live run on the same rows: the live run, watched for long enough,
   * comes to an end exactly when the dry run has announced no skip and no failure, and then both report
   * the same totals.
   */
  lemma {:induction false} DryRunForetellsLiveRun(
    job: Job, rows: Rows, dry: Stats, dryBudget: nat, after: Rows, live: Stats, liveBudget: nat, finished: bool)
    requires job.Valid()
    requires DryOutcome(job, rows, dry, dryBudget, true)
    requires LiveOutcome(job, rows, after, live, liveBudget, finished)
    requires liveBudget > Batches(|SelectedIds(job, rows)|)
    ensures finished <==> dry.skipped == 0 && dry.failed == 0
    ensures finished ==> live == dry
  {
    hide Foreseen, AllReady, LiveRows, SelectedIds;
    ForeseenIfAllReady(job, rows);
  }

  /** The outer loop's invariant in live mode. */
  ghost predicate LiveState(job: Job, before: Rows, rows: Rows, stats: Stats, batches: nat)
    requires job.Valid()
  {
    var n := |SelectedIds(job, before)|;
    && LiveRows(job, before, rows)
    && LiveStats(stats, batches, n, AllReady(job, before))
    && |SelectedIds(job, rows)| == n - stats.rotated
    && (Exhausted(job, before, rows) || stats.rotated >= batches)
  }

  lemma {:induction false} NothingForeseen(job: Job, rows: Rows)
    ensures Foreseen(job, rows, 0) == ZERO
  {
    hide SelectedIds, Tally;
    PageOf(job, rows, 0, 0);
    TallyOfNone();
    assert Attempts(job, rows, Page(SelectedIds(job, rows), 0, 0)) == [];
  }

  lemma {:induction false} LiveRowsStart(job: Job, rows: Rows, history: seq<Rows>)
    requires job.Valid()
    ensures LiveRows(job, rows, rows) && OnlyProgress(job, rows, history, history)
  {
    hide StuckCount, SelectedIds, Job.Reencrypts, Job.Ready;
  }

  lemma {:induction false} LiveStatsStart(n: nat, allReady: bool)
    ensures LiveStats(ZERO, 0, n, allReady)
  {
  }

  lemma {:induction false} LiveStart(job: Job, rows: Rows)
    requires job.Valid()
    ensures LiveState(job, rows, rows, ZERO, 0)
  {
    hide SelectedIds, Exhausted, AllReady, LiveRows, LiveStats;
    LiveRowsStart(job, rows, []);
    LiveStatsStart(|SelectedIds(job, rows)|, AllReady(job, rows));
  }

  lemma {:induction false} ProgressSoFar(job: Job, before: Rows, rows: Rows, dryRun: bool, stats: Stats, batches: nat)
    requires job.Valid() && if dryRun then rows == before else LiveState(job, before, rows, stats, batches)
    ensures Progress(job, before, rows)
  {
  }

  lemma {:induction false} LiveStep(
    job: Job, before: Rows, rows: Rows, stats: Stats, batches: nat, ids: seq<nat>, after: Rows)
    requires job.Valid() && LiveState(job, before, rows, stats, batches)
    requires ids == Page(SelectedIds(job, rows), BATCH_SIZE, 0) && ids != [] && Eligible(job, rows, ids)
    requires Batch(job, rows, ids, after)
    requires |SelectedIds(job, after)| == |SelectedIds(job, rows)| - Tally(Attempts(job, rows, ids)).rotated
    ensures LiveState(job, before, after, Plus(stats, Tally(Attempts(job, rows, ids))), batches + 1)
  {
    hide Job.Reencrypts, Job.Selected, Job.Try, Job.Ready, Tally, SelectedIds, Exhausted, Starved, AllReady, Batch,
      Page, LiveStats, StarvedUntouched, Progress, Eligible, Attempts, Balanced;
    PageOf(job, rows, BATCH_SIZE, 0);
    BatchTally(job, before, rows, ids);
    LiveRowsStep(job, before, rows, ids, after);
    LiveStatsStep(stats, batches, |SelectedIds(job, before)|, AllReady(job, before), Tally(Attempts(job, rows, ids)));
    if Exhausted(job, before, rows) {
      ExhaustedStays(job, before, rows, after);
    } else {
      BatchMovesOn(job, before, rows, ids);
    }
  }

  lemma {:induction false} LiveEnd(job: Job, before: Rows, rows: Rows, stats: Stats, batches: nat, budget: nat)
    requires job.Valid() && LiveState(job, before, rows, stats, batches) && batches < budget
    requires SelectedIds(job, rows) == []
    ensures LiveOutcome(job, before, rows, stats, budget, true)
  {
    if !AllReady(job, before) {
      StuckStaysSelected(job, before, rows);
    }
    NothingSelectedMeansExhausted(job, before, rows);
  }

  lemma {:induction false} LiveCutOff(job: Job, before: Rows, rows: Rows, stats: Stats, budget: nat)
    requires job.Valid() && LiveState(job, before, rows, stats, budget)
    ensures LiveOutcome(job, before, rows, stats, budget, false)
  {
    hide Exhausted, AllReady, LiveRows, SelectedIds;
  }

  ghost predicate DryState(job: Job, before: Rows, stats: Stats, batches: nat, offset: nat) {
    && offset == BATCH_SIZE * batches && batches <= Batches(|SelectedIds(job, before)|)
    && stats == Foreseen(job, before, offset)
  }

  lemma {:induction false} DryEnd(
    job: Job, before: Rows, stats: Stats, batches: nat, offset: nat, budget: nat, finished: bool)
    requires DryState(job, before, stats, batches, offset)
    requires finished ==> batches < budget && Page(SelectedIds(job, before), BATCH_SIZE, offset) == []
    requires !finished ==> batches == budget
    ensures DryOutcome(job, before, stats, budget, finished)
  {
    hide SelectedIds, Job.Try, Tally;
    PageOf(job, before, BATCH_SIZE, offset);
    PageOf(job, before, offset, 0);
    TallyIsBalanced(Attempts(job, before, Page(SelectedIds(job, before), offset, 0)));
    if finished {
      ForeseenWhole(job, before, offset);
    }
  }

  method RotateTable(db: Database, job: Job, dryRun: bool, budget: nat) returns (stats: Stats, finished: bool)
    requires job.Valid()
    modifies db
    ensures dryRun ==> db.rows == old(db.rows) && DryOutcome(job, old(db.rows), stats, budget, finished)
    ensures !dryRun ==> LiveOutcome(job, old(db.rows), db.rows, stats, budget, finished)
    ensures OnlyProgress(job, old(db.rows), old(db.history), db.history)
  {
    hide Job.Reencrypts, Job.Selected, Job.Try, Tally, Progress, SelectedIds, Batch, OnlyProgress, Eligible, Attempts,
      Foreseen, LiveOutcome, DryOutcome, LiveRows, LiveStats, Exhausted;
    ghost var before := db.rows;
    LiveStart(job, before);
    LiveRowsStart(job, before, db.history);
    NothingForeseen(job, before);
    stats := ZERO;
    var offset: nat := 0;
    var batches: nat := 0;
    while batches < budget
      invariant batches <= budget
      invariant dryRun ==> db.rows == before && DryState(job, before, stats, batches, offset)
      invariant !dryRun ==> offset == 0 && LiveState(job, before, db.rows, stats, batches)
      invariant OnlyProgress(job, before, old(db.history), db.history)
    {
      ghost var rows, past := db.rows, db.history;
      var ids := db.FindMany(job, BATCH_SIZE, offset);
      PageOf(job, rows, BATCH_SIZE, offset);
      if |ids| == 0 {
        if dryRun {
          DryEnd(job, before, stats, batches, offset, budget, true);
        } else {
          LiveEnd(job, before, rows, stats, batches, budget);
        }
        return stats, true;
      }
      var batch := ProcessBatch(db, job, dryRun, ids);
      ProgressSoFar(job, before, rows, dryRun, stats, batches);
      OnlyProgressExtends(job, before, rows, old(db.history), past, db.history);
      if dryRun {
        DryStep(job, before, offset);
        offset := offset + BATCH_SIZE;
      } else {
        LiveStep(job, before, rows, stats, batches, ids, db.rows);
      }
      stats := Plus(stats, batch);
      batches := batches + 1;
    }
    if dryRun {
      DryEnd(job, before, stats, batches, offset, budget, false);
    } else {
      LiveCutOff(job, before, db.rows, stats, budget);
    }
    return stats, false;
  }

  // ---- What the numbers and an end of the run mean ------------------------------------------

  ghost function SelectedSet(job: Job, rows: Rows): set<nat> { set i: nat | i < |rows| && job.Selected(rows[i]) }

  lemma {:induction false} SelectedIsASet(job: Job, rows: Rows)
    ensures |SelectedIds(job, rows)| == |SelectedSet(job, rows)|
  {
    hide Job.Selected;
    if rows == [] {
      assert SelectedSet(job, rows) == {};
    } else {
      var n := |rows| - 1;
      SelectedIsASet(job, rows[..n]);
      assert SelectedSet(job, rows) == SelectedSet(job, rows[..n]) + if job.Selected(rows[n]) then {n} else {};
    }
  }

  lemma {:induction false} SelectedAreEligible(job: Job, rows: Rows)
    ensures Eligible(job, rows, SelectedIds(job, rows))
  {
    SelectedIdsAre(job, rows);
  }

  lemma {:induction false} SelectedPrefix(job: Job, rows: Rows, n: nat)
    requires n + 1 == |rows|
    ensures SelectedIds(job, rows) == SelectedIds(job, rows[..n]) + if job.Selected(rows[n]) then [n] else []
  {
  }

  lemma {:induction false} AttemptsOfPrefix(job: Job, rows: Rows, n: nat)
    requires n + 1 == |rows|
    ensures Eligible(job, rows, SelectedIds(job, rows)) && Eligible(job, rows[..n], SelectedIds(job, rows[..n]))
    ensures Attempts(job, rows, SelectedIds(job, rows))
         == Attempts(job, rows[..n], SelectedIds(job, rows[..n]))
            + if job.Selected(rows[n]) then [job.Try(rows[n])] else []
  {
    SelectedAreEligible(job, rows);
    SelectedAreEligible(job, rows[..n]);
    SelectedPrefix(job, rows, n);
    hide Job.Try, Job.Selected, SelectedIds;
    var ids := SelectedIds(job, rows[..n]);
    assert forall k :: 0 <= k < |ids| ==> rows[..n][ids[k]] == rows[ids[k]];
  }

  /** A selected row that one attempt turns out this way for. */
  ghost predicate ComesTo(job: Job, row: Row, attempt: Attempt) { job.Selected(row) && job.Try(row) == attempt }

  /** The positions of these rows. */
  ghost function IdsWith(job: Job, rows: Rows, attempt: Attempt): set<nat> {
    set i: nat | i < |rows| && ComesTo(job, rows[i], attempt)
  }

  lemma {:induction false} IdsWithPrefix(job: Job, rows: Rows, attempt: Attempt)
    requires rows != []
    ensures var n := |rows| - 1;
            |IdsWith(job, rows, attempt)|
              == |IdsWith(job, rows[..n], attempt)| + if ComesTo(job, rows[n], attempt) then 1 else 0
  {
    hide ComesTo;
    var n := |rows| - 1;
    var last := if ComesTo(job, rows[n], attempt) then {n} else {};
    forall i: nat ensures i in IdsWith(job, rows, attempt) <==> i in IdsWith(job, rows[..n], attempt) + last {
      assert i < n ==> rows[..n][i] == rows[i];
    }
    assert IdsWith(job, rows, attempt) == IdsWith(job, rows[..n], attempt) + last;
  }

  lemma {:induction false} AttemptsAreCounted(job: Job, rows: Rows, attempt: Attempt)
    requires Eligible(job, rows, SelectedIds(job, rows))
    ensures multiset(Attempts(job, rows, SelectedIds(job, rows)))[attempt] == |IdsWith(job, rows, attempt)|
  {
    hide Job.Try, Job.Selected;
    if rows == [] {
      assert IdsWith(job, rows, attempt) == {};
    } else {
      hide SelectedIds, Attempts, IdsWith;
      var n := |rows| - 1;
      AttemptsOfPrefix(job, rows, n);
      AttemptsAreCounted(job, rows[..n], attempt);
      IdsWithPrefix(job, rows, attempt);
    }
  }

  /**
   * A finished dry run reports as skipped the outdated rows without a loaded key or without anything to
   * encrypt, as failed those with a column that their key refuses, and as rotated all the others.
   */
  lemma {:induction false} DryRunCounts(job: Job, rows: Rows, stats: Stats, budget: nat)
    requires job.Valid() && DryOutcome(job, rows, stats, budget, true)
    ensures stats.total == |set i: nat | i < |rows| && Outdated(job, rows[i])|
    ensures stats.skipped
         == |set i: nat | i < |rows| && Outdated(job, rows[i]) && (LacksKey(job, rows[i]) || HasNothing(job, rows[i]))|
    ensures stats.failed == |set i: nat | i < |rows| && Outdated(job, rows[i]) && Refused(job, rows[i])|
    ensures stats.total == stats.rotated + stats.skipped + stats.failed
  {
    hide SelectedIds, Job.Try, Job.Selected, Outdated, LacksKey, HasNothing, Refused;
    ForeseenIsAll(job, rows);
    AttemptsAreCounted(job, rows, Skip);
    AttemptsAreCounted(job, rows, Fail);
    forall i: nat | i < |rows|
      ensures job.Selected(rows[i]) <==> Outdated(job, rows[i])
      ensures job.Selected(rows[i]) ==>
        && (job.Try(rows[i]) == Fail <==> Refused(job, rows[i]))
        && (job.Try(rows[i]) == Skip <==> LacksKey(job, rows[i]) || HasNothing(job, rows[i]))
    {
      SelectedAreOutdated(job, rows[i]);
      if job.Selected(rows[i]) { AttemptsMean(job, rows[i]); }
    }
    SelectedIsASet(job, rows);
    assert (set i: nat | i < |rows| && Outdated(job, rows[i])) == SelectedSet(job, rows);
    assert IdsWith(job, rows, Fail) == set i: nat | i < |rows| && Outdated(job, rows[i]) && Refused(job, rows[i]);
    assert IdsWith(job, rows, Skip)
        == set i: nat | i < |rows| && Outdated(job, rows[i]) && (LacksKey(job, rows[i]) || HasNothing(job, rows[i]));
  }

  /**
   * After a live run that has ended no row is outdated; each that was has been re-encrypted, and every
   * other is what it was.  Whether ended or not, no other row is ever touched.
   */
  lemma {:induction false} EndedRunIsComplete(
    job: Job, before: Rows, rows: Rows, stats: Stats, budget: nat, finished: bool, i: nat)
    requires job.Valid() && LiveOutcome(job, before, rows, stats, budget, finished) && i < |before|
    ensures !Outdated(job, before[i]) ==> rows[i] == before[i]
    ensures finished ==> !Outdated(job, rows[i])
    ensures finished && Outdated(job, before[i]) ==> job.Reencrypts(before[i], rows[i])
  {
    hide Job.Reencrypts, Outdated, LiveStats, Exhausted;
    SelectedAreOutdated(job, before[i]);
    SelectedAreOutdated(job, rows[i]);
    if finished {
      SelectedIdsAre(job, rows);
    }
  }

  // ---- The three tables ---------------------------------------------------------------------

  /** What a run on one table comes to, dry or live. */
  ghost predicate Outcome(
    job: Job, dryRun: bool, before: Rows, rows: Rows, stats: Stats, budget: nat, finished: bool)
    requires job.Valid()
  {
    if dryRun then rows == before && DryOutcome(job, before, stats, budget, finished)
    else LiveOutcome(job, before, rows, stats, budget, finished)
  }

  /** A run on one table ends iff it is a dry run or every selected row is ready, given the time. */
  lemma {:induction false} EndsIff(
    job: Job, dryRun: bool, before: Rows, rows: Rows, stats: Stats, budget: nat, finished: bool)
    requires job.Valid() && Outcome(job, dryRun, before, rows, stats, budget, finished)
    ensures finished <==> (dryRun || AllReady(job, before)) && budget > Batches(|SelectedIds(job, before)|)
  {
    hide SelectedIds, AllReady, LiveRows, Foreseen;
  }

  /**
   * The whole script: one table after the other, each watched for `budget` turns.  A live run with a
   * row in one table that cannot be rotated never touches the tables after it.
   */
  method RotateAll(
    stripe: Database, staff: Database, users: Database, aead: Aead, keys: map<nat, Key>, current: nat,
    dryRun: bool, budget: nat)
    returns (stats: seq<Stats>, finished: bool)
    requires current in keys && stripe != staff && stripe != users && staff != users
    modifies stripe, staff, users
    ensures var a, b, c := Job(StripeConfigs, aead, keys, current), Job(StaffProfiles, aead, keys, current),
                           Job(Users, aead, keys, current);
            && 1 <= |stats| <= 3
            && Outcome(a, dryRun, old(stripe.rows), stripe.rows, stats[0], budget, |stats| > 1)
            && (|stats| > 1 ==> Outcome(b, dryRun, old(staff.rows), staff.rows, stats[1], budget, |stats| > 2))
            && (|stats| > 2 ==> Outcome(c, dryRun, old(users.rows), users.rows, stats[2], budget, finished))
            && (finished ==> |stats| == 3)
            && OnlyProgress(a, old(stripe.rows), old(stripe.history), stripe.history)
            && OnlyProgress(b, old(staff.rows), old(staff.history), staff.history)
            && OnlyProgress(c, old(users.rows), old(users.history), users.history)
            && (!dryRun && !AllReady(a, old(stripe.rows)) ==>
                  staff.rows == old(staff.rows) && staff.history == old(staff.history))
            && (!dryRun && (!AllReady(a, old(stripe.rows)) || !AllReady(b, old(staff.rows))) ==>
                  users.rows == old(users.rows) && users.history == old(users.history))
            && (!dryRun ==> (finished <==>
                  && AllReady(a, old(stripe.rows)) && budget > Batches(|SelectedIds(a, old(stripe.rows))|)
                  && AllReady(b, old(staff.rows)) && budget > Batches(|SelectedIds(b, old(staff.rows))|)
                  && AllReady(c, old(users.rows)) && budget > Batches(|SelectedIds(c, old(users.rows))|)))
  {
    hide LiveOutcome, DryOutcome, AllReady, SelectedIds, Progress, Batches;
    var stripeJob := Job(StripeConfigs, aead, keys, current);
    var staffJob := Job(StaffProfiles, aead, keys, current);
    var usersJob := Job(Users, aead, keys, current);
    var stripeStats, stripeDone := RotateTable(stripe, stripeJob, dryRun, budget);
    EndsIff(stripeJob, dryRun, old(stripe.rows), stripe.rows, stripeStats, budget, stripeDone);
    if !stripeDone {
      return [stripeStats], false;
    }
    var staffStats, staffDone := RotateTable(staff, staffJob, dryRun, budget);
    EndsIff(staffJob, dryRun, old(staff.rows), staff.rows, staffStats, budget, staffDone);
    if !staffDone {
      return [stripeStats, staffStats], false;
    }
    var usersStats, usersDone := RotateTable(users, usersJob, dryRun, budget);
    EndsIff(usersJob, dryRun, old(users.rows), users.rows, usersStats, budget, usersDone);
    return [stripeStats, staffStats, usersStats], usersDone;
  }
}
