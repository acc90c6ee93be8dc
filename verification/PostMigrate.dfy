/**
 * The post-migrate runner: executing a script and recording it are two separate writes, so a run may
 * stop between them.
 */
module PostMigrate {
  type Path = string
  type Checksum = string

  datatype Script = Script(path: Path, checksum: Checksum)

  /** What the database remembers: every execution so far, in order, and the state table. */
  datatype State = State(executed: seq<Path>, recorded: map<Path, Checksum>)

  datatype Outcome =
    | Completed(executedCount: nat, skippedCount: nat)
    | Drift(path: Path)
    | StoppedBefore(path: Path)   // the script was not executed
    | StoppedBetween(path: Path)  // the script was executed but not recorded

  ghost predicate Distinct(scripts: seq<Script>) {
    forall i, j :: 0 <= i < j < |scripts| ==> scripts[i].path != scripts[j].path
  }

  /**
   * A run from script `i` on, given the table contents `loaded` at its start.  It is cut off when it
   * attempts a write after `writes` of them have succeeded, be it for a crash or for failing SQL.
   */
  function RunFrom(
    loaded: map<Path, Checksum>, scripts: seq<Script>, i: nat, s: State, writes: nat, done: nat, skipped: nat)
    : (State, Outcome)
    requires i <= |scripts|
    decreases |scripts| - i
  {
    if i == |scripts| then (s, Completed(done, skipped))
    else
      var script := scripts[i];
      if script.path in loaded then
        if loaded[script.path] != script.checksum then (s, Drift(script.path))
        else RunFrom(loaded, scripts, i + 1, s, writes, done, skipped + 1)
      else
        var ran := s.(executed := s.executed + [script.path]);
        if writes == 0 then (s, StoppedBefore(script.path))
        else if writes == 1 then (ran, StoppedBetween(script.path))
        else
          var next := ran.(recorded := s.recorded[script.path := script.checksum]);
          RunFrom(loaded, scripts, i + 1, next, writes - 2, done + 1, skipped)
  }

  function Run(scripts: seq<Script>, s: State, writes: nat): (State, Outcome) {
    RunFrom(s.recorded, scripts, 0, s, writes, 0, 0)
  }

  // ---- The script itself --------------------------------------------------------------------

  class Database {
    var executed: seq<Path>
    var recorded: map<Path, Checksum>

    function Contents(): State
      reads this
    {
      State(executed, recorded)
    }

    constructor ()
      ensures Contents() == State([], map[])
    {
      executed, recorded := [], map[];
    }

    method RunScripts(scripts: seq<Script>, writes: nat) returns (outcome: Outcome)
      modifies this
      ensures (Contents(), outcome) == Run(scripts, old(Contents()), writes)
    {
      var appliedScripts := recorded;
      var executedCount, skippedCount := 0, 0;
      var left := writes;
      for i := 0 to |scripts|
        invariant RunFrom(appliedScripts, scripts, i, Contents(), left, executedCount, skippedCount)
               == Run(scripts, old(Contents()), writes)
      {
        var script := scripts[i];
        if script.path in appliedScripts {
          if appliedScripts[script.path] != script.checksum {
            return Drift(script.path);
          }
          skippedCount := skippedCount + 1;
          continue;
        }
        if left == 0 {
          return StoppedBefore(script.path);
        }
        executed := executed + [script.path];
        if left == 1 {
          return StoppedBetween(script.path);
        }
        recorded := recorded[script.path := script.checksum];
        left := left - 2;
        executedCount := executedCount + 1;
      }
      return Completed(executedCount, skippedCount);
    }
  }

  // ---- One run of any list ------------------------------------------------------------------

  function One(b: bool): nat { if b then 1 else 0 }

  /**
   * What a run adds to the log: each script it newly records, once, and the one it was stopped right
   * after executing.  Checksums already recorded stay.
   */
  lemma {:induction false} RunAccounts(
    loaded: map<Path, Checksum>, scripts: seq<Script>, i: nat, s: State, writes: nat, done: nat, skipped: nat,
    p: Path)
    requires i <= |scripts| && Distinct(scripts)
    requires forall q :: q in loaded ==> q in s.recorded
    requires forall j :: i <= j < |scripts| && scripts[j].path !in loaded ==> scripts[j].path !in s.recorded
    ensures var (s', outcome) := RunFrom(loaded, scripts, i, s, writes, done, skipped);
            && (p in s.recorded ==> p in s'.recorded && s'.recorded[p] == s.recorded[p])
            && multiset(s'.executed)[p]
               == multiset(s.executed)[p]
                  + One(p in s'.recorded && p !in s.recorded) + One(outcome == StoppedBetween(p))
    decreases |scripts| - i
  {
    if i < |scripts| {
      var script := scripts[i];
      if script.path in loaded {
        if loaded[script.path] == script.checksum {
          RunAccounts(loaded, scripts, i + 1, s, writes, done, skipped + 1, p);
        }
      } else if writes >= 2 {
        var next := State(s.executed + [script.path], s.recorded[script.path := script.checksum]);
        RunAccounts(loaded, scripts, i + 1, next, writes - 2, done + 1, skipped, p);
      }
    }
  }

  /** A script whose recorded checksum no longer matches stops the run before any later script. */
  lemma {:induction false} DriftStopsRun(
    loaded: map<Path, Checksum>, scripts: seq<Script>, i: nat, s: State, writes: nat, done: nat, skipped: nat,
    d: nat)
    requires i <= d < |scripts|
    requires scripts[d].path in loaded && loaded[scripts[d].path] != scripts[d].checksum
    ensures var (s', outcome) := RunFrom(loaded, scripts, i, s, writes, done, skipped);
            && !outcome.Completed?
            && s.executed <= s'.executed
            && forall k :: |s.executed| <= k < |s'.executed| ==>
                 exists j :: i <= j < d && s'.executed[k] == scripts[j].path
    decreases |scripts| - i
  {
    var script := scripts[i];
    if script.path in loaded {
      if loaded[script.path] == script.checksum {
        DriftStopsRun(loaded, scripts, i + 1, s, writes, done, skipped + 1, d);
      }
    } else if writes >= 2 {
      var next := State(s.executed + [script.path], s.recorded[script.path := script.checksum]);
      DriftStopsRun(loaded, scripts, i + 1, next, writes - 2, done + 1, skipped, d);
    } else {
      assert i < d;
    }
  }

  // ---- Exactly what one run does ------------------------------------------------------------

  /** Where the first recorded script with another checksum is, or the end of the list. */
  ghost predicate FirstDrift(recorded: map<Path, Checksum>, scripts: seq<Script>, limit: nat) {
    && limit <= |scripts|
    && (forall i :: 0 <= i < limit && scripts[i].path in recorded ==>
          recorded[scripts[i].path] == scripts[i].checksum)
    && (limit < |scripts| ==>
          scripts[limit].path in recorded && recorded[scripts[limit].path] != scripts[limit].checksum)
  }

  /** The positions from `start` up to `limit` of the scripts that are not recorded, in list order. */
  ghost predicate Unrecorded(
    recorded: map<Path, Checksum>, scripts: seq<Script>, start: nat, limit: nat, at: seq<nat>)
    requires limit <= |scripts|
  {
    && (forall k :: 0 <= k < |at| ==> start <= at[k] < limit && scripts[at[k]].path !in recorded)
    && (forall j, k :: 0 <= j < k < |at| ==> at[j] < at[k])
    && (forall i :: start <= i < limit && scripts[i].path !in recorded ==> i in at)
  }

  function PathsAt(scripts: seq<Script>, at: seq<nat>): seq<Path>
    requires forall k :: 0 <= k < |at| ==> at[k] < |scripts|
  {
    seq(|at|, k requires 0 <= k < |at| => scripts[at[k]].path)
  }

  /** The old records, and those of the scripts at these positions. */
  ghost predicate Records(scripts: seq<Script>, at: seq<nat>, before: map<Path, Checksum>, after: map<Path, Checksum>)
    requires forall k :: 0 <= k < |at| ==> at[k] < |scripts|
  {
    && (forall p :: p in before ==> p in after && after[p] == before[p])
    && (forall k :: 0 <= k < |at| ==>
          scripts[at[k]].path in after && after[scripts[at[k]].path] == scripts[at[k]].checksum)
    && (forall p :: p in after && p !in before ==> exists k :: 0 <= k < |at| && scripts[at[k]].path == p)
  }

  /** How the run ends, with `n` scripts recorded on the way. */
  function Ending(scripts: seq<Script>, limit: nat, at: seq<nat>, n: nat, torn: bool, done: nat, skipped: nat): Outcome
    requires n <= |at| && limit <= |scripts| && forall k :: 0 <= k < |at| ==> at[k] < |scripts|
  {
    if n < |at| then (if torn then StoppedBetween(scripts[at[n]].path) else StoppedBefore(scripts[at[n]].path))
    else if limit < |scripts| then Drift(scripts[limit].path)
    else Completed(done, skipped)
  }

  /** The scripts carried out and recorded, as far as the writes reach. */
  function Carried(total: nat, writes: nat): nat { if writes / 2 < total then writes / 2 else total }

  lemma {:induction false} IncreasingFrom(at: seq<nat>, start: nat, k: nat)
    requires k < |at| && at[0] >= start && forall i, j :: 0 <= i < j < |at| ==> at[i] < at[j]
    ensures at[k] >= start + k
  {
    if k > 0 {
      IncreasingFrom(at, start, k - 1);
    }
  }

  lemma {:induction false} UnrecordedFits(
    recorded: map<Path, Checksum>, scripts: seq<Script>, start: nat, limit: nat, at: seq<nat>)
    requires start <= limit <= |scripts| && Unrecorded(recorded, scripts, start, limit, at)
    ensures |at| <= limit - start
  {
    if at != [] {
      IncreasingFrom(at, start, |at| - 1);
    }
  }

  lemma {:induction false} UnrecordedTail(
    recorded: map<Path, Checksum>, scripts: seq<Script>, start: nat, limit: nat, at: seq<nat>)
    requires start < limit <= |scripts| && Unrecorded(recorded, scripts, start, limit, at)
    ensures scripts[start].path in recorded ==> Unrecorded(recorded, scripts, start + 1, limit, at)
    ensures scripts[start].path !in recorded ==>
      at != [] && at[0] == start && Unrecorded(recorded, scripts, start + 1, limit, at[1..])
  {
    if scripts[start].path !in recorded {
      assert start in at;
      var k :| 0 <= k < |at| && at[k] == start;
      IncreasingFrom(at, start, k);
      forall i | start + 1 <= i < limit && scripts[i].path !in recorded ensures i in at[1..] {
        assert i in at && at == [at[0]] + at[1..];
      }
    }
  }

  lemma {:induction false} RecordsCompose(
    scripts: seq<Script>, first: nat, rest: seq<nat>, before: map<Path, Checksum>, after: map<Path, Checksum>)
    requires first < |scripts| && forall k :: 0 <= k < |rest| ==> rest[k] < |scripts|
    requires scripts[first].path !in before
    requires Records(scripts, rest, before[scripts[first].path := scripts[first].checksum], after)
    ensures Records(scripts, [first] + rest, before, after)
  {
    var at, path := [first] + rest, scripts[first].path;
    var middle := before[path := scripts[first].checksum];
    assert path in middle;
    assert forall k :: 1 <= k < |at| ==> at[k] == rest[k - 1];
    assert forall p :: p in before ==> p in middle && middle[p] == before[p];
    forall p | p in after && p !in before ensures exists k :: 0 <= k < |at| && scripts[at[k]].path == p {
      if p == path {
        assert scripts[at[0]].path == p;
      } else {
        var k :| 0 <= k < |rest| && scripts[rest[k]].path == p;
        assert scripts[at[k + 1]].path == p;
      }
    }
  }

  /** What a run from script `i` on does, with the unrecorded scripts from there up to the first drift at `at`. */
  ghost predicate CarriesOut(
    loaded: map<Path, Checksum>, scripts: seq<Script>, i: nat, s: State, writes: nat, done: nat, skipped: nat,
    limit: nat, at: seq<nat>)
    requires i <= limit <= |scripts| && |at| <= limit - i && forall k :: 0 <= k < |at| ==> at[k] < |scripts|
  {
    var n := Carried(|at|, writes);
    var torn := n < |at| && writes % 2 == 1;
    var (s', outcome) := RunFrom(loaded, scripts, i, s, writes, done, skipped);
    && Records(scripts, at[..n], s.recorded, s'.recorded)
    && s'.executed == s.executed + PathsAt(scripts, at[..if torn then n + 1 else n])
    && outcome == Ending(scripts, limit, at, n, torn, done + |at|, skipped + (limit - i - |at|))
  }

  /** Whatever the run may still come to was not recorded at its start and has not been since. */
  ghost predicate Untouched(loaded: map<Path, Checksum>, scripts: seq<Script>, i: nat, recorded: map<Path, Checksum>) {
    forall j :: i <= j < |scripts| && scripts[j].path !in loaded ==> scripts[j].path !in recorded
  }

  lemma {:induction false} UntouchedNext(
    loaded: map<Path, Checksum>, scripts: seq<Script>, i: nat, recorded: map<Path, Checksum>)
    requires Distinct(scripts) && i < |scripts| && Untouched(loaded, scripts, i, recorded)
    ensures Untouched(loaded, scripts, i + 1, recorded)
    ensures Untouched(loaded, scripts, i + 1, recorded[scripts[i].path := scripts[i].checksum])
    ensures scripts[i].path !in loaded ==> scripts[i].path !in recorded
  {
  }

  lemma {:induction false} RunFromIsExact(
    loaded: map<Path, Checksum>, scripts: seq<Script>, i: nat, s: State, writes: nat, done: nat, skipped: nat,
    limit: nat, at: seq<nat>)
    requires Distinct(scripts) && i <= limit <= |scripts| && Untouched(loaded, scripts, i, s.recorded)
    requires FirstDrift(loaded, scripts, limit) && Unrecorded(loaded, scripts, i, limit, at)
    requires |at| <= limit - i && forall k :: 0 <= k < |at| ==> at[k] < |scripts|
    ensures CarriesOut(loaded, scripts, i, s, writes, done, skipped, limit, at)
    decreases |scripts| - i
  {
    hide Records, PathsAt, RunFrom, CarriesOut, Carried, Unrecorded, FirstDrift, Distinct, Untouched;
    if i == limit {
      assert at == [];
      CarriesOutTheEnd(loaded, scripts, s, writes, done, skipped, limit);
    } else {
      UnrecordedTail(loaded, scripts, i, limit, at);
      UntouchedNext(loaded, scripts, i, s.recorded);
      var script := scripts[i];
      if script.path in loaded {
        UnrecordedFits(loaded, scripts, i + 1, limit, at);
        RunFromIsExact(loaded, scripts, i + 1, s, writes, done, skipped + 1, limit, at);
        CarriesOutSkipping(loaded, scripts, i, s, writes, done, skipped, limit, at);
      } else if writes >= 2 {
        var next := State(s.executed + [script.path], s.recorded[script.path := script.checksum]);
        RunFromIsExact(loaded, scripts, i + 1, next, writes - 2, done + 1, skipped, limit, at[1..]);
        CarriesOutOneMore(loaded, scripts, i, s, writes, done, skipped, limit, at);
      } else {
        CarriesOutNone(loaded, scripts, i, s, writes, done, skipped, limit, at);
      }
    }
  }

  lemma {:induction false} CarriesOutTheEnd(
    loaded: map<Path, Checksum>, scripts: seq<Script>, s: State, writes: nat, done: nat, skipped: nat, limit: nat)
    requires FirstDrift(loaded, scripts, limit)
    ensures CarriesOut(loaded, scripts, limit, s, writes, done, skipped, limit, [])
  {
    assert s.executed + [] == s.executed;
  }

  lemma {:induction false} CarriesOutSkipping(
    loaded: map<Path, Checksum>, scripts: seq<Script>, i: nat, s: State, writes: nat, done: nat, skipped: nat,
    limit: nat, at: seq<nat>)
    requires i < limit <= |scripts| && |at| <= limit - (i + 1) && forall k :: 0 <= k < |at| ==> at[k] < |scripts|
    requires scripts[i].path in loaded && FirstDrift(loaded, scripts, limit)
    requires CarriesOut(loaded, scripts, i + 1, s, writes, done, skipped + 1, limit, at)
    ensures CarriesOut(loaded, scripts, i, s, writes, done, skipped, limit, at)
  {
    hide Records, PathsAt;
  }

  lemma {:induction false} CarriesOutNone(
    loaded: map<Path, Checksum>, scripts: seq<Script>, i: nat, s: State, writes: nat, done: nat, skipped: nat,
    limit: nat, at: seq<nat>)
    requires i < limit <= |scripts| && |at| <= limit - i && forall k :: 0 <= k < |at| ==> at[k] < |scripts|
    requires at != [] && at[0] == i && scripts[i].path !in loaded && writes < 2
    ensures CarriesOut(loaded, scripts, i, s, writes, done, skipped, limit, at)
  {
    PathsAtCons(scripts, at, 0);
    assert s.executed + [] == s.executed;
  }

  lemma {:induction false} CarriesOutOneMore(
    loaded: map<Path, Checksum>, scripts: seq<Script>, i: nat, s: State, writes: nat, done: nat, skipped: nat,
    limit: nat, at: seq<nat>)
    requires i < limit <= |scripts| && |at| <= limit - i && forall k :: 0 <= k < |at| ==> at[k] < |scripts|
    requires at != [] && at[0] == i && scripts[i].path !in loaded && scripts[i].path !in s.recorded && writes >= 2
    requires var next := State(s.executed + [scripts[i].path], s.recorded[scripts[i].path := scripts[i].checksum]);
             CarriesOut(loaded, scripts, i + 1, next, writes - 2, done + 1, skipped, limit, at[1..])
    ensures CarriesOut(loaded, scripts, i, s, writes, done, skipped, limit, at)
  {
    hide Records, PathsAt;
    var rest, n := at[1..], Carried(|at| - 1, writes - 2);
    var (s', _) := RunFrom(loaded, scripts, i, s, writes, done, skipped);
    assert Carried(|at|, writes) == n + 1;
    PathsAtCons(scripts, at, n);
    if n < |rest| { PathsAtCons(scripts, at, n + 1); }
    RecordsCompose(scripts, i, rest[..n], s.recorded, s'.recorded);
  }

  lemma {:induction false} PathsAtCons(scripts: seq<Script>, at: seq<nat>, n: nat)
    requires n < |at| && forall k :: 0 <= k < |at| ==> at[k] < |scripts|
    ensures [at[0]] + at[1..][..n] == at[..n + 1]
    ensures [scripts[at[0]].path] + PathsAt(scripts, at[1..][..n]) == PathsAt(scripts, at[..n + 1])
    ensures PathsAt(scripts, at[..0]) == []
  {
  }

  /**
   * Exactly what a run does, on any list of distinct paths, from any table and cut off after any number of
   * writes: it executes and records the unrecorded scripts in list order, all of them up to the first
   * drift if its writes reach that far; cut off between, it has executed one more.
   */
  lemma {:induction false} RunIsExact(scripts: seq<Script>, s: State, writes: nat, limit: nat, at: seq<nat>)
    requires Distinct(scripts) && FirstDrift(s.recorded, scripts, limit)
    requires Unrecorded(s.recorded, scripts, 0, limit, at)
    ensures |at| <= limit
    ensures var n := if writes / 2 < |at| then writes / 2 else |at|;
            var torn := n < |at| && writes % 2 == 1;
            var (s', outcome) := Run(scripts, s, writes);
            && Records(scripts, at[..n], s.recorded, s'.recorded)
            && s'.executed == s.executed + PathsAt(scripts, at[..if torn then n + 1 else n])
            && outcome == if torn then StoppedBetween(scripts[at[n]].path)
                          else if n < |at| then StoppedBefore(scripts[at[n]].path)
                          else if limit < |scripts| then Drift(scripts[limit].path)
                          else Completed(|at|, |scripts| - |at|)
  {
    UnrecordedFits(s.recorded, scripts, 0, limit, at);
    RunFromIsExact(s.recorded, scripts, 0, s, writes, 0, 0, limit, at);
    hide Records, PathsAt, RunFrom;
  }

  /** Every list and table have a first drift, or none, and a list of the unrecorded scripts before it. */
  lemma {:induction false} FindUnrecorded(recorded: map<Path, Checksum>, scripts: seq<Script>, start: nat)
    returns (limit: nat, at: seq<nat>)
    requires start <= |scripts|
    requires forall i :: 0 <= i < start && scripts[i].path in recorded ==>
               recorded[scripts[i].path] == scripts[i].checksum
    ensures start <= limit && FirstDrift(recorded, scripts, limit) && Unrecorded(recorded, scripts, start, limit, at)
    decreases |scripts| - start
  {
    if start == |scripts|
       || (scripts[start].path in recorded && recorded[scripts[start].path] != scripts[start].checksum) {
      limit, at := start, [];
    } else {
      limit, at := FindUnrecorded(recorded, scripts, start + 1);
      if scripts[start].path !in recorded {
        at := [start] + at;
      }
    }
  }

  /**
   * A run completes only if no recorded script has drifted, and then every listed script is recorded with
   * its checksum; the counts are the new executions and the rest.  Drift names the first drifted script.
   */
  lemma {:induction false} CompletedRunRecordsAll(scripts: seq<Script>, s: State, writes: nat)
    requires Distinct(scripts)
    ensures var (s', outcome) := Run(scripts, s, writes);
            && (outcome.Completed? ==>
                  && (forall i :: 0 <= i < |scripts| ==>
                        scripts[i].path in s'.recorded && s'.recorded[scripts[i].path] == scripts[i].checksum)
                  && outcome.executedCount == |s'.executed| - |s.executed|
                  && outcome.skippedCount == |scripts| - outcome.executedCount)
            && (outcome.Drift? ==> exists d ::
                  0 <= d < |scripts| && scripts[d].path == outcome.path && FirstDrift(s.recorded, scripts, d))
  {
    var limit, at := FindUnrecorded(s.recorded, scripts, 0);
    RunIsExact(scripts, s, writes, limit, at);
    var (s', outcome) := Run(scripts, s, writes);
    hide Run, Distinct;
    if outcome.Completed? {
      assert at[..|at|] == at && limit == |scripts|;
      forall i | 0 <= i < |scripts|
        ensures scripts[i].path in s'.recorded && s'.recorded[scripts[i].path] == scripts[i].checksum
      {
        if scripts[i].path !in s.recorded {
          assert i in at;
        }
      }
    }
  }

  // ---- Any sequence of runs, lists free to change -------------------------------------------

  datatype Attempt = Attempt(scripts: seq<Script>, writes: nat)

  function After(attempts: seq<Attempt>): (r: (State, seq<Outcome>))
    ensures |r.1| == |attempts|
  {
    if attempts == [] then (State([], map[]), [])
    else
      var n := |attempts| - 1;
      var (s, outcomes) := After(attempts[..n]);
      var (s', outcome) := Run(attempts[n].scripts, s, attempts[n].writes);
      (s', outcomes + [outcome])
  }

  /**
   * Every script was executed exactly once for its record plus once for each run that stopped between
   * executing and recording it; in particular no script is recorded that was not executed.
   */
  lemma {:induction false} ExecutionsAreAccountedFor(attempts: seq<Attempt>, p: Path)
    requires forall a :: 0 <= a < |attempts| ==> Distinct(attempts[a].scripts)
    ensures var (s, outcomes) := After(attempts);
            multiset(s.executed)[p] == One(p in s.recorded) + multiset(outcomes)[StoppedBetween(p)]
  {
    if attempts != [] {
      var n := |attempts| - 1;
      ExecutionsAreAccountedFor(attempts[..n], p);
      var (s, outcomes) := After(attempts[..n]);
      RunAccounts(s.recorded, attempts[n].scripts, 0, s, attempts[n].writes, 0, 0, p);
    }
  }

  /** A recorded checksum never changes. */
  lemma {:induction false} ChecksumsAreImmutable(attempts: seq<Attempt>, m: nat, p: Path)
    requires forall a :: 0 <= a < |attempts| ==> Distinct(attempts[a].scripts)
    requires m <= |attempts| && p in After(attempts[..m]).0.recorded
    ensures p in After(attempts).0.recorded && After(attempts).0.recorded[p] == After(attempts[..m]).0.recorded[p]
  {
    var n := |attempts| - 1;
    if m == |attempts| {
      assert attempts[..m] == attempts;
    } else {
      assert attempts[..n][..m] == attempts[..m];
      ChecksumsAreImmutable(attempts[..n], m, p);
      var s := After(attempts[..n]).0;
      RunAccounts(s.recorded, attempts[n].scripts, 0, s, attempts[n].writes, 0, 0, p);
    }
  }

  // ---- Any sequence of runs over one list ---------------------------------------------------

  function Paths(scripts: seq<Script>): (paths: seq<Path>)
    ensures |paths| == |scripts|
  {
    seq(|scripts|, i requires 0 <= i < |scripts| => scripts[i].path)
  }

  /** The first `k` scripts are recorded, and nothing else. */
  ghost predicate PrefixRecorded(scripts: seq<Script>, k: nat, recorded: map<Path, Checksum>)
    requires k <= |scripts|
  {
    && (forall i :: 0 <= i < k ==> scripts[i].path in recorded && recorded[scripts[i].path] == scripts[i].checksum)
    && (forall p :: p in recorded ==> exists i :: 0 <= i < k && scripts[i].path == p)
  }

  function Reached(total: nat, k: nat, writes: nat): nat
    requires k <= total
  {
    if k + writes / 2 < total then k + writes / 2 else total
  }

  lemma {:induction false} RecordedScriptsAreSkipped(
    scripts: seq<Script>, loaded: map<Path, Checksum>, k: nat, i: nat, s: State, writes: nat, done: nat,
    skipped: nat)
    requires i <= k <= |scripts| && PrefixRecorded(scripts, k, loaded)
    ensures RunFrom(loaded, scripts, i, s, writes, done, skipped)
         == RunFrom(loaded, scripts, k, s, writes, done, skipped + k - i)
    decreases k - i
  {
    if i < k {
      RecordedScriptsAreSkipped(scripts, loaded, k, i + 1, s, writes, done, skipped + 1);
    }
  }

  lemma {:induction false} PrefixGrows(scripts: seq<Script>, i: nat, recorded: map<Path, Checksum>)
    requires Distinct(scripts) && i < |scripts| && PrefixRecorded(scripts, i, recorded)
    ensures PrefixRecorded(scripts, i + 1, recorded[scripts[i].path := scripts[i].checksum])
    ensures scripts[i].path !in recorded
  {
  }

  lemma {:induction false} LaterIsNotRecorded(scripts: seq<Script>, k: nat, i: nat, recorded: map<Path, Checksum>)
    requires Distinct(scripts) && k <= i < |scripts| && PrefixRecorded(scripts, k, recorded)
    ensures scripts[i].path !in recorded
  {
  }

  lemma {:induction false} PathsFrom(scripts: seq<Script>, i: nat, k: nat)
    requires i < k <= |scripts|
    ensures Paths(scripts)[i..k] == [scripts[i].path] + Paths(scripts)[i + 1..k]
  {
  }

  function Torn(scripts: seq<Script>, k: nat, writes: nat): seq<Path> {
    if k < |scripts| && writes % 2 == 1 then [scripts[k].path] else []
  }

  lemma {:induction false} RestIsExecuted(
    scripts: seq<Script>, loaded: map<Path, Checksum>, k: nat, i: nat, s: State, writes: nat, done: nat,
    skipped: nat)
    requires Distinct(scripts) && k <= i <= |scripts|
    requires PrefixRecorded(scripts, k, loaded) && PrefixRecorded(scripts, i, s.recorded)
    ensures var k' := Reached(|scripts|, i, writes);
            var (s', outcome) := RunFrom(loaded, scripts, i, s, writes, done, skipped);
            && PrefixRecorded(scripts, k', s'.recorded)
            && s'.executed == s.executed + Paths(scripts)[i..k'] + Torn(scripts, k', writes)
            && outcome == Verdict(scripts, k', writes, done + k' - i, skipped)
    decreases |scripts| - i
  {
    hide PrefixRecorded, Distinct, Paths;
    if i < |scripts| {
      LaterIsNotRecorded(scripts, k, i, loaded);
      PrefixGrows(scripts, i, s.recorded);
      if writes >= 2 {
        var next := State(s.executed + [scripts[i].path], s.recorded[scripts[i].path := scripts[i].checksum]);
        RestIsExecuted(scripts, loaded, k, i + 1, next, writes - 2, done + 1, skipped);
        PathsFrom(scripts, i, Reached(|scripts|, i, writes));
      }
    }
  }

  function Verdict(scripts: seq<Script>, k: nat, writes: nat, done: nat, skipped: nat): Outcome
    requires k <= |scripts|
  {
    if k == |scripts| then Completed(done, skipped)
    else if writes % 2 == 1 then StoppedBetween(scripts[k].path)
    else StoppedBefore(scripts[k].path)
  }

  /** Exactly what a run does when the first `k` scripts are recorded. */
  lemma {:induction false} RunAfterPrefix(scripts: seq<Script>, k: nat, s: State, writes: nat)
    requires Distinct(scripts) && k <= |scripts| && PrefixRecorded(scripts, k, s.recorded)
    ensures var k' := Reached(|scripts|, k, writes);
            var (s', outcome) := Run(scripts, s, writes);
            && PrefixRecorded(scripts, k', s'.recorded)
            && s'.executed == s.executed + Paths(scripts)[k..k'] + Torn(scripts, k', writes)
            && outcome == Verdict(scripts, k', writes, k' - k, k)
  {
    hide PrefixRecorded, Distinct, Paths, RunFrom, Torn, Verdict, Reached;
    RecordedScriptsAreSkipped(scripts, s.recorded, k, 0, s, writes, 0, 0);
    RestIsExecuted(scripts, s.recorded, k, k, s, writes, 0, k);
  }

  ghost predicate Same(attempts: seq<Attempt>, scripts: seq<Script>) {
    forall a :: 0 <= a < |attempts| ==> attempts[a].scripts == scripts
  }

  /** How many scripts are recorded after these runs. */
  function Progress(total: nat, attempts: seq<Attempt>): (k: nat)
    ensures k <= total
  {
    if attempts == [] then 0
    else Reached(total, Progress(total, attempts[..|attempts| - 1]), attempts[|attempts| - 1].writes)
  }

  /** The log names the scripts in list order, repeating but never going back, and leaves none out. */
  ghost predicate InOrder(scripts: seq<Script>, log: seq<Path>, at: seq<nat>, k: nat) {
    && |at| == |log|
    && (forall j :: 0 <= j < |at| ==> at[j] < |scripts| && at[j] <= k && log[j] == scripts[at[j]].path)
    && (forall i, j :: 0 <= i < j < |at| ==> at[i] <= at[j])
    && (forall i :: 0 <= i < k ==> i in at)
  }

  lemma {:induction false} InOrderRange(scripts: seq<Script>, log: seq<Path>, at: seq<nat>, k: nat, k': nat)
    returns (at': seq<nat>)
    requires InOrder(scripts, log, at, k) && k <= k' <= |scripts|
    ensures InOrder(scripts, log + Paths(scripts)[k..k'], at', k')
  {
    var added := seq(k' - k, i requires 0 <= i < k' - k => k + i);
    at' := at + added;
    forall i | 0 <= i < k' ensures i in at' {
      if i >= k { assert at'[|at| + i - k] == i; }
    }
  }

  lemma {:induction false} InOrderTorn(scripts: seq<Script>, log: seq<Path>, at: seq<nat>, k: nat)
    requires InOrder(scripts, log, at, k) && k < |scripts|
    ensures InOrder(scripts, log + [scripts[k].path], at + [k], k)
  {
  }

  lemma {:induction false} InOrderExtends(
    scripts: seq<Script>, log: seq<Path>, at: seq<nat>, k: nat, k': nat, torn: bool)
    returns (at': seq<nat>)
    requires InOrder(scripts, log, at, k) && k <= k' <= |scripts| && (torn ==> k' < |scripts|)
    ensures InOrder(scripts, log + Paths(scripts)[k..k'] + (if torn then [scripts[k'].path] else []), at', k')
  {
    hide InOrder;
    at' := InOrderRange(scripts, log, at, k, k');
    if torn {
      InOrderTorn(scripts, log + Paths(scripts)[k..k'], at', k');
      at' := at' + [k'];
    } else {
      assert log + Paths(scripts)[k..k'] + [] == log + Paths(scripts)[k..k'];
    }
  }

  /**
   * Starting empty on a fixed list, whatever the runs and wherever they stop: a prefix of the list is
   * recorded, and executions follow list order without ever going back.
   */
  lemma {:induction false} RecordedIsAlwaysAPrefix(attempts: seq<Attempt>, scripts: seq<Script>) returns (at: seq<nat>)
    requires Distinct(scripts) && Same(attempts, scripts)
    ensures PrefixRecorded(scripts, Progress(|scripts|, attempts), After(attempts).0.recorded)
    ensures InOrder(scripts, After(attempts).0.executed, at, Progress(|scripts|, attempts))
  {
    if attempts == [] {
      at := [];
    } else {
      var n := |attempts| - 1;
      at := RecordedIsAlwaysAPrefix(attempts[..n], scripts);
      var s := After(attempts[..n]).0;
      var k := Progress(|scripts|, attempts[..n]);
      var writes := attempts[n].writes;
      RunAfterPrefix(scripts, k, s, writes);
      var k' := Reached(|scripts|, k, writes);
      at := InOrderExtends(scripts, s.executed, at, k, k', k' < |scripts| && writes % 2 == 1);
    }
  }

  /** A run after a completed one executes nothing, skips everything and completes. */
  lemma {:induction false} RunAfterCompletionIsNoop(attempts: seq<Attempt>, scripts: seq<Script>, writes: nat)
    requires Distinct(scripts) && Same(attempts, scripts) && attempts != []
    requires After(attempts).1[|attempts| - 1].Completed?
    ensures Run(scripts, After(attempts).0, writes) == (After(attempts).0, Completed(0, |scripts|))
  {
    var n := |attempts| - 1;
    var before := After(attempts[..n]).0;
    var _ := RecordedIsAlwaysAPrefix(attempts[..n], scripts);
    var _ := RecordedIsAlwaysAPrefix(attempts, scripts);
    RunAfterPrefix(scripts, Progress(|scripts|, attempts[..n]), before, attempts[n].writes);
    RecordedScriptsAreSkipped(scripts, After(attempts).0.recorded, |scripts|, 0, After(attempts).0, writes, 0, 0);
  }
}
