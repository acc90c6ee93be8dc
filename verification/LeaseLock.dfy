/**
 * The coverage lock: a lease per target, kept as one JSON file, taken and refreshed by sessions that
 * only share the file system and a clock.  Times are milliseconds.
 */
module LeaseLock {
  import opened Text
  import Decimal

  type Target = string
  type Session = string

  datatype LockRecord = LockRecord(
    session: Session,
    moduleName: string,
    owner: string,
    reason: Option<string>,
    acquiredAt: int,
    heartbeatAt: int,
    expiresAt: int)

  const DEFAULT_TTL_SECONDS: nat := 300
  const DEFAULT_POLL_SECONDS: nat := 60
  const MAX_TIMEOUT_MS := 0x7FFF_FFFF

  /** The options of one command once the command line has been read. */
  datatype Options = Options(
    session: Session,
    moduleName: Option<string>,
    owner: Option<string>,
    user: Option<string>,
    reason: Option<string>,
    ttlSeconds: nat,
    pollSeconds: nat)
  {
    predicate Valid() { ttlSeconds > 0 && pollSeconds > 0 }

    /** The real length of one sleep: `setTimeout` takes a delay it cannot represent for one millisecond. */
    function PollMs(): nat { if pollSeconds * 1000 <= MAX_TIMEOUT_MS then pollSeconds * 1000 else 1 }
  }

  /** A numeric flag; an absent or empty value stands for the default. */
  function ParseNumber(value: Option<string>, fallback: nat): Result<nat, string> {
    if value.None? || value.value == "" then Ok(fallback)
    else
      match Decimal.ParseInt(value.value)
      case Some(parsed) => if parsed <= 0 then Err("must be a positive integer") else Ok(parsed)
      case None => Err("must be a positive integer")
  }

  /** Options with the term and the poll interval that two flags ask for. */
  function WithTimes(options: Options, ttl: Option<string>, poll: Option<string>): Result<Options, string> {
    match (ParseNumber(ttl, DEFAULT_TTL_SECONDS), ParseNumber(poll, DEFAULT_POLL_SECONDS))
    case (Ok(ttlSeconds), Ok(pollSeconds)) => Ok(options.(ttlSeconds := ttlSeconds, pollSeconds := pollSeconds))
    case (Err(error), _) => Err(error)
    case (_, Err(error)) => Err(error)
  }

  /** Whatever the flags, options that are accepted have a positive term and a positive poll interval. */
  lemma {:induction false} AcceptedTimesArePositive(options: Options, ttl: Option<string>, poll: Option<string>)
    requires WithTimes(options, ttl, poll).Ok?
    ensures WithTimes(options, ttl, poll).value.Valid() && WithTimes(options, ttl, poll).value.PollMs() > 0
  {
  }

  /** Without flags the lease lasts five minutes and the poll interval is one. */
  lemma {:induction false} DefaultTimes(options: Options)
    ensures WithTimes(options, None, None) == Ok(options.(ttlSeconds := 300, pollSeconds := 60))
  {
  }

  /** A flag is refused iff it is given, and is not a number or not a positive one. */
  lemma {:induction false} RefusedTimes(value: string, fallback: nat)
    ensures ParseNumber(Some(value), fallback).Err?
       <==> value != "" && (Decimal.ParseInt(value).None? || Decimal.ParseInt(value).value <= 0)
    ensures ParseNumber(Some(value), fallback).Ok? ==>
      ParseNumber(Some(value), fallback).value == if value == "" then fallback else Decimal.ParseInt(value).value
  {
  }

  /** Every positive number can be asked for, and is then what is used. */
  lemma {:induction false} PrintedTimesAreAccepted(options: Options)
    requires options.Valid()
    ensures var ttl, poll := Decimal.Print(options.ttlSeconds), Decimal.Print(options.pollSeconds);
            WithTimes(options, Some(ttl), Some(poll)) == Ok(options)
  {
    Decimal.ValueOfPrint(options.ttlSeconds);
    Decimal.ValueOfPrint(options.pollSeconds);
    Decimal.ParseIntOfDigits(Decimal.Print(options.ttlSeconds));
    Decimal.ParseIntOfDigits(Decimal.Print(options.pollSeconds));
  }

  function OrElse<T>(first: Option<T>, second: Option<T>): Option<T> { if first.Some? then first else second }

  function GetOr<T>(o: Option<T>, default: T): T { if o.Some? then o.value else default }

  predicate Stale(lock: LockRecord, now: int) { lock.expiresAt <= now }

  function MakeRecord(options: Options, previous: Option<LockRecord>, now: int): LockRecord {
    var kept := if previous.Some? then Some(previous.value.moduleName) else None;
    var keptOwner := if previous.Some? then Some(previous.value.owner) else None;
    var keptReason := if previous.Some? then previous.value.reason else None;
    LockRecord(
      options.session,
      GetOr(OrElse(options.moduleName, kept), "unspecified"),
      GetOr(OrElse(options.owner, OrElse(keptOwner, options.user)), "unknown"),
      OrElse(options.reason, keptReason),
      if previous.Some? then previous.value.acquiredAt else now,
      now,
      now + options.ttlSeconds * 1000)
  }

  /** A record for these options, written at `at`; what they leave open is taken from the record it continues. */
  ghost predicate Describes(record: LockRecord, options: Options, continued: Option<LockRecord>, at: int) {
    && record.session == options.session
    && record.heartbeatAt == at && record.expiresAt == at + options.ttlSeconds * 1000
    && (continued.Some? ==> record.acquiredAt == continued.value.acquiredAt)
    && (continued.None? ==> record.acquiredAt == at)
    && (options.moduleName.Some? ==> record.moduleName == options.moduleName.value)
    && (options.moduleName.None? && continued.Some? ==> record.moduleName == continued.value.moduleName)
    && (options.moduleName.None? && continued.None? ==> record.moduleName == "unspecified")
    && (options.owner.Some? ==> record.owner == options.owner.value)
    && (options.owner.None? && continued.Some? ==> record.owner == continued.value.owner)
    && (options.owner.None? && continued.None? && options.user.Some? ==> record.owner == options.user.value)
    && (options.owner.None? && continued.None? && options.user.None? ==> record.owner == "unknown")
    && (options.reason.Some? ==> record.reason == options.reason)
    && (options.reason.None? && continued.Some? ==> record.reason == continued.value.reason)
    && (options.reason.None? && continued.None? ==> record.reason.None?)
  }

  // ---- What one look at the lock file leads to ----------------------------------------------

  datatype Verb = Acquire | Heartbeat | Release

  datatype Outcome = Acquired | Refreshed | Reclaimed | Busy | NoLock | Freed | AlreadyFree

  datatype Effect = Write(record: LockRecord) | Remove | Keep

  /** `checked` is the clock at the staleness test, `now` at the writing of a new record. */
  function Decide(
    verb: Verb, options: Options, existing: Option<LockRecord>, checked: int, now: int): (Effect, Outcome) {
    match existing
    case None =>
      (match verb
       case Acquire => (Write(MakeRecord(options, None, now)), Acquired)
       case Heartbeat => (Keep, NoLock)
       case Release => (Keep, AlreadyFree))
    case Some(lock) =>
      var mine := lock.session == options.session;
      if !mine && !Stale(lock, checked) then (Keep, Busy)
      else
        match verb
        case Acquire =>
          if mine then (Write(MakeRecord(options, Some(lock), now)), Refreshed)
          else (Write(MakeRecord(options, None, now)), Reclaimed)
        case Heartbeat => (Write(MakeRecord(options, Some(lock), now)), if mine then Refreshed else Reclaimed)
        case Release => (Remove, Freed)
  }

  type Files = map<Target, LockRecord>

  function Read(files: Files, target: Target): Option<LockRecord> {
    if target in files then Some(files[target]) else None
  }

  function Store(files: Files, target: Target, effect: Effect): Files {
    match effect
    case Write(record) => files[target := record]
    case Remove => files - {target}
    case Keep => files
  }

  // ---- Leases -------------------------------------------------------------------------------

  /** Until when each session believes that it holds each target. */
  type Leases = map<(Target, Session), int>

  function Account(leases: Leases, verb: Verb, target: Target, session: Session, effect: Effect): Leases {
    match effect
    case Write(record) => leases[(target, session) := record.expiresAt]
    case Remove => leases - {(target, session)}
    case Keep => leases
  }

  /** Every unexpired lease is what the lock file says. */
  ghost predicate Backed(files: Files, leases: Leases, clock: int) {
    forall t, s :: (t, s) in leases && leases[(t, s)] > clock ==>
      t in files && files[t].session == s && files[t].expiresAt == leases[(t, s)]
  }

  /** No two sessions believe that they hold the same target. */
  ghost predicate Exclusive(leases: Leases, clock: int) {
    forall t, s1, s2 ::
      (t, s1) in leases && (t, s2) in leases && leases[(t, s1)] > clock && leases[(t, s2)] > clock ==> s1 == s2
  }

  lemma {:induction false} BackedIsExclusive(files: Files, leases: Leases, clock: int)
    requires Backed(files, leases, clock)
    ensures Exclusive(leases, clock)
  {
  }

  /**
   * Acting on an up-to-date reading of the file keeps every lease backed, and leaves a foreign
   * unexpired record alone.
   */
  lemma {:induction false} DecisionKeepsLeases(
    files: Files, leases: Leases, verb: Verb, target: Target, options: Options, checked: int, now: int,
    clock: int)
    requires Backed(files, leases, clock) && checked <= now <= clock
    ensures var effect := Decide(verb, options, Read(files, target), checked, now).0;
            && Backed(Store(files, target, effect), Account(leases, verb, target, options.session, effect), clock)
            && (target in files && files[target].session != options.session && !Stale(files[target], clock) ==>
                  Store(files, target, effect) == files)
  {
  }

  lemma {:induction false} SweepKeepsLeases(files: Files, leases: Leases, target: Target, clock: int)
    requires Backed(files, leases, clock) && target in files && Stale(files[target], clock)
    ensures Backed(files - {target}, leases, clock)
  {
  }

  // ---- Whole commands -----------------------------------------------------------------------

  /** The lock directory as whole commands see it, one at a time. */
  class LockDirectory {
    var files: Files
    var clock: int
    ghost var leases: Leases

    ghost predicate Valid()
      reads this
    {
      Backed(files, leases, clock)
    }

    constructor (clock: int)
      ensures Valid() && files == map[] && leases == map[]
    {
      files, leases := map[], map[];
      this.clock := clock;
    }

    method Now() returns (now: int)
      requires Valid()
      modifies this`clock
      ensures Valid() && now == clock >= old(clock)
    {
      var elapsed: nat :| true;
      clock := clock + elapsed;
      now := clock;
    }

    /** At least `ms` pass; nobody else touches the directory meanwhile. */
    method Sleep(ms: nat)
      requires Valid()
      modifies this`clock
      ensures Valid() && clock >= old(clock) + ms
    {
      var late: nat :| true;
      clock := clock + ms + late;
    }

    ghost predicate Took(
      verb: Verb, options: Options, existing: Option<LockRecord>, start: int, effect: Effect,
      outcome: Outcome)
      reads this
    {
      exists checked, now :: start <= checked <= now <= clock &&
        (effect, outcome) == Decide(verb, options, existing, checked, now)
    }

    /** One reading of the lock file and the reaction to it. */
    method Attempt(verb: Verb, target: Target, options: Options) returns (outcome: Outcome, ghost effect: Effect)
      requires Valid()
      modifies this
      ensures Valid() && clock >= old(clock)
      ensures Took(verb, options, Read(old(files), target), old(clock), effect, outcome)
      ensures files == Store(old(files), target, effect)
      ensures leases == Account(old(leases), verb, target, options.session, effect)
      ensures target in old(files) && old(files)[target].session != options.session && !Stale(old(files)[target], clock)
        ==> files == old(files) && outcome == Busy
    {
      var existing := Read(files, target);
      var checked := Now();
      var now := Now();
      var (e, o) := Decide(verb, options, existing, checked, now);
      DecisionKeepsLeases(files, leases, verb, target, options, checked, now, clock);
      match e {
        case Write(record) => files := files[target := record];
        case Remove => files := files - {target};
        case Keep =>
      }
      leases := Account(leases, verb, target, options.session, e);
      outcome, effect := o, e;
    }

    /**
     * `acquire`, polling under `--wait`.  With nobody else writing, a waiting acquire always ends with
     * the lease in hand, and no sooner than necessary does it stop sleeping: the last sleep began
     * before the lease it waited for had run out.
     */
    method AcquireLock(target: Target, options: Options, wait: bool) returns (outcome: Outcome, sleeps: nat)
      requires Valid() && options.Valid()
      modifies this
      ensures Valid() && clock >= old(clock)
      ensures outcome in {Acquired, Refreshed, Reclaimed, Busy}
      ensures wait ==> outcome != Busy
      ensures outcome == Busy ==> files == old(files) && leases == old(leases)
      ensures outcome != Busy ==>
        && target in files && files == old(files)[target := files[target]]
        && files[target].session == options.session
        && old(clock) <= files[target].heartbeatAt <= clock
        && files[target].expiresAt == files[target].heartbeatAt + options.ttlSeconds * 1000
        && leases == old(leases)[(target, options.session) := files[target].expiresAt]
      ensures outcome == Acquired <==> target !in old(files)
      ensures outcome == Refreshed <==> target in old(files) && old(files)[target].session == options.session
      ensures outcome == Refreshed ==>
        Describes(files[target], options, Some(old(files)[target]), files[target].heartbeatAt)
      ensures outcome in {Acquired, Reclaimed} ==>
        Describes(files[target], options, None, files[target].heartbeatAt)
      ensures sleeps > 0 ==>
        && outcome == Reclaimed
        && (sleeps - 1) * options.PollMs() < old(files)[target].expiresAt - old(clock)
    {
      sleeps := 0;
      ghost var elapsed := 0;
      while true
        invariant Valid() && files == old(files) && leases == old(leases)
        invariant clock >= old(clock) + elapsed && elapsed == sleeps * options.PollMs()
        invariant sleeps > 0 ==>
          && wait
          && target in files && files[target].session != options.session
          && (sleeps - 1) * options.PollMs() < files[target].expiresAt - old(clock)
        decreases if target in files then files[target].expiresAt - clock else 0
      {
        ghost var effect;
        outcome, effect := Attempt(Acquire, target, options);
        if outcome != Busy || !wait {
          return;
        }
        Sleep(options.PollMs());
        elapsed := elapsed + options.PollMs();
        sleeps := sleeps + 1;
      }
    }

    /**
     * `heartbeat`: renews the session's own lease, or takes over one that has run out and then continues
     * its record, acquisition time included.  It never creates a lock, and leaves a foreign lease alone.
     */
    method HeartbeatLock(target: Target, options: Options) returns (outcome: Outcome)
      requires Valid()
      modifies this
      ensures Valid() && clock >= old(clock)
      ensures outcome in {NoLock, Busy, Refreshed, Reclaimed}
      ensures outcome == NoLock <==> target !in old(files)
      ensures outcome == Refreshed <==> target in old(files) && old(files)[target].session == options.session
      ensures outcome == Busy ==> !Stale(old(files)[target], old(clock))
      ensures outcome == Reclaimed ==> Stale(old(files)[target], clock)
      ensures outcome in {NoLock, Busy} ==> files == old(files) && leases == old(leases)
      ensures outcome in {Refreshed, Reclaimed} ==>
        && target in files && files == old(files)[target := files[target]]
        && old(clock) <= files[target].heartbeatAt <= clock
        && Describes(files[target], options, Some(old(files)[target]), files[target].heartbeatAt)
        && leases == old(leases)[(target, options.session) := files[target].expiresAt]
    {
      ghost var effect;
      outcome, effect := Attempt(Heartbeat, target, options);
    }

    /** `release`: removes the session's own lock, or one that has run out, and leaves a foreign lease alone. */
    method ReleaseLock(target: Target, options: Options) returns (outcome: Outcome)
      requires Valid()
      modifies this
      ensures Valid() && clock >= old(clock)
      ensures outcome in {AlreadyFree, Busy, Freed}
      ensures outcome == AlreadyFree <==> target !in old(files)
      ensures target in old(files) && old(files)[target].session == options.session ==> outcome == Freed
      ensures outcome == Busy ==> !Stale(old(files)[target], old(clock))
      ensures outcome == Freed && old(files)[target].session != options.session ==> Stale(old(files)[target], clock)
      ensures outcome in {AlreadyFree, Busy} ==> files == old(files) && leases == old(leases)
      ensures outcome == Freed ==> files == old(files) - {target} && leases == old(leases) - {(target, options.session)}
    {
      ghost var effect;
      outcome, effect := Attempt(Release, target, options);
    }

    /** `cleanup`: removes every lock that has run out, and no other. */
    method Cleanup() returns (removed: set<Target>)
      requires Valid()
      modifies this
      ensures Valid() && clock >= old(clock) && leases == old(leases)
      ensures removed <= old(files).Keys && files == old(files) - removed
      ensures forall t :: t in old(files) && Stale(old(files)[t], old(clock)) ==> t in removed
      ensures forall t :: t in removed ==> Stale(old(files)[t], clock)
    {
      var now := Now();
      removed := set t | t in files && Stale(files[t], now);
      var pending := removed;
      ghost var before := files;
      while pending != {}
        invariant pending <= removed && Valid() && clock == now
        invariant files == before - (removed - pending)
        invariant leases == old(leases)
      {
        var t :| t in pending;
        SweepKeepsLeases(files, leases, t, clock);
        files := files - {t};
        pending := pending - {t};
      }
    }
  }
}
