/**
 * The lock again, with the reading and the writing of a command as separate steps that other
 * sessions' steps may come between.  Nothing in the script prevents that: there is no exclusive
 * create and no compare-and-swap.
 */
module LeaseRace {
  import opened Text
  import opened LeaseLock

  type Proc = nat

  /** Sweep is what `cleanup` does to one lock file. */
  datatype Command = Session(verb: Verb, target: Target, options: Options) | Sweep(target: Target)

  /** A command between its read and its write. */
  datatype Window = Window(command: Command, seen: Option<LockRecord>, openedAt: int)

  datatype State = State(files: Files, leases: Leases, clock: int, windows: map<Proc, Window>)

  datatype Event =
    | Tick(to: int)
    | Begin(proc: Proc, command: Command)
    | Finish(proc: Proc, checked: int, now: int)

  predicate Enabled(s: State, e: Event) {
    match e
    case Tick(to) => s.clock <= to
    case Begin(p, _) => p !in s.windows
    case Finish(p, checked, now) => p in s.windows && s.windows[p].openedAt <= checked <= now <= s.clock
  }

  function Act(w: Window, checked: int, now: int): Effect {
    match w.command
    case Session(verb, _, options) => Decide(verb, options, w.seen, checked, now).0
    case Sweep(_) => if w.seen.Some? && Stale(w.seen.value, checked) then Remove else Keep
  }

  function Step(s: State, e: Event): State
    requires Enabled(s, e)
  {
    match e
    case Tick(to) => s.(clock := to)
    case Begin(p, command) => s.(windows := s.windows[p := Window(command, Read(s.files, command.target), s.clock)])
    case Finish(p, checked, now) =>
      var w := s.windows[p];
      var effect := Act(w, checked, now);
      State(
        Store(s.files, w.command.target, effect),
        if w.command.Sweep? then s.leases
        else Account(s.leases, w.command.verb, w.command.target, w.command.options.session, effect),
        s.clock,
        s.windows - {p})
  }

  function Start(clock: int): State { State(map[], map[], clock, map[]) }

  /** A run, as the sequence of states between its events. */
  ghost predicate Run(states: seq<State>, events: seq<Event>) {
    && |states| == |events| + 1
    && states[0] == Start(states[0].clock)
    && forall i :: 0 <= i < |events| ==> Enabled(states[i], events[i]) && states[i + 1] == Step(states[i], events[i])
  }

  /** A command whose read and write nothing comes between does what the whole command does. */
  lemma {:induction false} UninterruptedCommand(s: State, p: Proc, command: Command)
    requires p !in s.windows
    ensures var begin, finish := Begin(p, command), Finish(p, s.clock, s.clock);
            && Enabled(s, begin) && Enabled(Step(s, begin), finish)
            && var end := Step(Step(s, begin), finish);
               && end.windows == s.windows && end.clock == s.clock
               && match command
                  case Session(verb, target, options) =>
                    var effect := Decide(verb, options, Read(s.files, target), s.clock, s.clock).0;
                    && end.files == Store(s.files, target, effect)
                    && end.leases == Account(s.leases, verb, target, options.session, effect)
                  case Sweep(target) =>
                    && end.leases == s.leases
                    && end.files == if target in s.files && Stale(s.files[target], s.clock) then s.files - {target}
                                    else s.files
  {
    assert (s.windows[p := Window(command, Read(s.files, command.target), s.clock)] - {p}) == s.windows;
  }

  // ---- Exactly when leases can be trusted ---------------------------------------------------

  ghost predicate Sound(s: State) { Backed(s.files, s.leases, s.clock) }

  predicate ActsFor(command: Command, session: Session) { command.Session? && command.options.session == session }

  /**
   * The guard that acquire, heartbeat, release and cleanup evaluate when they read the file, evaluated
   * when they write it: a command changes the file while it holds an unexpired lease of another session.
   */
  predicate Clobbers(s: State, e: Event) {
    && e.Finish? && e.proc in s.windows
    && var w := s.windows[e.proc];
       && Act(w, e.checked, e.now) != Keep
       && w.command.target in s.files
       && !Stale(s.files[w.command.target], s.clock)
       && !ActsFor(w.command, s.files[w.command.target].session)
  }

  ghost predicate Unclobbered(states: seq<State>, events: seq<Event>)
    requires |states| == |events| + 1
  {
    forall j :: 0 <= j < |events| ==> !Clobbers(states[j], events[j])
  }

  /** Every unexpired record is a lease that its session believes to hold. */
  ghost predicate Mirrored(s: State) {
    forall t :: t in s.files && !Stale(s.files[t], s.clock) ==>
      (t, s.files[t].session) in s.leases && s.leases[(t, s.files[t].session)] == s.files[t].expiresAt
  }

  lemma {:induction false} StepKeepsMirrored(s: State, e: Event)
    requires Enabled(s, e) && Mirrored(s)
    ensures Mirrored(Step(s, e))
  {
  }

  /** Races or not, a lock file never names a session that does not believe to hold it. */
  lemma {:induction false} RunKeepsMirrored(states: seq<State>, events: seq<Event>, i: nat)
    requires Run(states, events) && i < |states|
    ensures Mirrored(states[i])
  {
    if i > 0 {
      RunKeepsMirrored(states, events, i - 1);
      StepKeepsMirrored(states[i - 1], events[i - 1]);
    }
  }

  /** One step from backed leases keeps them backed exactly when it does not clobber. */
  lemma {:induction false} StepKeepsBackedIff(s: State, e: Event)
    requires Enabled(s, e) && Sound(s) && Mirrored(s)
    ensures Sound(Step(s, e)) <==> !Clobbers(s, e)
  {
    if Clobbers(s, e) {
      var target := s.windows[e.proc].command.target;
      var holder := s.files[target].session;
      var s' := Step(s, e);
      assert (target, holder) in s'.leases && s'.leases[(target, holder)] > s'.clock;
      assert target in s'.files ==> s'.files[target].session != holder;
    }
  }

  lemma {:induction false} UnclobberedKeepsBacked(states: seq<State>, events: seq<Event>, i: nat)
    requires Run(states, events) && i < |states|
    requires forall j :: 0 <= j < i ==> !Clobbers(states[j], events[j])
    ensures Sound(states[i])
  {
    if i > 0 {
      UnclobberedKeepsBacked(states, events, i - 1);
      RunKeepsMirrored(states, events, i - 1);
      StepKeepsBackedIff(states[i - 1], events[i - 1]);
    }
  }

  /** Over a whole run every unexpired lease stays what the lock file says iff no step clobbers. */
  lemma {:induction false} SoundThroughoutIffUnclobbered(states: seq<State>, events: seq<Event>)
    requires Run(states, events)
    ensures (forall i :: 0 <= i < |states| ==> Sound(states[i])) <==> Unclobbered(states, events)
  {
    if Unclobbered(states, events) {
      forall i | 0 <= i < |states| ensures Sound(states[i]) {
        UnclobberedKeepsBacked(states, events, i);
      }
    }
    if forall i :: 0 <= i < |states| ==> Sound(states[i]) {
      forall j | 0 <= j < |events| ensures !Clobbers(states[j], events[j]) {
        RunKeepsMirrored(states, events, j);
        StepKeepsBackedIff(states[j], events[j]);
        assert Sound(states[j + 1]);
      }
    }
  }

  /** Mutual exclusion: throughout an unclobbered run, no target has two unexpired holders. */
  lemma {:induction false} UnclobberedRunIsExclusive(states: seq<State>, events: seq<Event>)
    requires Run(states, events) && Unclobbered(states, events)
    ensures forall i :: 0 <= i < |states| ==> Exclusive(states[i].leases, states[i].clock)
  {
    forall i | 0 <= i < |states| ensures Exclusive(states[i].leases, states[i].clock) {
      UnclobberedKeepsBacked(states, events, i);
      BackedIsExclusive(states[i].files, states[i].leases, states[i].clock);
    }
  }

  /** A clobbering write gives the target a second holder at once, unless what it writes has run out already. */
  lemma {:induction false} ClobberingWriteBreaksExclusion(s: State, e: Event)
    requires Enabled(s, e) && Mirrored(s) && Clobbers(s, e)
    requires Act(s.windows[e.proc], e.checked, e.now).Write?
    requires Act(s.windows[e.proc], e.checked, e.now).record.expiresAt > s.clock
    ensures !Exclusive(Step(s, e).leases, Step(s, e).clock)
  {
    var command, s' := s.windows[e.proc].command, Step(s, e);
    var holder := s.files[command.target].session;
    assert (command.target, holder) in s'.leases && (command.target, command.options.session) in s'.leases;
  }

  /**
   * A clobbering removal, or a clobbering write of a lease that has run out already, leaves the target
   * open: the next acquire by anyone but the session that was clobbered makes a second holder.
   */
  lemma {:induction false} ClobberingOpensTheTarget(s: State, e: Event, p: Proc, options: Options)
    requires Enabled(s, e) && Mirrored(s) && Clobbers(s, e)
    requires Act(s.windows[e.proc], e.checked, e.now).Write? ==>
               Act(s.windows[e.proc], e.checked, e.now).record.expiresAt <= s.clock
    requires p !in s.windows && options.Valid()
    requires options.session != s.files[s.windows[e.proc].command.target].session
    ensures var begin := Begin(p, Session(Acquire, s.windows[e.proc].command.target, options));
            var finish := Finish(p, s.clock, s.clock);
            && Enabled(Step(s, e), begin) && Enabled(Step(Step(s, e), begin), finish)
            && var end := Step(Step(Step(s, e), begin), finish); !Exclusive(end.leases, end.clock)
  {
    var target := s.windows[e.proc].command.target;
    var holder := s.files[target].session;
    var s1 := Step(s, e);
    var s2 := Step(s1, Begin(p, Session(Acquire, target, options)));
    assert s2.windows[p].seen.Some? ==> Stale(s2.windows[p].seen.value, s.clock);
    var s3 := Step(s2, Finish(p, s.clock, s.clock));
    assert (target, holder) in s3.leases && s3.leases[(target, holder)] > s3.clock;
    assert (target, options.session) in s3.leases && s3.leases[(target, options.session)] > s3.clock;
  }

  // ---- When no write acts on an outdated reading --------------------------------------------

  /** A command changes the file although the file is no longer what the command read. */
  predicate Raced(s: State, e: Event) {
    && e.Finish? && e.proc in s.windows
    && var w := s.windows[e.proc];
       Act(w, e.checked, e.now) != Keep && w.seen != Read(s.files, w.command.target)
  }

  ghost predicate Unraced(states: seq<State>, events: seq<Event>)
    requires |states| == |events| + 1
  {
    forall i :: 0 <= i < |events| ==> !Raced(states[i], events[i])
  }

  /** Only an outdated reading can clobber: at the time of the reading the guard did hold. */
  lemma {:induction false} UnracedIsUnclobbered(states: seq<State>, events: seq<Event>)
    requires Run(states, events) && Unraced(states, events)
    ensures Unclobbered(states, events)
  {
    forall j | 0 <= j < |events| ensures !Clobbers(states[j], events[j]) {
      assert Enabled(states[j], events[j]) && !Raced(states[j], events[j]);
    }
  }

  lemma {:induction false} UnracedRunIsExclusive(states: seq<State>, events: seq<Event>)
    requires Run(states, events) && Unraced(states, events)
    ensures forall i :: 0 <= i < |states| ==> Exclusive(states[i].leases, states[i].clock)
  {
    UnracedIsUnclobbered(states, events);
    UnclobberedRunIsExclusive(states, events);
  }

  /** The converse fails: a session that refreshes its own lease on an outdated reading races and harms nobody. */
  lemma {:induction false} OwnRaceIsHarmless(s: State, e: Event)
    requires Enabled(s, e) && Sound(s) && Mirrored(s) && e.Finish?
    requires s.windows[e.proc].command.target in s.files
    requires ActsFor(s.windows[e.proc].command, s.files[s.windows[e.proc].command.target].session)
    ensures Sound(Step(s, e))
  {
    StepKeepsBackedIff(s, e);
  }

  // ---- When reads and writes on a target do not overlap -------------------------------------

  /** At most one command at a time is between read and write on each target. */
  ghost predicate Serial(s: State) {
    forall p, q ::
      p in s.windows && q in s.windows && s.windows[p].command.target == s.windows[q].command.target ==> p == q
  }

  ghost predicate UpToDate(s: State) {
    forall p :: p in s.windows ==> s.windows[p].seen == Read(s.files, s.windows[p].command.target)
  }

  lemma {:induction false} SerialRunIsUpToDate(states: seq<State>, events: seq<Event>, i: nat)
    requires Run(states, events) && i < |states|
    requires forall j :: 0 <= j < |states| ==> Serial(states[j])
    ensures UpToDate(states[i])
  {
    if i > 0 {
      SerialRunIsUpToDate(states, events, i - 1);
    }
  }

  /** Whole commands one after the other, or any interleaving without overlap on a target, is unraced. */
  lemma {:induction false} SerialRunIsUnraced(states: seq<State>, events: seq<Event>)
    requires Run(states, events)
    requires forall j :: 0 <= j < |states| ==> Serial(states[j])
    ensures Unraced(states, events)
  {
    forall i | 0 <= i < |events| ensures !Raced(states[i], events[i]) {
      SerialRunIsUpToDate(states, events, i);
    }
  }

  /** Short of a race, an unexpired record is changed by its own session only. */
  lemma {:induction false} ForeignStepLeavesRecord(s: State, e: Event, target: Target)
    requires Enabled(s, e) && !Raced(s, e)
    requires target in s.files && !Stale(s.files[target], s.clock)
    requires e.Finish? ==> !ActsFor(s.windows[e.proc].command, s.files[target].session)
    ensures Read(Step(s, e).files, target) == Some(s.files[target])
  {
  }

  // ---- When they do overlap -----------------------------------------------------------------

  /** Two sessions that both found a target free both come away believing that they hold it. */
  lemma {:induction false} OverlappingAcquiresBothWin(s: State, p: Proc, q: Proc)
    requires p != q && p in s.windows && q in s.windows
    requires s.windows[p].openedAt <= s.clock && s.windows[q].openedAt <= s.clock
    requires var a, b := s.windows[p].command, s.windows[q].command;
             && a.Session? && a.verb == Acquire && a.options.Valid()
             && b.Session? && b.verb == Acquire && b.options.Valid()
             && a.target == b.target && a.options.session != b.options.session
    requires s.windows[p].seen == None && s.windows[q].seen == None
    ensures var first, second := Finish(p, s.clock, s.clock), Finish(q, s.clock, s.clock);
            && Enabled(s, first) && Enabled(Step(s, first), second)
            && var end := Step(Step(s, first), second); !Exclusive(end.leases, end.clock)
  {
    var a, b := s.windows[p].command, s.windows[q].command;
    var end := Step(Step(s, Finish(p, s.clock, s.clock)), Finish(q, s.clock, s.clock));
    assert (a.target, a.options.session) in end.leases && (a.target, b.options.session) in end.leases;
  }

  /** From an empty directory four events of any two sessions lead there, so the condition cannot be dropped. */
  lemma {:induction false} RaceIsReachable(clock: int, a: Options, b: Options, target: Target)
    requires a.Valid() && b.Valid() && a.session != b.session
    ensures exists states: seq<State>, events: seq<Event> :: Run(states, events) && |events| == 4 &&
              !Exclusive(states[4].leases, states[4].clock)
  {
    var begin0, begin1 := Begin(0, Session(Acquire, target, a)), Begin(1, Session(Acquire, target, b));
    var s0 := Start(clock);
    var s1 := Step(s0, begin0);
    var s2 := Step(s1, begin1);
    OverlappingAcquiresBothWin(s2, 0, 1);
    var s3 := Step(s2, Finish(0, clock, clock));
    var s4 := Step(s3, Finish(1, clock, clock));
    var states := [s0, s1, s2, s3, s4];
    var events := [begin0, begin1, Finish(0, clock, clock), Finish(1, clock, clock)];
    assert Run(states, events) by {
      forall i | 0 <= i < |events|
        ensures Enabled(states[i], events[i]) && states[i + 1] == Step(states[i], events[i])
      {
      }
    }
  }
}
