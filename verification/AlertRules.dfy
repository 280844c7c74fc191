/**
 One alert rule: what it keeps in memory, its open rows and its runtime row in the
 database, and what a round of checks does to them when writes may fail and the
 process may die.  A round returns, besides the state after it, the database states
 it passes through and the runtime rows it wrote.
 */
module AlertRules {
  import opened Common

  datatype Rule = Rule(threshold: int, eventOnly: bool, sendRecovery: bool, resend: int)

  datatype Status = Normal | Pending | Firing

  datatype Row = Row(status: Status, pending: Option<int>, fired: Option<int>, message: string)

  /** `open`: how many unresolved rows the rule has in the alert log. */
  datatype Db = Db(open: nat, row: Option<Row>)

  datatype Memory = Memory(
    firing: bool, pending: Option<int>, fired: Option<int>, message: string,
    stateDirty: bool, resolutionDirty: bool, loaded: bool)

  /** A new process. */
  const BLANK := Memory(false, None, None, "", false, false, false)

  datatype State = State(m: Memory, db: Db)

  /** A runtime row that reached the table, and how many rows were open then. */
  datatype Event = Event(status: Status, open: nat)

  datatype Outcome = Outcome(s: State, trail: seq<Db>, events: seq<Event>)

  datatype Check = CheckNormal | CheckFiring(message: string) | CheckUnknown

  /** `pruned`: how many of the open rows are old enough to be deleted with a new entry. */
  datatype RoundEnv = RoundEnv(
    readOk: bool, retryResolve: Write, retryPersist: Write, enabled: bool, check: Check, now: int,
    logged: Write, pruned: nat, resolved: Write, persisted: Write)

  function Still(s: State): Outcome { Outcome(s, [], []) }

  // ----- writes -----

  function RowOf(m: Memory): Row {
    Row(if m.firing then Firing else if m.pending.Some? then Pending else Normal, m.pending, m.fired, m.message)
  }

  /** `logAlert`: one more open row, unless the insert is lost; failures go unnoticed. */
  function Log(s: State, o: Write, pruned: nat): State {
    var left := if pruned >= s.db.open then 0 else s.db.open - pruned;
    s.(db := s.db.(open := if o == Lost then left else left + 1))
  }

  function Resolve(s: State, o: Write): State {
    State(s.m.(resolutionDirty := o != Acked), if o == Lost then s.db else s.db.(open := 0))
  }

  /** `persistAlertRuntimeState`: a status other than firing waits until the open rows are known to be resolved. */
  function Persist(s: State, o: Write): Outcome {
    if s.m.resolutionDirty && !s.m.firing then Outcome(s.(m := s.m.(stateDirty := true)), [s.db], [])
    else
      var db := if o == Lost then s.db else s.db.(row := Some(RowOf(s.m)));
      var events := if o == Lost then [] else [Event(RowOf(s.m).status, s.db.open)];
      Outcome(State(s.m.(stateDirty := o != Acked), db), [db], events)
  }

  function After(trail: seq<Db>, o: Outcome): Outcome { o.(trail := trail + o.trail) }

  // ----- one check -----

  /** `sustainedFiring`: whether the condition has lasted, and since when it is pending. */
  function Sustained(rule: Rule, pending: Option<int>, firing: bool, now: int): (bool, Option<int>) {
    if !firing then (false, None)
    else if rule.threshold <= 0 then (true, pending)
    else if pending == None then (false, Some(now))
    else (now - pending.value >= rule.threshold, pending)
  }

  function Fire(s: State, message: string, e: RoundEnv): Outcome {
    var logged := Log(s.(m := s.m.(firing := true, fired := Some(e.now), message := message)), e.logged, e.pruned);
    After([logged.db], Persist(logged, e.persisted))
  }

  function Recover(rule: Rule, s: State, e: RoundEnv): Outcome {
    var calm := s.(m := s.m.(firing := false));
    var logged := if rule.sendRecovery then Log(calm, e.logged, e.pruned) else calm;
    var resolved := Resolve(logged, e.resolved);
    After((if rule.sendRecovery then [logged.db] else []) + [resolved.db], Persist(resolved, e.persisted))
  }

  function Continue(rule: Rule, s: State, message: string, e: RoundEnv): Outcome {
    var told := s.(m := s.m.(message := message));
    if s.m.fired.Some? && e.now - s.m.fired.value <= rule.resend then Still(told)
    else
      var logged := Log(told.(m := told.m.(fired := Some(e.now))), e.logged, e.pruned);
      After([logged.db], Persist(logged, e.persisted))
  }

  /** `processAlertCheckResult`. */
  function Process(rule: Rule, s: State, e: RoundEnv): Outcome {
    if e.check.CheckUnknown? || rule.eventOnly then Still(s)
    else
      var (firing, pending) := Sustained(rule, s.m.pending, e.check.CheckFiring?, e.now);
      var message := if e.check.CheckFiring? then e.check.message else "";
      var seen := s.(m := s.m.(pending := pending));
      if firing && !s.m.firing then Fire(seen, message, e)
      else if !firing && s.m.firing then Recover(rule, seen, e)
      else if firing then Continue(rule, seen, message, e)
      else if s.m.pending.Some? != pending.Some? || pending.Some? then Persist(seen, e.persisted)
      else Still(seen)
  }

  function Disable(rule: Rule, s: State, e: RoundEnv): Outcome {
    var quiet := s.(m := s.m.(firing := false, pending := None));
    if (!s.m.firing && s.m.pending == None) || rule.eventOnly then Still(quiet)
    else
      var resolved := Resolve(quiet, e.resolved);
      After([resolved.db], Persist(resolved, e.persisted))
  }

  // ----- one round -----

  /** `ensureAlertRuntimeStateLoaded`. */
  function Load(rule: Rule, s: State, readOk: bool): State {
    if s.m.loaded then s
    else if rule.eventOnly then s.(m := s.m.(loaded := true))
    else if !readOk then s
    else match s.db.row
      case None => s.(m := s.m.(loaded := true))
      case Some(row) =>
        s.(m := s.m.(firing := row.status == Firing, pending := row.pending, fired := row.fired, message := row.message,
                     loaded := true))
  }

  /** `retryDirtyAlertRuntimeState`. */
  function Retry(rule: Rule, s: State, e: RoundEnv): Outcome {
    if rule.eventOnly then Still(s)
    else
      var overdue := s.m.resolutionDirty && !s.m.firing;
      var resolved := if overdue then Resolve(s, e.retryResolve) else s;
      var states := if overdue then [resolved.db] else [];
      if resolved.m.stateDirty then After(states, Persist(resolved, e.retryPersist)) else Outcome(resolved, states, [])
  }

  function Round(rule: Rule, s: State, e: RoundEnv): Outcome {
    var ready := Load(rule, s, e.readOk);
    if !ready.m.loaded then Still(ready)
    else
      var first := Retry(rule, ready, e);
      var second := if e.enabled then Process(rule, first.s, e) else Disable(rule, first.s, e);
      Outcome(second.s, first.trail + second.trail, first.events + second.events)
  }

  // ----- memory and table -----

  ghost predicate Agrees(s: State) {
    match s.db.row
    case None => !s.m.firing && s.m.pending == None && s.m.fired == None
    case Some(row) => row.status == RowOf(s.m).status && row.pending == s.m.pending && row.fired == s.m.fired
  }

  /** The table is as some process left it. */
  ghost predicate TableOk(db: Db) {
    db.row.Some? ==>
      && (db.row.value.status == Pending ==> db.row.value.pending.Some?)
      && (db.row.value.status == Normal ==> db.row.value.pending == None)
  }

  /** When the state is not known to be unsaved, memory and table agree on status, pending and firing time. */
  ghost predicate Faithful(s: State) {
    && TableOk(s.db)
    && (s.m.loaded && !s.m.stateDirty ==> Agrees(s))
    && (!s.m.loaded ==> s.m == BLANK)
  }

  /** What memory must know before a status other than firing may be written. */
  ghost predicate Savable(s: State) { s.db.open > 0 ==> s.m.firing || s.m.resolutionDirty }

  /** Memory answers for the open rows.  A rule with a threshold may write "pending" at any
      time; one without writes a status other than firing only over a pending time it was
      loaded with, or to make up for a failed write. */
  ghost predicate Accounted(rule: Rule, s: State) {
    if !s.m.loaded || rule.threshold > 0 then s.m.loaded ==> Savable(s)
    else !s.m.firing && !s.m.resolutionDirty && (s.m.pending.Some? || s.m.stateDirty) ==> s.db.open == 0
  }

  ghost predicate Clean(events: seq<Event>) { forall e :: e in events ==> e.status == Firing || e.open == 0 }

  predicate NotPending(db: Db) { db.row.Some? ==> db.row.value.status != Pending }

  /** A rule without a threshold that has never been pending, in memory or in the table. */
  ghost predicate NeverPends(rule: Rule, s: State) {
    rule.threshold <= 0 && NotPending(s.db) && (s.m.pending.Some? ==> s.m.firing)
  }

  /** What every outcome of an operation on loaded state keeps: the table stays well formed
      and faithful; if memory answered for the open rows it still does and no status other
      than firing was written over open rows; and a rule that never pended still does not. */
  ghost predicate Keeps(rule: Rule, o: Outcome, accounted: bool, never: bool) {
    && o.s.m.loaded && Faithful(o.s) && (forall db :: db in o.trail ==> TableOk(db))
    && (accounted ==> Accounted(rule, o.s) && Clean(o.events))
    && (never ==> NeverPends(rule, o.s) && forall db :: db in o.trail ==> NotPending(db))
  }

  /** What a state must meet for an operation to keep all that. */
  ghost predicate Fit(rule: Rule, s: State, accounted: bool, never: bool) {
    s.m.loaded && Faithful(s) && (accounted ==> Accounted(rule, s)) && (never ==> NeverPends(rule, s))
  }

  lemma PersistKeeps(rule: Rule, s: State, o: Write, accounted: bool, never: bool)
    requires s.m.loaded && TableOk(s.db) && (accounted ==> Savable(s)) && (never ==> NeverPends(rule, s))
    ensures Keeps(rule, Persist(s, o), accounted, never)
  {
  }

  lemma AfterKeeps(rule: Rule, trail: seq<Db>, o: Outcome, accounted: bool, never: bool)
    requires Keeps(rule, o, accounted, never) && forall db :: db in trail ==> TableOk(db) && (never ==> NotPending(db))
    ensures Keeps(rule, After(trail, o), accounted, never)
  {
    hide Faithful, Accounted, Clean, TableOk, NotPending, NeverPends;
  }

  lemma ProcessKeeps(rule: Rule, s: State, e: RoundEnv, accounted: bool, never: bool)
    requires Fit(rule, s, accounted, never)
    ensures Keeps(rule, Process(rule, s, e), accounted, never)
  {
    hide Keeps, Persist, After;
    if !e.check.CheckUnknown? && !rule.eventOnly {
      var (firing, pending) := Sustained(rule, s.m.pending, e.check.CheckFiring?, e.now);
      var message := if e.check.CheckFiring? then e.check.message else "";
      var seen := s.(m := s.m.(pending := pending));
      if firing && !s.m.firing {
        var logged :=
          Log(seen.(m := seen.m.(firing := true, fired := Some(e.now), message := message)), e.logged, e.pruned);
        PersistKeeps(rule, logged, e.persisted, accounted, never);
        AfterKeeps(rule, [logged.db], Persist(logged, e.persisted), accounted, never);
      } else if !firing && s.m.firing {
        RecoverKeeps(rule, seen, e, accounted, never);
      } else if firing {
        ContinueKeeps(rule, s, message, e, accounted, never);
        assert seen == s;
      } else if s.m.pending.Some? != pending.Some? || pending.Some? {
        PersistKeeps(rule, seen, e.persisted, accounted, never);
      } else {
        assert seen == s;
        StillKeeps(rule, s, accounted, never);
      }
    } else {
      StillKeeps(rule, s, accounted, never);
    }
  }

  lemma StillKeeps(rule: Rule, s: State, accounted: bool, never: bool)
    requires Fit(rule, s, accounted, never)
    ensures Keeps(rule, Still(s), accounted, never)
  {
  }

  lemma RecoverKeeps(rule: Rule, s: State, e: RoundEnv, accounted: bool, never: bool)
    requires s.m.loaded && TableOk(s.db)
    requires never ==> rule.threshold <= 0 && NotPending(s.db) && s.m.pending == None
    ensures Keeps(rule, Recover(rule, s, e), accounted, never)
  {
    hide Keeps, Persist, After;
    var calm := s.(m := s.m.(firing := false));
    var logged := if rule.sendRecovery then Log(calm, e.logged, e.pruned) else calm;
    var resolved := Resolve(logged, e.resolved);
    PersistKeeps(rule, resolved, e.persisted, accounted, never);
    AfterKeeps(rule, (if rule.sendRecovery then [logged.db] else []) + [resolved.db], Persist(resolved, e.persisted),
        accounted, never);
  }

  lemma ContinueKeeps(rule: Rule, s: State, message: string, e: RoundEnv, accounted: bool, never: bool)
    requires s.m.firing && Fit(rule, s, accounted, never)
    ensures Keeps(rule, Continue(rule, s, message, e), accounted, never)
  {
    hide Keeps, Persist, After;
    var told := s.(m := s.m.(message := message));
    if s.m.fired.Some? && e.now - s.m.fired.value <= rule.resend {
      StillKeeps(rule, told, accounted, never);
    } else {
      var logged := Log(told.(m := told.m.(fired := Some(e.now))), e.logged, e.pruned);
      PersistKeeps(rule, logged, e.persisted, accounted, never);
      AfterKeeps(rule, [logged.db], Persist(logged, e.persisted), accounted, never);
    }
  }

  lemma DisableKeeps(rule: Rule, s: State, e: RoundEnv, accounted: bool, never: bool)
    requires Fit(rule, s, accounted, never) && !rule.eventOnly
    ensures Keeps(rule, Disable(rule, s, e), accounted, never)
  {
    hide Keeps, Persist, After;
    var quiet := s.(m := s.m.(firing := false, pending := None));
    if !s.m.firing && s.m.pending == None {
      assert quiet == s;
      StillKeeps(rule, s, accounted, never);
    } else {
      var resolved := Resolve(quiet, e.resolved);
      PersistKeeps(rule, resolved, e.persisted, accounted, never);
      AfterKeeps(rule, [resolved.db], Persist(resolved, e.persisted), accounted, never);
    }
  }

  lemma RetryKeeps(rule: Rule, s: State, e: RoundEnv, accounted: bool, never: bool)
    requires Fit(rule, s, accounted, never) && !rule.eventOnly
    ensures Keeps(rule, Retry(rule, s, e), accounted, never)
  {
    hide Persist, After;
    var resolved := if s.m.resolutionDirty && !s.m.firing then Resolve(s, e.retryResolve) else s;
    if resolved.m.stateDirty {
      PersistKeeps(rule, resolved, e.retryPersist, accounted, never);
      AfterKeeps(rule, if s.m.resolutionDirty && !s.m.firing then [resolved.db] else [],
          Persist(resolved, e.retryPersist), accounted, never);
    }
  }

  /** Every round keeps memory and table in step. */
  lemma RoundKeeps(rule: Rule, s: State, e: RoundEnv, accounted: bool, never: bool)
    requires Faithful(s) && !rule.eventOnly && (accounted ==> Accounted(rule, Load(rule, s, true)))
    requires never ==> NeverPends(rule, s)
    ensures var o := Round(rule, s, e);
      && Faithful(o.s) && (forall db :: db in o.trail ==> TableOk(db))
      && (accounted ==> Accounted(rule, Load(rule, o.s, true)) && Clean(o.events))
      && (never ==> NeverPends(rule, o.s) && forall db :: db in o.trail ==> NotPending(db))
  {
    hide Retry, Process, Disable;
    var ready := Load(rule, s, e.readOk);
    if ready.m.loaded {
      RetryKeeps(rule, ready, e, accounted, never);
      var first := Retry(rule, ready, e);
      if e.enabled {
        ProcessKeeps(rule, first.s, e, accounted, never);
      } else {
        DisableKeeps(rule, first.s, e, accounted, never);
      }
    }
  }

  // ----- runs -----

  /** One round; `crash == Some(k)`: the process dies after the k-th database state of the round. */
  datatype Step = Step(e: RoundEnv, crash: Option<nat>)

  function Apply(rule: Rule, s: State, step: Step): State {
    var o := Round(rule, s, step.e);
    match step.crash
    case None => o.s
    case Some(k) => State(BLANK, if 0 < k <= |o.trail| then o.trail[k - 1] else s.db)
  }

  function Run(rule: Rule, s: State, steps: seq<Step>): State
    decreases |steps|
  {
    if steps == [] then s else Run(rule, Apply(rule, s, steps[0]), steps[1..])
  }

  /** Everything that may have been written to the runtime table along the way. */
  function Events(rule: Rule, s: State, steps: seq<Step>): seq<Event>
    decreases |steps|
  {
    if steps == [] then []
    else Round(rule, s, steps[0].e).events + Events(rule, Apply(rule, s, steps[0]), steps[1..])
  }

  /** Over every run, memory and table agree on status, pending time and firing time
      whenever the state is not marked unsaved. */
  lemma {:induction false} RunFaithful(rule: Rule, s: State, steps: seq<Step>)
    requires Faithful(s) && !rule.eventOnly
    ensures Faithful(Run(rule, s, steps))
    decreases |steps|
  {
    hide Round;
    if steps != [] {
      RoundKeeps(rule, s, steps[0].e, false, false);
      RunFaithful(rule, Apply(rule, s, steps[0]), steps[1..]);
    }
  }

  /** A table from which a new process would sooner or later write over open rows: for a
      rule with a threshold, rows are open and the table does not say firing; for one
      without, rows are open and the table says pending. */
  predicate Orphan(rule: Rule, db: Db) {
    db.open > 0 && if rule.threshold > 0 then db.row == None || db.row.value.status != Firing else !NotPending(db)
  }

  ghost predicate NoOrphans(rule: Rule, s: State, steps: seq<Step>)
    decreases |steps|
  {
    steps != [] ==>
      && (steps[0].crash.Some? ==> !Orphan(rule, Apply(rule, s, steps[0]).db))
      && NoOrphans(rule, Apply(rule, s, steps[0]), steps[1..])
  }

  lemma LoadAccounts(rule: Rule, db: Db)
    requires !rule.eventOnly && TableOk(db)
    ensures Accounted(rule, Load(rule, State(BLANK, db), true)) <==> !Orphan(rule, db)
  {
  }

  /** A status other than firing is written only when no row is open, over every run in
      which no crash leaves an orphan. */
  lemma {:induction false} NotFiringOnlyWhenResolved(rule: Rule, s: State, steps: seq<Step>)
    requires Faithful(s) && !rule.eventOnly && Accounted(rule, Load(rule, s, true)) && NoOrphans(rule, s, steps)
    ensures Clean(Events(rule, s, steps))
    decreases |steps|
  {
    hide Round, Load, Accounted;
    if steps != [] {
      RoundKeeps(rule, s, steps[0].e, true, false);
      var next := Apply(rule, s, steps[0]);
      if steps[0].crash.Some? { LoadAccounts(rule, next.db); }
      NotFiringOnlyWhenResolved(rule, next, steps[1..]);
    }
  }

  /** No crash of a rule that never pends leaves an orphan. */
  lemma {:induction false} NeverPendsNoOrphans(rule: Rule, s: State, steps: seq<Step>)
    requires Faithful(s) && !rule.eventOnly && NeverPends(rule, s)
    ensures NoOrphans(rule, s, steps)
    decreases |steps|
  {
    hide Round, Faithful, TableOk;
    if steps != [] {
      RoundKeeps(rule, s, steps[0].e, false, true);
      BlankFaithful(s, steps[0], rule);
      NeverPendsNoOrphans(rule, Apply(rule, s, steps[0]), steps[1..]);
    }
  }

  lemma BlankFaithful(s: State, step: Step, rule: Rule)
    requires Faithful(s) && Faithful(Round(rule, s, step.e).s)
    requires forall db :: db in Round(rule, s, step.e).trail ==> TableOk(db)
    ensures Faithful(Apply(rule, s, step))
  {
    hide Round;
  }

  /** For a rule without a threshold the promise holds over every run, crashes at any state
      included and whatever rows are open at the start, if and only if the table does not
      say pending at the start. */
  lemma WithoutThresholdPromiseKept(rule: Rule, db: Db)
    requires !rule.eventOnly && rule.threshold <= 0 && TableOk(db)
    ensures (forall steps :: Clean(Events(rule, State(BLANK, db), steps))) <==> NotPending(db)
  {
    hide Events, Faithful;
    var s := State(BLANK, db);
    if NotPending(db) {
      BlankIsFaithful(db);
      LoadAccounts(rule, db);
      forall steps ensures Clean(Events(rule, s, steps)) {
        NeverPendsNoOrphans(rule, s, steps);
        NotFiringOnlyWhenResolved(rule, s, steps);
      }
    } else {
      var fire := Step(Working(CheckFiring(""), 0), Some(1));
      var steps := [fire, Step(Telltale(rule, db), None)];
      DiesWhileFiring(rule, db);
      var next := Apply(rule, s, fire);
      OrphanWritten(rule, next.db);
      hide Round, Apply;
      EventsOfTwo(rule, s, fire, steps[1]);
    }
  }

  lemma BlankIsFaithful(db: Db)
    requires TableOk(db)
    ensures Faithful(State(BLANK, db))
  {
  }

  /** A process without a threshold that finds a pending row, logs an alert and dies leaves an orphan. */
  lemma DiesWhileFiring(rule: Rule, db: Db)
    requires !rule.eventOnly && rule.threshold <= 0 && !NotPending(db) && TableOk(db)
    ensures var next := Apply(rule, State(BLANK, db), Step(Working(CheckFiring(""), 0), Some(1)));
      && next.m == BLANK && next.db == db.(open := db.open + 1) && Orphan(rule, next.db)
      && Telltale(rule, next.db) == Telltale(rule, db)
  {
  }

  lemma EventsOfTwo(rule: Rule, s: State, a: Step, b: Step)
    ensures Events(rule, s, [a, b]) == Round(rule, s, a.e).events + Round(rule, Apply(rule, s, a), b.e).events
  {
    hide Round, Apply;
    assert [a, b][1..] == [b];
    EventsOfOne(rule, Apply(rule, s, a), b);
  }

  ghost predicate NoCrash(steps: seq<Step>) { forall i :: 0 <= i < |steps| ==> steps[i].crash == None }

  lemma {:induction false} NoCrashNoOrphans(rule: Rule, s: State, steps: seq<Step>)
    requires NoCrash(steps)
    ensures NoOrphans(rule, s, steps)
    decreases |steps|
  {
    hide Apply, Round;
    if steps != [] { NoCrashNoOrphans(rule, Apply(rule, s, steps[0]), steps[1..]); }
  }

  function Working(check: Check, now: int): RoundEnv {
    RoundEnv(true, Acked, Acked, true, check, now, Acked, 0, Acked, Acked)
  }

  /** A check that makes a process that has just started write over open rows. */
  function Telltale(rule: Rule, db: Db): RoundEnv {
    Working(if db.row.Some? && db.row.value.pending.Some? then CheckNormal else CheckFiring(""), 0)
  }

  /** The exact condition for every rule: a new process keeps the promise, whatever happens
      until it dies, if and only if its table is not an orphan. */
  lemma PromiseKeptIffNoOrphan(rule: Rule, db: Db)
    requires !rule.eventOnly && TableOk(db)
    ensures (forall steps :: NoCrash(steps) ==> Clean(Events(rule, State(BLANK, db), steps))) <==> !Orphan(rule, db)
  {
    var s := State(BLANK, db);
    if !Orphan(rule, db) {
      forall steps | NoCrash(steps) ensures Clean(Events(rule, s, steps)) {
        LoadAccounts(rule, db);
        NoCrashNoOrphans(rule, s, steps);
        NotFiringOnlyWhenResolved(rule, s, steps);
      }
    } else {
      var steps := [Step(Telltale(rule, db), None)];
      OrphanWritten(rule, db);
      EventsOfOne(rule, s, steps[0]);
      assert NoCrash(steps);
    }
  }

  lemma EventsOfOne(rule: Rule, s: State, step: Step)
    ensures Events(rule, s, [step]) == Round(rule, s, step.e).events
  {
    hide Round, Apply;
    assert [step][1..] == [];
  }

  lemma OrphanWritten(rule: Rule, db: Db)
    requires !rule.eventOnly && Orphan(rule, db) && TableOk(db)
    ensures !Clean(Round(rule, State(BLANK, db), Telltale(rule, db)).events)
  {
    var o := Round(rule, State(BLANK, db), Telltale(rule, db));
    assert o.events[|o.events| - 1].status != Firing && o.events[|o.events| - 1].open > 0;
  }

  /** How an orphan comes about for a rule with a threshold: the process dies between the entry of the alert and the
      row that says the rule is firing; the next normal check is then written over it. */
  lemma CrashWhileFiring(rule: Rule)
    requires !rule.eventOnly && rule.threshold == 300
    ensures var steps := [Step(Working(CheckFiring("high"), 0), None), Step(Working(CheckFiring("high"), 300), Some(1)),
                          Step(Working(CheckNormal, 360), None)];
      Event(Normal, 1) in Events(rule, State(BLANK, Db(0, None)), steps)
  {
    var a := Step(Working(CheckFiring("high"), 0), None);
    var b := Step(Working(CheckFiring("high"), 300), Some(1));
    var c := Step(Working(CheckNormal, 360), None);
    var s0 := State(BLANK, Db(0, None));
    var s1 := Apply(rule, s0, a);
    assert s1.m == BLANK.(pending := Some(0), loaded := true) && s1.db == Db(0, Some(Row(Pending, Some(0), None, "")));
    var s2 := Apply(rule, s1, b);
    assert s2 == State(BLANK, Db(1, s1.db.row));
    assert Round(rule, s2, c.e).events == [Event(Normal, 1)];
    hide Round, Apply;
    EventsOfOne(rule, s2, c);
    assert [a, b, c][1..] == [b, c] && [b, c][1..] == [c];
    assert Events(rule, s1, [b, c]) == Round(rule, s1, b.e).events + Events(rule, s2, [c]);
    assert Events(rule, s0, [a, b, c]) == Round(rule, s0, a.e).events + Events(rule, s1, [b, c]);
  }

  /** One round in which every write works leaves nothing unsaved, whatever went wrong
      before; and when its check says nothing, it changes neither what is firing, nor what
      is pending, nor when the rule last fired. */
  lemma WorkingRoundSettles(rule: Rule, s: State, e: RoundEnv)
    requires s.m.loaded && Faithful(s) && !rule.eventOnly
    requires e.retryResolve == e.retryPersist == e.resolved == e.persisted == Acked
    ensures var o := Round(rule, s, e);
      && !o.s.m.stateDirty && Agrees(o.s) && (!o.s.m.firing ==> !o.s.m.resolutionDirty)
      && (e.enabled && e.check.CheckUnknown? ==>
            && o.s.m.firing == s.m.firing && o.s.m.pending == s.m.pending && o.s.m.fired == s.m.fired
            && (!s.m.stateDirty ==> o.s.db.row == s.db.row)
            && (s.m.firing || !s.m.resolutionDirty ==> o.s.db.open == s.db.open))
  {
    hide Process, Disable, Retry;
    RetrySettles(rule, s, e);
    var first := Retry(rule, s, e).s;
    ProcessSettles(rule, first, e);
    DisableSettles(rule, first, e);
    RoundKeeps(rule, s, e, false, false);
  }

  ghost predicate Settled(s: State) {
    s.m.loaded && !s.m.stateDirty && (!s.m.firing ==> !s.m.resolutionDirty)
  }

  lemma RetrySettles(rule: Rule, s: State, e: RoundEnv)
    requires s.m.loaded && !rule.eventOnly && e.retryResolve == e.retryPersist == Acked
    ensures var first := Retry(rule, s, e).s;
      && Settled(first) && first.m.firing == s.m.firing && first.m.pending == s.m.pending && first.m.fired == s.m.fired
      && (!s.m.stateDirty ==> first.db.row == s.db.row)
      && (s.m.firing || !s.m.resolutionDirty ==> first.db.open == s.db.open)
  {
  }

  lemma ProcessSettles(rule: Rule, s: State, e: RoundEnv)
    requires Settled(s) && e.resolved == e.persisted == Acked
    ensures Settled(Process(rule, s, e).s) && (e.check.CheckUnknown? ==> Process(rule, s, e) == Still(s))
  {
  }

  lemma DisableSettles(rule: Rule, s: State, e: RoundEnv)
    requires Settled(s) && e.resolved == e.persisted == Acked && !rule.eventOnly
    ensures Settled(Disable(rule, s, e).s)
  {
  }

  // ----- the rule as it runs -----

  class AlertRule {
    const rule: Rule
    var firing: bool
    var pendingSince: Option<int>
    var lastFired: Option<int>
    var lastAlertMsg: string
    var runtimeStateDirty: bool
    var resolutionDirty: bool
    var runtimeStateLoaded: bool
    var db: Db
    var trail: seq<Db>
    var events: seq<Event>

    ghost function Now(): State
      reads this
    {
      var m := Memory(firing, pendingSince, lastFired, lastAlertMsg, runtimeStateDirty, resolutionDirty,
                      runtimeStateLoaded);
      State(m, db)
    }

    /** The rule moved to where outcome o leaves it, through the same states and writes. */
    twostate predicate Moved(o: Outcome)
      reads this
    {
      Now() == o.s && trail == old(trail) + o.trail && events == old(events) + o.events
    }

    constructor (rule: Rule, db: Db)
      ensures this.rule == rule && Now() == State(BLANK, db) && trail == [] && events == []
    {
      this.rule, this.db := rule, db;
      firing, pendingSince, lastFired, lastAlertMsg := false, None, None, "";
      runtimeStateDirty, resolutionDirty, runtimeStateLoaded := false, false, false;
      trail, events := [], [];
    }

    method LogAlert(o: Write, pruned: nat)
      modifies this`db, this`trail
      ensures Now() == Log(old(Now()), o, pruned) && trail == old(trail) + [db]
    {
      var left: nat := if pruned >= db.open then 0 else db.open - pruned;
      db := db.(open := if o == Lost then left else left + 1);
      trail := trail + [db];
    }

    method ResolveOpenAlertRows(o: Write)
      modifies this`db, this`resolutionDirty, this`trail
      ensures Now() == Resolve(old(Now()), o) && trail == old(trail) + [db]
    {
      if o != Lost { db := db.(open := 0); }
      resolutionDirty := o != Acked;
      trail := trail + [db];
    }

    method PersistRuntimeState(o: Write)
      modifies this`db, this`runtimeStateDirty, this`trail, this`events
      ensures Moved(Persist(old(Now()), o))
    {
      if resolutionDirty && !firing {
        runtimeStateDirty := true;
        trail := trail + [db];
        return;
      }
      var status := if firing then Firing else if pendingSince.Some? then Pending else Normal;
      if o != Lost {
        db := db.(row := Some(Row(status, pendingSince, lastFired, lastAlertMsg)));
        events := events + [Event(status, db.open)];
      }
      runtimeStateDirty := o != Acked;
      trail := trail + [db];
    }

    method SustainedFiring(instant: bool, now: int) returns (lasting: bool)
      modifies this`pendingSince
      ensures (lasting, pendingSince) == Sustained(rule, old(pendingSince), instant, now)
    {
      if rule.threshold <= 0 {
        if !instant { pendingSince := None; }
        return instant;
      }
      if !instant {
        pendingSince := None;
        return false;
      }
      if pendingSince == None {
        pendingSince := Some(now);
        return false;
      }
      lasting := now - pendingSince.value >= rule.threshold;
    }

    method FireAlert(message: string, e: RoundEnv)
      modifies this
      ensures Moved(Fire(old(Now()), message, e))
    {
      firing, lastFired, lastAlertMsg := true, Some(e.now), message;
      LogAlert(e.logged, e.pruned);
      PersistRuntimeState(e.persisted);
    }

    method RecoverAlert(e: RoundEnv)
      modifies this
      ensures Moved(Recover(rule, old(Now()), e))
    {
      hide Log, Resolve, Persist;
      firing := false;
      if rule.sendRecovery {
        LogAlert(e.logged, e.pruned);
      }
      ResolveOpenAlertRows(e.resolved);
      PersistRuntimeState(e.persisted);
    }

    method ContinueAlert(message: string, e: RoundEnv)
      modifies this
      ensures Moved(Continue(rule, old(Now()), message, e))
    {
      lastAlertMsg := message;
      if lastFired == None || e.now - lastFired.value > rule.resend {
        lastFired := Some(e.now);
        LogAlert(e.logged, e.pruned);
        PersistRuntimeState(e.persisted);
      }
    }

    /** `processAlertCheckResult`. */
    method ProcessCheck(e: RoundEnv)
      modifies this
      ensures Moved(Process(rule, old(Now()), e))
    {
      hide Fire, Recover, Continue, Persist, Sustained;
      if e.check.CheckUnknown? || rule.eventOnly { return; }
      var wasPending := pendingSince.Some?;
      var message := if e.check.CheckFiring? then e.check.message else "";
      var lasting := SustainedFiring(e.check.CheckFiring?, e.now);
      if lasting && !firing {
        FireAlert(message, e);
      } else if !lasting && firing {
        RecoverAlert(e);
      } else if lasting {
        ContinueAlert(message, e);
      } else if wasPending != pendingSince.Some? || pendingSince.Some? {
        PersistRuntimeState(e.persisted);
      }
    }

    /** `disableAlertRule`. */
    method DisableRule(e: RoundEnv)
      modifies this
      ensures Moved(Disable(rule, old(Now()), e))
    {
      var wasActive := firing || pendingSince.Some?;
      firing, pendingSince := false, None;
      if !wasActive || rule.eventOnly { return; }
      ResolveOpenAlertRows(e.resolved);
      PersistRuntimeState(e.persisted);
    }

    method EnsureLoaded(readOk: bool) returns (ok: bool)
      modifies this
      ensures Now() == Load(rule, old(Now()), readOk) && ok == runtimeStateLoaded
      ensures trail == old(trail) && events == old(events)
    {
      if runtimeStateLoaded { return true; }
      if rule.eventOnly {
        runtimeStateLoaded := true;
        return true;
      }
      if !readOk { return false; }
      if db.row.Some? {
        var row := db.row.value;
        firing, pendingSince, lastFired, lastAlertMsg := row.status == Firing, row.pending, row.fired, row.message;
      }
      runtimeStateLoaded := true;
      ok := true;
    }

    method RetryDirty(e: RoundEnv)
      modifies this
      ensures Moved(Retry(rule, old(Now()), e))
    {
      if rule.eventOnly { return; }
      if resolutionDirty && !firing {
        ResolveOpenAlertRows(e.retryResolve);
      }
      if runtimeStateDirty {
        PersistRuntimeState(e.retryPersist);
      }
    }

    /** What `runChecks` does with one rule. */
    method RunCheck(e: RoundEnv)
      modifies this
      ensures Moved(Round(rule, old(Now()), e))
    {
      hide Retry, Process, Disable;
      var ready := EnsureLoaded(e.readOk);
      if !ready { return; }
      RetryDirty(e);
      if e.enabled {
        ProcessCheck(e);
      } else {
        DisableRule(e);
      }
    }
  }
}
