/**
 When an alert fires and when it speaks up again, on the history of its checks: a process
 starts on any table and runs for any number of rounds in which writes may fail.  The clock
 does not run backwards.
 */
module AlertTiming {
  import opened Common
  import opened AlertRules

  /** The state after the first n rounds. */
  function StateAfter(rule: Rule, s: State, es: seq<RoundEnv>, n: nat): State
    requires n <= |es|
  {
    if n == 0 then s else Round(rule, StateAfter(rule, s, es, n - 1), es[n - 1]).s
  }

  function StepsFrom(es: seq<RoundEnv>, i: nat): seq<Step>
    requires i <= |es|
  {
    seq(|es| - i, k requires 0 <= k < |es| - i => Step(es[i + k], None))
  }

  /** These are the states of a run without crashes. */
  lemma {:induction false} RunIsStateAfter(rule: Rule, s: State, es: seq<RoundEnv>, i: nat)
    requires i <= |es|
    ensures Run(rule, StateAfter(rule, s, es, i), StepsFrom(es, i)) == StateAfter(rule, s, es, |es|)
    decreases |es| - i
  {
    hide Round;
    if i < |es| {
      assert StepsFrom(es, i)[1..] == StepsFrom(es, i + 1);
      RunIsStateAfter(rule, s, es, i + 1);
    }
  }

  /** A new process on the table it finds, after n rounds. */
  function At(rule: Rule, db: Db, es: seq<RoundEnv>, n: nat): State
    requires n <= |es|
  {
    StateAfter(rule, State(BLANK, db), es, n)
  }

  /** What round k starts from, the stored state read where it was not yet. */
  function Found(rule: Rule, db: Db, es: seq<RoundEnv>, k: nat): State
    requires k < |es|
  {
    Load(rule, At(rule, db, es, k), es[k].readOk)
  }

  // ----- the history of checks -----

  /** Since when the table says that the condition holds. */
  function Left(db: Db): Option<int> { if db.row.Some? then db.row.value.pending else None }

  ghost predicate ClockRuns(db: Db, es: seq<RoundEnv>) {
    && (forall i, j :: 0 <= i < j < |es| ==> es[i].now <= es[j].now)
    && (Left(db).Some? ==> forall i :: 0 <= i < |es| ==> Left(db).value <= es[i].now)
  }

  /** By round i the stored state could be read. */
  ghost predicate Ready(es: seq<RoundEnv>, i: nat) { exists j :: 0 <= j <= i && j < |es| && es[j].readOk }

  /** Round i saw the condition. */
  ghost predicate Sees(es: seq<RoundEnv>, i: nat) {
    i < |es| && Ready(es, i) && es[i].enabled && es[i].check.CheckFiring?
  }

  /** Round i saw that there is no such condition, or the rule was disabled. */
  ghost predicate Calms(es: seq<RoundEnv>, i: nat) {
    i < |es| && Ready(es, i) && (!es[i].enabled || es[i].check.CheckNormal?)
  }

  /** From round j on, nothing before round n calmed it. */
  ghost predicate Unbroken(es: seq<RoundEnv>, j: nat, n: nat) { forall i: nat :: j <= i < n ==> !Calms(es, i) }

  /** Round k sees the condition, which held for `threshold` seconds: an earlier round saw it, or the process
      found it pending in the table, and nothing has calmed it since. */
  ghost predicate Lasted(es: seq<RoundEnv>, left: Option<int>, k: nat, threshold: int) {
    && Sees(es, k)
    && (|| (exists j: nat :: Earlier(es, j, k) && es[k].now - es[j].now >= threshold)
        || (left.Some? && Unbroken(es, 0, k) && es[k].now - left.value >= threshold))
  }

  ghost predicate Earlier(es: seq<RoundEnv>, j: nat, k: nat) { j < k && Sees(es, j) && Unbroken(es, j, k) }

  /** Round j is the first of them. */
  ghost predicate Begins(es: seq<RoundEnv>, j: nat, n: nat) {
    Earlier(es, j, n) && forall i: nat :: i < j ==> !Earlier(es, i, n)
  }

  ghost predicate PendingSince(es: seq<RoundEnv>, left: Option<int>, n: nat, pending: Option<int>) {
    if left.Some? && Unbroken(es, 0, n) then pending == left
    else match pending
      case None => forall j: nat :: !Earlier(es, j, n)
      case Some(t) => exists j: nat :: Begins(es, j, n) && es[j].now == t
  }

  // ----- one round of a rule that is loaded -----

  ghost predicate Moves(rule: Rule, r: Memory, m: Memory, e: RoundEnv) {
    && m.loaded
    && (!e.enabled ==> !m.firing && m.pending == None)
    && (e.enabled && e.check.CheckNormal? ==> !m.firing && m.pending == None)
    && (e.enabled && e.check.CheckUnknown? ==> m.firing == r.firing && m.pending == r.pending)
    && (e.enabled && e.check.CheckFiring? && rule.threshold <= 0 ==> m.firing)
    && (e.enabled && e.check.CheckFiring? && rule.threshold > 0 ==>
          && m.pending == Some(if r.pending == None then e.now else r.pending.value)
          && (m.firing <==> r.pending.Some? && e.now - r.pending.value >= rule.threshold))
  }

  /** An entry is due: the rule fires, or it still does and was not logged for more than `resend` seconds. */
  ghost predicate Due(rule: Rule, r: Memory, m: Memory, e: RoundEnv) {
    m.firing && (r.firing ==> e.check.CheckFiring? && (r.fired == None || e.now - r.fired.value > rule.resend))
  }

  /** The open rows: entries are added when they are due and on recovery, and resolved when the rule stops. */
  ghost predicate Rows(rule: Rule, r: State, s: State, e: RoundEnv) {
    var kept := if r.m.resolutionDirty && !r.m.firing && e.retryResolve != Lost then 0 else r.db.open;
    var added := (if e.pruned >= kept then 0 else kept - e.pruned) + (if e.logged == Lost then 0 else 1);
    && s.m.fired == (if Due(rule, r.m, s.m, e) then Some(e.now) else r.m.fired)
    && (s.m.firing ==> s.db.open == if Due(rule, r.m, s.m, e) then added else kept)
    && (r.m.firing && !s.m.firing ==>
          s.db.open == if e.resolved != Lost then 0 else if rule.sendRecovery && e.enabled then added else kept)
    && (!r.m.firing && !s.m.firing ==>
          s.db.open == if !e.enabled && r.m.pending.Some? && e.resolved != Lost then 0 else kept)
  }

  lemma PersistMind(s: State, o: Write)
    ensures SameMind(s, Persist(s, o).s)
  {
  }

  ghost predicate SameMind(a: State, b: State) {
    && a.m.loaded == b.m.loaded && a.m.firing == b.m.firing && a.m.pending == b.m.pending && a.m.fired == b.m.fired
    && a.db.open == b.db.open
  }

  lemma RoundMoves(rule: Rule, s: State, e: RoundEnv)
    requires !rule.eventOnly && Load(rule, s, e.readOk).m.loaded
    ensures var r, o := Load(rule, s, e.readOk), Round(rule, s, e).s;
      Moves(rule, r.m, o.m, e) && Rows(rule, r, o, e)
  {
    hide Retry, Process, Disable, Moves, Rows;
    var ready := Load(rule, s, e.readOk);
    var first := Retry(rule, ready, e).s;
    RetryMind(rule, ready, e);
    if e.enabled { ProcessMoves(rule, ready, first, e); } else { DisableMoves(rule, ready, first, e); }
  }

  ghost predicate Retried(r: State, s: State, e: RoundEnv) {
    && r.m.loaded == s.m.loaded && r.m.firing == s.m.firing && r.m.pending == s.m.pending && r.m.fired == s.m.fired
    && s.db.open == if r.m.resolutionDirty && !r.m.firing && e.retryResolve != Lost then 0 else r.db.open
  }

  lemma RetryMind(rule: Rule, s: State, e: RoundEnv)
    requires !rule.eventOnly
    ensures Retried(s, Retry(rule, s, e).s, e)
  {
  }

  lemma ProcessMoves(rule: Rule, r: State, s: State, e: RoundEnv)
    requires !rule.eventOnly && s.m.loaded && e.enabled && Retried(r, s, e)
    ensures var o := Process(rule, s, e).s; Moves(rule, r.m, o.m, e) && Rows(rule, r, o, e)
  {
    hide Persist;
    if e.check.CheckUnknown? { return; }
    var (firing, pending) := Sustained(rule, s.m.pending, e.check.CheckFiring?, e.now);
    var message := if e.check.CheckFiring? then e.check.message else "";
    var seen := s.(m := s.m.(pending := pending));
    if firing && !s.m.firing {
      var fired := seen.(m := seen.m.(firing := true, fired := Some(e.now), message := message));
      PersistMind(Log(fired, e.logged, e.pruned), e.persisted);
    } else if !firing && s.m.firing {
      var calm := seen.(m := seen.m.(firing := false));
      PersistMind(Resolve(if rule.sendRecovery then Log(calm, e.logged, e.pruned) else calm, e.resolved), e.persisted);
    } else if firing {
      var told := seen.(m := seen.m.(message := message));
      PersistMind(Log(told.(m := told.m.(fired := Some(e.now))), e.logged, e.pruned), e.persisted);
    } else {
      PersistMind(seen, e.persisted);
    }
  }

  lemma DisableMoves(rule: Rule, r: State, s: State, e: RoundEnv)
    requires !rule.eventOnly && s.m.loaded && !e.enabled && Retried(r, s, e)
    ensures var o := Disable(rule, s, e).s; Moves(rule, r.m, o.m, e) && Rows(rule, r, o, e)
  {
    hide Persist;
    PersistMind(Resolve(s.(m := s.m.(firing := false, pending := None)), e.resolved), e.persisted);
  }

  // ----- one more round of history -----

  lemma NotReadyYet(es: seq<RoundEnv>, n: nat)
    requires n < |es|
    ensures Ready(es, n) <==> es[n].readOk || (n > 0 && Ready(es, n - 1))
  {
  }

  lemma UnbrokenOn(es: seq<RoundEnv>, n: nat)
    requires !Calms(es, n)
    ensures forall j: nat :: Unbroken(es, j, n + 1) <==> Unbroken(es, j, n)
  {
    hide Calms;
  }

  /** A round that neither sees nor calms changes nothing. */
  lemma Unmoved(es: seq<RoundEnv>, left: Option<int>, n: nat, pending: Option<int>)
    requires !Sees(es, n) && !Calms(es, n)
    ensures PendingSince(es, left, n + 1, pending) <==> PendingSince(es, left, n, pending)
  {
    UnbrokenOn(es, n);
    hide Sees, Calms, Unbroken;
    var m := n + 1;
    forall j: nat ensures Earlier(es, j, m) <==> Earlier(es, j, n) {}
    hide Earlier;
    forall j: nat ensures Begins(es, j, m) <==> Begins(es, j, n) {}
  }

  /** After a calm round nothing is pending. */
  lemma Calmed(es: seq<RoundEnv>, left: Option<int>, n: nat)
    requires Calms(es, n)
    ensures PendingSince(es, left, n + 1, None)
  {
    assert !Sees(es, n);
    hide Sees, Calms;
    var m := n + 1;
    forall j: nat ensures j <= n ==> !Unbroken(es, j, m) {}
  }

  lemma EarlierOn(es: seq<RoundEnv>, n: nat, m: nat)
    requires m == n + 1 && Sees(es, n) && !Calms(es, n)
    ensures Earlier(es, n, m) && forall j: nat :: j < n ==> (Earlier(es, j, m) <==> Earlier(es, j, n))
  {
    UnbrokenOn(es, n);
    hide Sees, Calms;
    assert Unbroken(es, n, m);
    hide Unbroken;
  }

  /** A round that sees the condition. */
  lemma Seen(es: seq<RoundEnv>, left: Option<int>, n: nat, pending: Option<int>)
    requires Sees(es, n) && PendingSince(es, left, n, pending)
    ensures PendingSince(es, left, n + 1, Some(if pending == None then es[n].now else pending.value))
  {
    assert !Calms(es, n);
    hide Calms, Unbroken, Earlier;
    UnbrokenOn(es, n);
    var m := n + 1;
    EarlierOn(es, n, m);
    hide Sees;
    if left.Some? && Unbroken(es, 0, n) { return; }
    if pending == None {
      assert Begins(es, n, m);
    } else {
      var j: nat :| Begins(es, j, n) && es[j].now == pending.value;
      EarlierIsBefore(es, j, n);
      assert Begins(es, j, m);
    }
  }

  lemma EarlierIsBefore(es: seq<RoundEnv>, j: nat, n: nat)
    requires Earlier(es, j, n)
    ensures j < n
  {
  }

  /** Before the stored state is read there is nothing but the table. */
  lemma NothingSeenYet(es: seq<RoundEnv>, left: Option<int>, n: nat)
    requires n <= |es| && (n == 0 || !Ready(es, n - 1))
    ensures PendingSince(es, left, n, left)
  {
    forall j: nat ensures j < n && Ready(es, j) ==> Ready(es, n - 1) {}
  }

  lemma {:induction false} LoadedWhenReady(rule: Rule, db: Db, es: seq<RoundEnv>, n: nat)
    requires n <= |es| && !rule.eventOnly
    ensures
      if n == 0 || !Ready(es, n - 1) then At(rule, db, es, n) == State(BLANK, db) else At(rule, db, es, n).m.loaded
    ensures n < |es| && Ready(es, n) ==> Found(rule, db, es, n).m.loaded
  {
    hide Retry, Process, Disable, Ready, Moves, Rows;
    if n < |es| { NotReadyYet(es, n); }
    if n > 0 {
      LoadedWhenReady(rule, db, es, n - 1);
      NotReadyYet(es, n - 1);
      if Ready(es, n - 1) { Steps(rule, db, es, n - 1); }
    }
  }

  /** What round k does. */
  lemma Steps(rule: Rule, db: Db, es: seq<RoundEnv>, k: nat)
    requires k < |es| && !rule.eventOnly && Found(rule, db, es, k).m.loaded
    ensures At(rule, db, es, k + 1).m.loaded
    ensures Moves(rule, Found(rule, db, es, k).m, At(rule, db, es, k + 1).m, es[k])
    ensures Rows(rule, Found(rule, db, es, k), At(rule, db, es, k + 1), es[k])
  {
    hide Retry, Process, Disable, Rows;
    RoundMoves(rule, At(rule, db, es, k), es[k]);
  }

  /** What is pending in memory tells the history. */
  lemma {:induction false} Remembers(rule: Rule, db: Db, es: seq<RoundEnv>, k: nat)
    requires k < |es| && !rule.eventOnly && rule.threshold > 0 && Ready(es, k)
    ensures PendingSince(es, Left(db), k, Found(rule, db, es, k).m.pending)
  {
    hide Retry, Process, Disable, PendingSince, Ready, Rows;
    LoadedWhenReady(rule, db, es, k);
    NotReadyYet(es, k);
    if k == 0 || !Ready(es, k - 1) {
      NothingSeenYet(es, Left(db), k);
    } else {
      var j := k - 1;
      Remembers(rule, db, es, j);
      LoadedWhenReady(rule, db, es, j);
      Steps(rule, db, es, j);
      if Calms(es, j) { Calmed(es, Left(db), j); }
      else if Sees(es, j) { Seen(es, Left(db), j, Found(rule, db, es, j).m.pending); }
      else { Unmoved(es, Left(db), j, Found(rule, db, es, j).m.pending); }
    }
  }

  lemma LastedIff(db: Db, es: seq<RoundEnv>, k: nat, pending: Option<int>, threshold: int)
    requires Sees(es, k) && ClockRuns(db, es) && PendingSince(es, Left(db), k, pending)
    ensures Lasted(es, Left(db), k, threshold) <==> pending.Some? && es[k].now - pending.value >= threshold
  {
    hide Calms, Ready;
    if !(Left(db).Some? && Unbroken(es, 0, k)) && pending.Some? {
      var j: nat :| Begins(es, j, k) && es[j].now == pending.value;
      forall i: nat ensures Earlier(es, i, k) ==> j <= i {}
    }
  }

  // ----- the theorems -----

  /** When a rule fires: with a threshold it is made firing exactly when it was not, the condition is seen, and it
      has held for that long; without one as soon as the condition is seen.  It goes on firing until it is calmed;
      a check without an answer changes nothing. */
  lemma FiresWhenItLasted(rule: Rule, db: Db, es: seq<RoundEnv>, k: nat)
    requires k < |es| && !rule.eventOnly && ClockRuns(db, es)
    ensures var before, after := Found(rule, db, es, k).m.firing, At(rule, db, es, k + 1).m.firing;
      && (!before && after <==>
            !before && Sees(es, k) && (rule.threshold <= 0 || Lasted(es, Left(db), k, rule.threshold)))
      && (Calms(es, k) ==> !after)
      && (before && !after ==>
            Calms(es, k) || (rule.threshold > 0 && Sees(es, k) && !Lasted(es, Left(db), k, rule.threshold)))
  {
    hide Retry, Process, Disable, PendingSince, Rows, Lasted, ClockRuns;
    LoadedWhenReady(rule, db, es, k);
    NotReadyYet(es, k);
    if Ready(es, k) {
      Steps(rule, db, es, k);
      if Sees(es, k) && rule.threshold > 0 {
        Remembers(rule, db, es, k);
        LastedIff(db, es, k, Found(rule, db, es, k).m.pending, rule.threshold);
      }
    }
  }

  /** Round k logs an entry and the rule fires after it. */
  ghost predicate Logs(rule: Rule, db: Db, es: seq<RoundEnv>, k: nat)
    requires k < |es|
  {
    At(rule, db, es, k + 1).m.firing && At(rule, db, es, k + 1).db.open > Found(rule, db, es, k).db.open
  }

  /** The rule fires before and after each round from i to before n. */
  ghost predicate FiringFrom(rule: Rule, db: Db, es: seq<RoundEnv>, i: nat, n: nat)
    requires n <= |es|
  {
    forall x: nat :: i <= x < n ==> Found(rule, db, es, x).m.firing && At(rule, db, es, x + 1).m.firing
  }

  lemma FoundIsAt(rule: Rule, db: Db, es: seq<RoundEnv>, k: nat)
    requires k < |es| && At(rule, db, es, k).m.loaded
    ensures Found(rule, db, es, k) == At(rule, db, es, k)
  {
  }

  /** While a rule goes on firing it remembers when it logged last. */
  lemma {:induction false} RemembersEntry(rule: Rule, db: Db, es: seq<RoundEnv>, i: nat, n: nat)
    requires i < n <= |es| && !rule.eventOnly && ClockRuns(db, es) && Ready(es, i)
    requires Logs(rule, db, es, i) && FiringFrom(rule, db, es, i + 1, n)
    ensures var s := At(rule, db, es, n);
      && s.m.loaded && s.m.firing && s.m.fired.Some? && s.m.fired.value >= es[i].now
      && ((forall x: nat :: i < x < n ==> !Logs(rule, db, es, x) && es[x].logged != Lost && es[x].pruned == 0) ==>
            s.m.fired.value == es[i].now)
  {
    hide At, Found, Ready, Moves;
    LoadedWhenReady(rule, db, es, n - 1);
    assert Ready(es, n - 1) by { ReadyLater(es, i, n - 1); }
    Steps(rule, db, es, n - 1);
    if n > i + 1 {
      RemembersEntry(rule, db, es, i, n - 1);
      FoundIsAt(rule, db, es, n - 1);
    }
  }

  lemma ReadyLater(es: seq<RoundEnv>, i: nat, k: nat)
    requires i <= k && Ready(es, i)
    ensures Ready(es, k)
  {
  }

  /** A rule that goes on firing logs again only when more than `resend` seconds have passed since it did, and,
      unless entries are lost or pruned, as soon as the condition is seen then. */
  lemma SpeaksAgain(rule: Rule, db: Db, es: seq<RoundEnv>, i: nat, k: nat)
    requires i < k < |es| && !rule.eventOnly && ClockRuns(db, es) && Ready(es, i)
    requires Logs(rule, db, es, i) && FiringFrom(rule, db, es, i + 1, k + 1)
    ensures Logs(rule, db, es, k) ==> Sees(es, k) && es[k].now - es[i].now > rule.resend
    ensures (forall x: nat :: i < x <= k ==>
               (x < k ==> !Logs(rule, db, es, x)) && es[x].logged != Lost && es[x].pruned == 0) ==>
              (Logs(rule, db, es, k) <==> Sees(es, k) && es[k].now - es[i].now > rule.resend)
  {
    hide At, Found, Ready;
    RemembersEntry(rule, db, es, i, k);
    ReadyLater(es, i, k);
    LoadedWhenReady(rule, db, es, k);
    FoundIsAt(rule, db, es, k);
    Steps(rule, db, es, k);
  }

  /** A rule that is made firing opens a row, one that stops closes them all, however the writes before went. */
  lemma RowsFollow(rule: Rule, db: Db, es: seq<RoundEnv>, k: nat)
    requires k < |es| && !rule.eventOnly
    ensures var r, s, e := Found(rule, db, es, k), At(rule, db, es, k + 1), es[k];
      && (!r.m.firing && s.m.firing && e.logged != Lost && e.pruned == 0 ==>
            s.db.open == (if r.m.resolutionDirty && e.retryResolve != Lost then 0 else r.db.open) + 1)
      && (r.m.firing && !s.m.firing ==>
            if e.resolved != Lost then s.db.open == 0
            else if e.logged != Lost && e.pruned == 0 && rule.sendRecovery && e.enabled then s.db.open == r.db.open + 1
            else s.db.open <= r.db.open + 1)
  {
    hide Retry, Process, Disable, Moves;
    LoadedWhenReady(rule, db, es, k);
    NotReadyYet(es, k);
    if Ready(es, k) { Steps(rule, db, es, k); }
  }
}
