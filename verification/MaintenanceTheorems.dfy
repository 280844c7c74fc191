/** What the maintenance window promises, over every run. */
module MaintenanceTheorems {
  import opened Common
  import opened MaintenanceState
  import opened MaintenanceThrottle
  import opened MaintenanceSafety
  import opened MaintenanceRuns

  const FROM_HOME := Anchor(true, None, false)

  /** A site as the panel finds it before its first window: sealed, no window, no history. */
  ghost predicate Pristine(w: World) {
    && SealedShut(w.disk) && w.disk.row.security.window == None && w.latch == CLEAR
    && w.disk.row.security.minutes in {0, 3, 5, 10}
    && w.disk.row.security.failures == [] && w.disk.row.security.failedRequests == []
    && w.disk.row.security.frozenUntil == 0 && w.disk.book.failed == []
  }

  lemma PristineInv(w: World, clock: int)
    requires Pristine(w)
    ensures Inv(w, clock, FROM_HOME)
  {
    assert Retains([], [], [], clock);
    assert SameTimes([], []);
  }

  /** Safety over every run: whenever no window is on disk, the tree is sealed in the
      mode the row names and the row says so. */
  lemma TreeOpenOnlyUnderWindow(w: World, ms: seq<Move>, clock: int)
    requires Pristine(w) && Possible(ms, clock)
    ensures var d := Run(w, ms).disk; d.row.security.window == None ==> SealedShut(d)
  {
    PristineInv(w, clock);
    hide Run, Possible, Kept, End;
    RunSound(w, ms, clock, true);
  }

  /** `Status` never says "locked" over a tree that is not, whatever state the site started in. */
  lemma StatusIsHonest(w: World, ms: seq<Move>, clock: int, now: int)
    requires Inv(w, clock, Anchor(false, None, false)) && Possible(ms, clock)
    ensures
      var v := Run(w, ms); Status(v, now) == ShowLocked ==> v.disk.tree == Sealed(v.disk.row.mode) && v.disk.row.locked
  {
    hide Run, Possible, Kept, Accounted, End;
    RunSound(w, ms, clock, false);
  }

  /** While an operation runs over an open window, every durable state either still
      holds that window, with the mode recorded when it opened, or holds none and the
      tree has been verified in that mode. */
  lemma ClosedOnlyWhenVerified(w: World, op: Op, clock: int, end: int, d: Disk)
    requires Inv(w, clock, Anchor(false, None, false)) && Timely(op, clock, end)
    requires w.disk.row.security.window.Some?
    requires d in Act(w, op).trail || d == Act(w, op).disk
    ensures var v := w.disk.row.security.window.value;
      match d.row.security.window
      case Some(u) => SameWindow(u, v)
      case None =>
        && d.tree == Sealed(v.mode) && d.row.mode == v.mode && d.row.locked && d.row.status == Ready
        && d.row.security.closed == v.id
  {
    hide Act, Kept;
    var a := Anchor(false, w.disk.row.security.window, false);
    assert Inv(w, clock, a);
    ActSound(w, op, clock, end, a);
    SoundOf(Apply(w, Move(op, end, None)), end, a);
  }

  /** The deadlines of an unlocked window add up, in every reachable state. */
  lemma DeadlinesAddUp(w: World, ms: seq<Move>, clock: int)
    requires Pristine(w) && Possible(ms, clock)
    requires Run(w, ms).disk.row.security.window.Some?
    ensures var d := Run(w, ms).disk; var v, b := d.row.security.window.value, d.book;
      && v.revision == |b.extensions|
      && v.verifiedUntil == v.started + 1800 * b.verified
      && (v.state == Unlocked ==>
            b.granted.Some? && v.expires == v.started + 60 * (b.granted.value + Sum(b.extensions)))
      && (b.granted.Some? ==> v.expires <= v.verifiedUntil)
  {
    PristineInv(w, clock);
    hide Run, Possible, Kept, End;
    RunSound(w, ms, clock, true);
  }

  /** Over every run, at most five password failures are recorded in any half-open
      interval of 600 seconds, and a request id is recorded again only after 600 seconds. */
  lemma PasswordIsThrottled(w: World, ms: seq<Move>, clock: int, i: nat, j: nat)
    requires Pristine(w) && Possible(ms, clock)
    requires i < j < |Run(w, ms).disk.book.failed|
    ensures var h := Run(w, ms).disk.book.failed;
      && (i + 5 <= j ==> h[j].at - h[i].at >= 600)
      && (h[i].id == h[j].id ==> h[j].at - h[i].at >= 600)
  {
    PristineInv(w, clock);
    RunSound(w, ms, clock, true);
    var h := Run(w, ms).disk.book.failed;
    if i + 5 <= j { AtMostFive(h, i, j); }
  }

  /** Over every run: when a freeze that is in force in a reachable state is over, nothing
      is left to count, so the next wrong password is the first and does not freeze again. */
  lemma FreezeForgets(w: World, ms: seq<Move>, clock: int, l: Latch, password: string, id: string, now: int)
    requires Pristine(w) && Possible(ms, clock)
    requires End(ms, clock) < Run(w, ms).disk.row.security.frozenUntil <= now
    ensures var s := Run(w, ms).disk.row.security;
      RecentStamps(s.failures, |s.failures|, now) == []
    ensures var d := Run(w, ms).disk; var s := d.row.security;
      password != "" && s.secret != Some(password) && !Replayed(s.failedRequests, id, now) ==>
        var r := CheckPassword(d, l, Draft(Loaded(s), s, d.book), password, id, now, Acked);
        r.result == Validation && r.disk.row.security.failures == [now]
  {
    PristineInv(w, clock);
    hide Run, Possible, Kept, End;
    RunSound(w, ms, clock, true);
    var d := Run(w, ms).disk;
    var s := d.row.security;
    FreezeClears(s.failures, s.failedRequests, s.frozenUntil, d.book.failed, End(ms, clock), now);
  }

  // ----- a doomed window can only be closed -----

  /** Some state along the run has no window. */
  ghost predicate ClosedAlong(w: World, ms: seq<Move>)
    decreases |ms|
  {
    w.disk.row.security.window == None || (|ms| > 0 && ClosedAlong(Apply(w, ms[0]), ms[1..]))
  }

  /** A window that survived a restart, or whose site is uncertain, is never extended or
      reused: until it is closed, every later state holds the same grant, still doomed. */
  lemma {:induction false} DoomedUntilClosed(w: World, ms: seq<Move>, clock: int, v: Window)
    requires Inv(w, clock, Anchor(false, Some(v), true)) && Possible(ms, clock)
    ensures ClosedAlong(w, ms) || (
      var u := Run(w, ms);
      u.disk.row.security.window.Some? && SameWindow(u.disk.row.security.window.value, v)
      && SameGrant(u.disk.row.security.window.value, v) && Doomed(u))
    decreases |ms|
  {
    hide Apply, Kept, Accounted;
    if ms != [] && w.disk.row.security.window.Some? {
      ApplySound(w, ms[0], clock, Anchor(false, Some(v), true));
      DoomedUntilClosed(Apply(w, ms[0]), ms[1..], ms[0].end, v);
    }
  }

  lemma DoomedIsFrozen(w: World, clock: int)
    requires Inv(w, clock, Anchor(false, None, false)) && w.disk.row.security.window.Some? && Doomed(w)
    ensures Inv(w, clock, Anchor(false, w.disk.row.security.window, true))
  {
    hide Kept, Accounted;
  }

  // ----- repair -----

  /** One `Tick`: the sweep, then the visit to this site. */
  function Tick(w: World, o: Write, e: VisitEnv): Outcome {
    Visit(Sweep(w, o), e)
  }

  ghost predicate Works(e: RelockEnv, mode: Mode) {
    && !e.sweepFirst && !e.sweepLater && e.intent == Acked && e.commit == Acked
    && e.lock.ok && e.lock.after == Sealed(mode) && e.verifyOk
  }

  /** From any state whose window must close, one `Tick` whose effects all succeed, not
      before the retry time, ends without a window, sealed, with the latches cleared. */
  lemma TickRepairs(w: World, e: VisitEnv)
    requires w.disk.row.security.window.Some?
    requires var v := w.disk.row.security.window.value;
      && v.root == w.disk.row.root && v.user == w.disk.row.user
      && !e.busy && e.loadOk && Works(e.relock, v.mode)
      && w.latch.retry <= e.relock.now && (!w.restarting ==> v.retryAt <= e.relock.now)
      && (w.restarting ==> 0 <= e.relock.now)
      && (Doomed(w) || v.expires <= e.check)
    ensures var v, o := w.disk.row.security.window.value, Tick(w, Acked, e);
      && o.result == Done && o.latch == CLEAR && o.disk.row.security.window == None
      && SealedShut(o.disk) && o.disk.row.mode == v.mode
      && Status(World(o.disk, o.latch, Sweep(w, Acked).restarting), e.check) == ShowLocked
  {
    hide RelockOwned;
    var s := Sweep(w, Acked);
    var stored := s.disk.row.security;
    RelockWorks(s.disk, s.latch, Draft(Loaded(stored), stored, s.disk.book), e.relock);
  }

  /** Relocking works when every effect does and the draft is what is on disk. */
  lemma RelockWorks(d: Disk, l: Latch, draft: Draft, e: RelockEnv)
    requires draft.state.window.Some? && draft.raw == d.row.security
    requires var v := draft.state.window.value;
      v.root == d.row.root && v.user == d.row.user && Works(e, v.mode) && l.retry <= e.now && v.retryAt <= e.now
    ensures var v, o := draft.state.window.value, RelockOwned(d, l, draft, e, false);
      && o.result == Done && o.latch == CLEAR && o.disk.row.security.window == None
      && SealedShut(o.disk) && o.disk.row.mode == v.mode
  {
  }

  /** A latch without a window is released by any `Tick` that can read the site again. */
  lemma TickReleases(w: World, e: VisitEnv)
    requires w.disk.row.security.window == None && w.latch.uncertain && !e.busy && e.loadOk
    ensures var o := Tick(w, Acked, e); o.disk == w.disk && o.latch == CLEAR
  {
  }

  /** The last accepted extension, sent again while the window is open, changes nothing and succeeds. */
  lemma ReplayedExtension(w: World, req: Request, e: ExtendEnv, again: ExtendEnv)
    requires Extend(w, req, e).result == Done && |Extend(w, req, e).trail| > 0
    requires !again.busy && again.loadOk
    requires var o := Extend(w, req, e);
      o.disk.row.security.window.Some? && again.seen < o.disk.row.security.window.value.expires
    ensures var o := Extend(w, req, e);
      Extend(World(o.disk, o.latch, w.restarting), req, again) == Outcome(o.disk, o.latch, Done, [])
  {
    hide CheckPassword, ValidId, CommitExtension;
    var stored := w.disk.row.security;
    var draft := Draft(Loaded(stored), stored, w.disk.book);
    var checked := CheckPassword(w.disk, w.latch, draft, req.password, req.requestId, e.tried, e.recordFailure);
    PasswordKeepsWindow(w.disk, w.latch, draft, req.password, req.requestId, e.tried, e.recordFailure);
    if draft.state.window.Some? {
      CommittedExtension(w.disk, w.latch, draft, req, false, e, []);
      if checked.result == Done {
        CommittedExtension(checked.disk, checked.latch, checked.draft, req, true, e, checked.trail);
      }
    }
  }

  lemma CommittedExtension(d: Disk, l: Latch, draft: Draft, req: Request, again: bool, e: ExtendEnv, trail: seq<Disk>)
    requires draft.state.window.Some?
    ensures var o := CommitExtension(d, l, draft, req, again, e, trail);
      o.result == Done ==> o.latch == l && o.disk.row == d.row.(security := Extended(draft, req, again).state)
  {
  }

  lemma PasswordKeepsWindow(d: Disk, l: Latch, draft: Draft, password: string, id: string, now: int, o: Write)
    ensures var r := CheckPassword(d, l, draft, password, id, now, o);
      r.result == Done ==>
        && r.latch == l && r.disk == d && r.draft.raw == draft.raw
        && r.draft.state == draft.state.(failedRequests := r.draft.state.failedRequests)
  {
  }
}
