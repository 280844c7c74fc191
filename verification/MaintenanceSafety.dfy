/**
 What every operation of the maintenance window keeps, in every durable state it
 passes through: no tree is left open without a durable window, every committed
 grant is accounted for, and password failures are throttled.
 */
module MaintenanceSafety {
  import opened Common
  import opened MaintenanceState
  import opened MaintenanceThrottle

  /** What a proof is relative to.  `home`: the site was sealed when the run began.
      `origin`: the window that was open when the operation began.
      `frozen`: that window may only be closed. */
  datatype Anchor = Anchor(home: bool, origin: Option<Window>, frozen: bool)

  ghost predicate SameWindow(v: Window, w: Window) {
    && v.id == w.id && v.mode == w.mode && v.root == w.root && v.user == w.user && v.started == w.started
    && v.actor == w.actor
  }

  ghost predicate SameGrant(v: Window, w: Window) {
    && v.expires == w.expires && v.verifiedUntil == w.verifiedUntil
    && v.revision == w.revision && v.lastRequest == w.lastRequest && v.lastMinutes == w.lastMinutes
  }

  ghost predicate WindowOk(v: Window, a: Anchor) {
    a.origin.Some? ==> SameWindow(v, a.origin.value) && (a.frozen ==> SameGrant(v, a.origin.value))
  }

  /** The row says that the site is sealed, and it is, in the mode the row names. */
  ghost predicate SealedShut(d: Disk) {
    d.row.locked && d.row.status == Ready && d.tree == Sealed(d.row.mode)
  }

  ghost predicate Guarded(d: Disk, a: Anchor) {
    match d.row.security.window
    case Some(v) => WindowOk(v, a)
    case None =>
      && (a.home || a.origin.Some? ==> SealedShut(d))
      && (d.row.locked && d.row.status != Failed && d.row.status != Applying ==> d.tree == Sealed(d.row.mode))
      && (a.origin.Some? ==> d.row.mode == a.origin.value.mode && d.row.security.closed == a.origin.value.id)
  }

  function Sum(xs: seq<int>): int {
    if xs == [] then 0 else Sum(xs[..|xs| - 1]) + xs[|xs| - 1]
  }

  /** The stored deadlines are exactly what the committed grants add up to. */
  ghost predicate Accounted(window: Option<Window>, b: Book) {
    window.Some? ==>
      var v := window.value;
      && v.started >= 0
      && v.revision == |b.extensions|
      && b.verified >= 1
      && v.verifiedUntil == v.started + 1800 * b.verified
      && match b.granted
         case None => v.expires == 0 && v.state != Unlocked && b.extensions == []
         case Some(m) =>
           m in {3, 5, 10} && v.expires == v.started + 60 * (m + Sum(b.extensions)) && v.expires <= v.verifiedUntil
  }

  ghost predicate Throttled(s: Security, h: seq<FailedRequest>, clock: int) {
    Kept(s.failures, s.failedRequests, s.frozenUntil, h, clock)
  }

  ghost predicate MinutesOk(m: int) { m in {0, 3, 5, 10} }

  ghost predicate RecordOk(s: Security, b: Book, clock: int) {
    Accounted(s.window, b) && Throttled(s, b.failed, clock) && MinutesOk(s.minutes)
  }

  ghost predicate Sound(d: Disk, clock: int, a: Anchor) {
    Guarded(d, a) && RecordOk(d.row.security, d.book, clock)
  }

  ghost predicate AllSound(trail: seq<Disk>, clock: int, a: Anchor) {
    forall d :: d in trail ==> Sound(d, clock, a)
  }

  ghost predicate LatchOk(l: Latch) { !l.uncertain ==> l == CLEAR }

  /** A window that survived a restart, whose site is uncertain, or that left the open state. */
  ghost predicate Doomed(w: World) {
    w.disk.row.security.window.Some? ==>
      w.restarting || w.latch.uncertain || w.disk.row.security.window.value.state != Unlocked
  }

  ghost predicate Inv(w: World, clock: int, a: Anchor) {
    Sound(w.disk, clock, a) && LatchOk(w.latch) && (a.frozen ==> Doomed(w))
  }

  /** What an operation that started in a world with these flags must leave behind. */
  ghost predicate Leaves(o: Outcome, restarting: bool, clock: int, a: Anchor) {
    AllSound(o.trail, clock, a) && Inv(World(o.disk, o.latch, restarting), clock, a)
  }

  lemma SoundLater(d: Disk, clock: int, later: int, a: Anchor)
    requires Sound(d, clock, a) && clock <= later
    ensures Sound(d, later, a)
  {
    var s := d.row.security;
    KeptLater(s.failures, s.failedRequests, s.frozenUntil, d.book.failed, clock, later);
  }

  lemma AllSoundLater(trail: seq<Disk>, clock: int, later: int, a: Anchor)
    requires AllSound(trail, clock, a) && clock <= later
    ensures AllSound(trail, later, a)
  {
    hide Sound;
    forall d | d in trail ensures Sound(d, later, a) { SoundLater(d, clock, later, a); }
  }

  // ----- one write, one sweep -----

  ghost predicate DraftOk(draft: Draft, clock: int, a: Anchor) {
    && RecordOk(draft.state, draft.book, clock)
    && (draft.state.window.Some? ==> WindowOk(draft.state.window.value, a))
  }

  ghost predicate MayWrite(d: Disk, draft: Draft, file: FileState) {
    && (file == Keep ==>
          (draft.state.window.None? <==> draft.raw.window.None?) && draft.state.closed == draft.raw.closed)
    && (file != Keep ==> draft.state.window.Some?)
    && (file == ToLocked ==> d.tree == Sealed(draft.state.window.value.mode))
  }

  lemma DraftLater(draft: Draft, clock: int, later: int, a: Anchor)
    requires DraftOk(draft, clock, a) && clock <= later
    ensures DraftOk(draft, later, a)
  {
    var s := draft.state;
    KeptLater(s.failures, s.failedRequests, s.frozenUntil, draft.book.failed, clock, later);
  }

  lemma SaveSound(d: Disk, draft: Draft, file: FileState, o: Write, clock: int, a: Anchor)
    requires Sound(d, clock, a) && DraftOk(draft, clock, a) && MayWrite(d, draft, file)
    ensures Sound(Save(d, draft, file, o).disk, clock, a)
    ensures d.row.security.window.Some? && draft.state.window.Some? && file != ToLocked
            ==> Save(d, draft, file, o).disk.row.security.window.Some?
  {
    hide Kept;
  }

  lemma SweptSound(d: Disk, clock: int, a: Anchor)
    requires Sound(d, clock, a)
    ensures Sound(Swept(d), clock, a)
    ensures Swept(d).row.security.window.Some? <==> d.row.security.window.Some?
    ensures Swept(d).row.security.window.Some? ==> Swept(d).row.security.window.value.state == Relocking
    ensures Swept(d).tree == d.tree
  {
    hide Kept;
  }

  // ----- relocking -----

  lemma RelockFailureSound(d: Disk, draft: Draft, failure: Failure, later: int, report: Write, trail: seq<Disk>,
                           restarting: bool, clock: int, a: Anchor)
    requires draft.state.window.Some? && Sound(d, clock, a) && DraftOk(draft, clock, a) && AllSound(trail, clock, a)
    ensures Leaves(RelockFailure(d, draft, failure, later, report, trail), restarting, clock, a)
  {
    hide Kept;
    var v := draft.state.window.value;
    var late := v.(state := RelockFailed, retryAt := later + 60, failure := failure, alerted := true);
    var draft' := WithWindow(draft, late);
    SaveSound(d, draft', ToFailed, report, clock, a);
  }

  lemma CloseWindowSound(d: Disk, draft: Draft, e: RelockEnv, trail: seq<Disk>, restarting: bool, clock: int, a: Anchor)
    requires draft.state.window.Some? && d.row.security.window.Some?
    requires Sound(d, clock, a) && DraftOk(draft, clock, a) && AllSound(trail, clock, a)
    ensures Leaves(CloseWindow(d, draft, e, restarting, trail), restarting, clock, a)
  {
    hide Kept;
    SweptSound(d, clock, a);
    var swept := Interleaved(d, e.sweepLater, restarting);
    var after := swept.(tree := e.lock.after);
    var seen := trail + [swept, swept.(tree := e.lock.during), after];
    assert Sound(swept.(tree := e.lock.during), clock, a) && Sound(after, clock, a);
    if SealedNow(after, draft.state.window.value.mode, e.lock, e.verifyOk) {
      var s := Save(after, draft, ToLocked, e.commit);
      SaveSound(after, draft, ToLocked, e.commit, clock, a);
      if !s.ok {
        RelockFailureSound(s.disk, draft, StateCommit, e.later, e.report, seen + [s.disk], restarting, clock, a);
      }
    } else {
      RelockFailureSound(after, draft, Stage(e.lock), e.later, e.report, seen, restarting, clock, a);
    }
  }

  lemma RelockOwnedSound(d: Disk, l: Latch, draft: Draft, e: RelockEnv, restarting: bool, clock: int, a: Anchor)
    requires draft.state.window.Some? && d.row.security.window.Some? && DraftOk(draft, clock, a)
    requires Inv(World(d, l, restarting), clock, a)
    ensures Leaves(RelockOwned(d, l, draft, e, restarting), restarting, clock, a)
  {
    hide Kept, CloseWindow, Save, Swept;
    SweptSound(d, clock, a);
    var v := draft.state.window.value;
    var swept := Interleaved(d, e.sweepFirst, restarting);
    if !(v.retryAt > e.now || l.retry > e.now) && d.row.root == v.root && d.row.user == v.user {
      var intent := WithWindow(draft, v.(state := Relocking));
      var s := Save(swept, intent, ToRelocking, e.intent);
      SaveSound(swept, intent, ToRelocking, e.intent, clock, a);
      if s.ok {
        CloseWindowSound(s.disk, intent.(raw := s.raw), e, [swept, s.disk], restarting, clock, a);
      }
    }
  }

  // ----- password failures -----

  lemma FailedAttemptSound(draft: Draft, id: string, now: int, a: Anchor)
    requires DraftOk(draft, now, a) && draft.state.frozenUntil <= now && !Replayed(draft.state.failedRequests, id, now)
    ensures DraftOk(FailedAttempt(draft.(state := Trimmed(draft.state, now)), id, now), now, a)
  {
    hide History, HoldsRequests, HoldsTimes, FreezeDue, Fresh;
    var h, s := draft.book.failed, draft.state;
    FreshWhenNotReplayed(h, s.failedRequests, id, now);
    TrimKept(s.failures, s.failedRequests, s.frozenUntil, h, now);
    var stamps := RecentStamps(s.failures, |s.failures|, now) + [now];
    FailureKept(s.failures, Trimmed(s, now).failedRequests, s.frozenUntil, h, FailedRequest(id, now),
                stamps, if |stamps| >= 5 then now + 600 else s.frozenUntil);
  }

  /** Recording a failed attempt, whatever becomes of the write. */
  lemma AttemptSound(w: World, draft: Draft, id: string, now: int, o: Write, a: Anchor)
    requires Inv(w, now, a) && DraftOk(draft, now, a) && MayWrite(w.disk, draft, Keep)
    requires draft.state.window == w.disk.row.security.window
    requires draft.state.frozenUntil <= now && !Replayed(draft.state.failedRequests, id, now)
    ensures var d := Save(w.disk, FailedAttempt(draft.(state := Trimmed(draft.state, now)), id, now), Keep, o).disk;
      Sound(d, now, a) && (a.frozen ==> Doomed(World(d, w.latch, w.restarting)))
  {
    hide Kept, Accounted, Guarded;
    FailedAttemptSound(draft, id, now, a);
    SaveSound(w.disk, FailedAttempt(draft.(state := Trimmed(draft.state, now)), id, now), Keep, o, now, a);
  }

  lemma CheckPasswordSound(w: World, draft: Draft, password: string, id: string, now: int, o: Write, clock: int,
      a: Anchor)
    requires Inv(w, clock, a) && DraftOk(draft, clock, a) && clock <= now && MayWrite(w.disk, draft, Keep)
    requires draft.state.window == w.disk.row.security.window
    ensures var r := CheckPassword(w.disk, w.latch, draft, password, id, now, o);
      && AllSound(r.trail, now, a) && Inv(World(r.disk, r.latch, w.restarting), now, a)
      && (r.result == Done ==>
            && r.disk == w.disk && r.latch == w.latch && r.trail == []
            && r.draft == draft.(state := Trimmed(draft.state, now))
            && DraftOk(r.draft, now, a))
  {
    hide Kept, Save, FailedAttempt, Guarded, Accounted, Replayed;
    SoundLater(w.disk, clock, now, a);
    DraftLater(draft, clock, now, a);
    if draft.state.frozenUntil <= now && !Replayed(draft.state.failedRequests, id, now) {
      TrimKept(draft.state.failures, draft.state.failedRequests, draft.state.frozenUntil, draft.book.failed, now);
      AttemptSound(w, draft, id, now, o, a);
    }
  }
}
