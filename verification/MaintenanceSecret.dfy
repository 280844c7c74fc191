/** No operation but a change of the settings touches the password, in any state it passes through. */
module MaintenanceSecret {
  import opened Common
  import opened MaintenanceState
  import opened MaintenanceRuns

  ghost predicate DiskHas(d: Disk, x: Option<string>) { d.row.security.secret == x }

  ghost predicate DraftHas(draft: Draft, x: Option<string>) { draft.state.secret == draft.raw.secret == x }

  ghost predicate AllHave(trail: seq<Disk>, x: Option<string>) { forall d :: d in trail ==> DiskHas(d, x) }

  ghost predicate Has(o: Outcome, x: Option<string>) { DiskHas(o.disk, x) && AllHave(o.trail, x) }

  lemma SaveHas(d: Disk, draft: Draft, file: FileState, o: Write, x: Option<string>)
    requires DiskHas(d, x) && DraftHas(draft, x) && (file == ToLocked ==> draft.state.window.Some?)
    ensures DiskHas(Save(d, draft, file, o).disk, x) && Save(d, draft, file, o).raw.secret == x
  {
  }

  lemma SweptHas(d: Disk, sweep: bool, restarting: bool, x: Option<string>)
    requires DiskHas(d, x)
    ensures DiskHas(Interleaved(d, sweep, restarting), x) && DiskHas(Swept(d), x)
  {
  }

  lemma RelockFailureHas(d: Disk, draft: Draft, failure: Failure, later: int, report: Write, trail: seq<Disk>,
      x: Option<string>)
    requires draft.state.window.Some? && DiskHas(d, x) && DraftHas(draft, x) && AllHave(trail, x)
    ensures Has(RelockFailure(d, draft, failure, later, report, trail), x)
  {
  }

  lemma CloseWindowHas(d: Disk, draft: Draft, e: RelockEnv, restarting: bool, trail: seq<Disk>, x: Option<string>)
    requires draft.state.window.Some? && DiskHas(d, x) && DraftHas(draft, x) && AllHave(trail, x)
    ensures Has(CloseWindow(d, draft, e, restarting, trail), x)
  {
    hide Save, Swept, RelockFailure;
    SweptHas(d, e.sweepLater, restarting, x);
    var swept := Interleaved(d, e.sweepLater, restarting);
    var after := swept.(tree := e.lock.after);
    var seen := trail + [swept, swept.(tree := e.lock.during), after];
    SaveHas(after, draft, ToLocked, e.commit, x);
    var s := Save(after, draft, ToLocked, e.commit);
    RelockFailureHas(after, draft, Stage(e.lock), e.later, e.report, seen, x);
    RelockFailureHas(s.disk, draft, StateCommit, e.later, e.report, seen + [s.disk], x);
  }

  lemma RelockOwnedHas(d: Disk, l: Latch, draft: Draft, e: RelockEnv, restarting: bool, x: Option<string>)
    requires draft.state.window.Some? && DiskHas(d, x) && DraftHas(draft, x)
    ensures Has(RelockOwned(d, l, draft, e, restarting), x)
  {
    hide Save, Swept, CloseWindow;
    SweptHas(d, e.sweepFirst, restarting, x);
    var swept := Interleaved(d, e.sweepFirst, restarting);
    var intent := WithWindow(draft, draft.state.window.value.(state := Relocking));
    SaveHas(swept, intent, ToRelocking, e.intent, x);
    var s := Save(swept, intent, ToRelocking, e.intent);
    CloseWindowHas(s.disk, intent.(raw := s.raw), e, restarting, [swept, s.disk], x);
  }

  lemma CompensateHas(d: Disk, l: Latch, draft: Draft, e: CompensateEnv, trail: seq<Disk>, x: Option<string>)
    requires draft.state.window.Some? && DiskHas(d, x) && DraftHas(draft, x) && AllHave(trail, x)
    ensures Has(Compensate(d, l, draft, e, trail), x)
  {
    hide Save, RelockFailure;
    var after := d.(tree := e.lock.after);
    var seen := trail + [d.(tree := e.lock.during), after];
    SaveHas(after, WithWindow(draft, draft.state.window.value.(state := Unresolved, failure := NotCommitted)), ToFailed,
        e.report, x);
    RelockFailureHas(after, draft, Stage(e.lock), e.now, e.report, seen, x);
  }

  lemma LoosenHas(d: Disk, l: Latch, draft: Draft, e: UnlockEnv, trail: seq<Disk>, x: Option<string>)
    requires draft.state.window.Some? && DiskHas(d, x) && DraftHas(draft, x) && AllHave(trail, x)
    ensures Has(Loosen(d, l, draft, e, trail), x)
  {
    hide Save, Compensate, RelockOwned;
    var after := d.(tree := e.unlock.after);
    var seen := trail + [d.(tree := e.unlock.during), after];
    var v := draft.state.window.value;
    var open := WithWindow(draft, v.(state := Unlocked, expires := e.start + draft.state.minutes * 60))
                .(book := draft.book.(granted := Some(draft.state.minutes)));
    SaveHas(after, open, ToUnlocked, e.commit, x);
    var s := Save(after, open, ToUnlocked, e.commit);
    CompensateHas(after, l, draft, e.compensate, seen, x);
    CompensateHas(s.disk, l, open, e.compensate, seen + [s.disk], x);
    RelockOwnedHas(s.disk, l, open.(raw := s.raw), e.relock, false, x);
  }

  lemma CheckPasswordHas(d: Disk, l: Latch, draft: Draft, password: string, id: string, now: int, o: Write,
      x: Option<string>)
    requires DiskHas(d, x) && DraftHas(draft, x)
    ensures var r := CheckPassword(d, l, draft, password, id, now, o);
      DiskHas(r.disk, x) && AllHave(r.trail, x) && DraftHas(r.draft, x) && r.draft.state.window == draft.state.window
  {
    hide Save, Bytes, Replayed;
    SaveHas(d, FailedAttempt(draft.(state := Trimmed(draft.state, now)), id, now), Keep, o, x);
  }

  lemma UnlockHas(w: World, req: Request, e: UnlockEnv, x: Option<string>)
    requires DiskHas(w.disk, x)
    ensures Has(Unlock(w, req, e), x)
  {
    hide Save, CheckPassword, Loosen, ValidId, Bytes;
    var stored := w.disk.row.security;
    var draft := Draft(Loaded(stored), stored, w.disk.book);
    CheckPasswordHas(w.disk, w.latch, draft, req.password, req.requestId, e.tried, e.recordFailure, x);
    var a := CheckPassword(w.disk, w.latch, draft, req.password, req.requestId, e.tried, e.recordFailure);
    var open :=
      WithWindow(a.draft, NewWindow(w.disk.row, req, e.start)).(book := Book(None, [], 1, a.draft.book.failed));
    SaveHas(a.disk, open, ToUnlocking, e.intent, x);
    var s := Save(a.disk, open, ToUnlocking, e.intent);
    LoosenHas(s.disk, a.latch, open.(raw := s.raw), e, a.trail + [s.disk], x);
  }

  lemma CommitHas(d: Disk, l: Latch, draft: Draft, req: Request, again: bool, e: ExtendEnv, trail: seq<Disk>,
      x: Option<string>)
    requires draft.state.window.Some? && DiskHas(d, x) && DraftHas(draft, x) && AllHave(trail, x)
    ensures Has(CommitExtension(d, l, draft, req, again, e, trail), x)
  {
    hide Save;
    SaveHas(d, Extended(draft, req, again), Keep, e.commit, x);
  }

  lemma ExtendHas(w: World, req: Request, e: ExtendEnv, x: Option<string>)
    requires DiskHas(w.disk, x)
    ensures Has(Extend(w, req, e), x)
  {
    hide CheckPassword, CommitExtension, ValidId;
    var stored := w.disk.row.security;
    var draft := Draft(Loaded(stored), stored, w.disk.book);
    CheckPasswordHas(w.disk, w.latch, draft, req.password, req.requestId, e.tried, e.recordFailure, x);
    var a := CheckPassword(w.disk, w.latch, draft, req.password, req.requestId, e.tried, e.recordFailure);
    if draft.state.window.Some? { CommitHas(w.disk, w.latch, draft, req, false, e, [], x); }
    if a.draft.state.window.Some? { CommitHas(a.disk, a.latch, a.draft, req, true, e, a.trail, x); }
  }

  lemma RelockHas(w: World, id: string, e: RelockCall, x: Option<string>)
    requires DiskHas(w.disk, x)
    ensures Has(Relock(w, id, e), x)
  {
    hide RelockOwned, ValidId;
    var stored := w.disk.row.security;
    if stored.window.Some? {
      RelockOwnedHas(w.disk, w.latch, Draft(Loaded(stored), stored, w.disk.book), e.relock, w.restarting, x);
    }
  }

  lemma VisitHas(w: World, e: VisitEnv, x: Option<string>)
    requires DiskHas(w.disk, x)
    ensures Has(Visit(w, e), x)
  {
    hide RelockOwned;
    var stored := w.disk.row.security;
    if stored.window.Some? {
      RelockOwnedHas(w.disk, w.latch, Draft(Loaded(stored), stored, w.disk.book), e.relock, false, x);
    }
  }

  lemma ConfigureHas(w: World, enabled: bool, minutes: int, e: ConfigureEnv, x: Option<string>)
    requires DiskHas(w.disk, x)
    ensures Has(Configure(w, enabled, minutes, "", e), x)
  {
    hide Save, ModeAllowed, Bytes;
    var stored := w.disk.row.security;
    SaveHas(w.disk, Draft(stored.(enabled := enabled, minutes := minutes), stored, w.disk.book), Keep, e.commit, x);
  }

  predicate SetsPassword(op: Op) { op.OpConfigure? && op.password != "" }

  lemma ActHas(w: World, op: Op, x: Option<string>)
    requires !SetsPassword(op) && DiskHas(w.disk, x)
    ensures Has(Act(w, op), x)
  {
    hide Unlock, Extend, Relock, Visit, Swept, Bytes;
    match op {
      case OpConfigure(enabled, minutes, password, e) => ConfigureHas(w, enabled, minutes, e, x);
      case OpUnlock(req, e) => UnlockHas(w, req, e, x);
      case OpExtend(req, e) => ExtendHas(w, req, e, x);
      case OpRelock(id, e) => RelockHas(w, id, e, x);
      case OpVisit(e) => VisitHas(w, e, x);
      case OpSweep(o) => SweptHas(w.disk, true, true, x);
    }
  }

  ghost predicate NoneSets(ms: seq<Move>) { forall i :: 0 <= i < |ms| ==> !SetsPassword(ms[i].op) }

  lemma ApplyHas(w: World, m: Move, x: Option<string>)
    requires !SetsPassword(m.op) && DiskHas(w.disk, x)
    ensures DiskHas(Apply(w, m).disk, x)
  {
    hide Act;
    ActHas(w, m.op, x);
    var o := Act(w, m.op);
    if m.crash.Some? && 0 < m.crash.value <= |o.trail| {
      assert o.trail[m.crash.value - 1] in o.trail;
    }
  }

  /** Over any run in which no settings with a password are sent, with crashes at any state,
      the password stays what it was. */
  lemma {:induction false} PasswordStays(w: World, ms: seq<Move>)
    requires NoneSets(ms)
    ensures Run(w, ms).disk.row.security.secret == w.disk.row.security.secret
    decreases |ms|
  {
    hide Apply;
    if ms != [] {
      ApplyHas(w, ms[0], w.disk.row.security.secret);
      PasswordStays(Apply(w, ms[0]), ms[1..]);
    }
  }

  /** A password that was set opens the site after any such run, unless the site is frozen or
      the request was refused in the last 600 seconds; and a wrong one does not. */
  lemma PasswordOutlives(w: World, enabled: bool, minutes: int, password: string, e: ConfigureEnv, ms: seq<Move>,
                         typed: string, id: string, now: int, o: Write)
    requires password != "" && Configure(w, enabled, minutes, password, e).result == Done && NoneSets(ms)
    ensures var changed := Configure(w, enabled, minutes, password, e);
      var u := Run(World(changed.disk, changed.latch, w.restarting), ms);
      var s := u.disk.row.security;
      CheckPassword(u.disk, u.latch, Draft(Loaded(s), s, u.disk.book), typed, id, now, o).result == Done
      <==> typed == password && s.frozenUntil <= now && !Replayed(s.failedRequests, id, now)
  {
    hide Replayed, ModeAllowed, Bytes, Run, FailedAttempt, NoneSets;
    var done := Configure(w, enabled, minutes, password, e);
    PasswordStays(World(done.disk, done.latch, w.restarting), ms);
  }
}
