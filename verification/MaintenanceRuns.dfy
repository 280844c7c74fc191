/**
 Runs of the maintenance window: any sequence of requests, periodic repairs and
 crashes, with any outcome of every write, every file-tree effect and every
 reading of a clock that does not run backwards.
 */
module MaintenanceRuns {
  import opened Common
  import opened MaintenanceState
  import opened MaintenanceThrottle
  import opened MaintenanceSafety

  // ----- each operation keeps the invariant -----

  lemma InvLater(w: World, clock: int, later: int, a: Anchor)
    requires Inv(w, clock, a) && clock <= later
    ensures Inv(w, later, a)
  {
    SoundLater(w.disk, clock, later, a);
  }

  lemma CompensateSound(d: Disk, l: Latch, draft: Draft, e: CompensateEnv, trail: seq<Disk>, restarting: bool,
      clock: int, a: Anchor)
    requires draft.state.window.Some? && d.row.security.window.Some? && !a.frozen
    requires Sound(d, clock, a) && DraftOk(draft, clock, a) && AllSound(trail, clock, a)
    ensures Leaves(Compensate(d, l, draft, e, trail), restarting, clock, a)
  {
    hide Kept, RelockFailure;
    var v := draft.state.window.value;
    var after := d.(tree := e.lock.after);
    var seen := trail + [d.(tree := e.lock.during), after];
    assert Sound(d.(tree := e.lock.during), clock, a) && Sound(after, clock, a);
    if SealedNow(after, v.mode, e.lock, e.verifyOk) {
      SaveSound(after, WithWindow(draft, v.(state := Unresolved, failure := NotCommitted)), ToFailed, e.report, clock,
          a);
    } else {
      RelockFailureSound(after, draft, Stage(e.lock), e.now, e.report, seen, restarting, clock, a);
    }
  }

  /** The draft of a window whose intent has just been written. */
  ghost predicate JustOpened(draft: Draft, start: int) {
    && draft.state.window.Some? && draft.book == Book(None, [], 1, draft.book.failed)
    && draft.state.window.value.started == start && draft.state.minutes in {3, 5, 10}
  }

  lemma LoosenSound(d: Disk, l: Latch, draft: Draft, e: UnlockEnv, trail: seq<Disk>, clock: int, a: Anchor)
    requires JustOpened(draft, e.start) && d.row.security.window.Some? && !a.frozen && LatchOk(l)
    requires Sound(d, clock, a) && DraftOk(draft, clock, a) && AllSound(trail, clock, a)
    ensures Leaves(Loosen(d, l, draft, e, trail), false, clock, a)
  {
    hide Kept, Compensate, RelockOwned;
    var after := d.(tree := e.unlock.after);
    var seen := trail + [d.(tree := e.unlock.during), after];
    assert Sound(d.(tree := e.unlock.during), clock, a) && Sound(after, clock, a);
    if e.unlock.ok {
      var v := draft.state.window.value;
      var open := WithWindow(draft, v.(state := Unlocked, expires := e.start + draft.state.minutes * 60))
                  .(book := draft.book.(granted := Some(draft.state.minutes)));
      var s := Save(after, open, ToUnlocked, e.commit);
      SaveSound(after, open, ToUnlocked, e.commit, clock, a);
      if !s.ok {
        CompensateSound(s.disk, l, open, e.compensate, seen + [s.disk], false, clock, a);
      } else if open.state.window.value.expires <= e.check {
        RelockOwnedSound(s.disk, l, open.(raw := s.raw), e.relock, false, clock, a);
      }
    } else {
      CompensateSound(after, l, draft, e.compensate, seen, false, clock, a);
    }
  }

  ghost predicate UnlockTimely(e: UnlockEnv, clock: int, end: int) {
    clock <= e.tried <= e.start <= end && 0 <= e.start
  }

  lemma OpenWindowSound(w: World, req: Request, e: UnlockEnv, clock: int, end: int, a: Anchor)
    requires Inv(w, clock, a) && a.origin.None? && !a.frozen && UnlockTimely(e, clock, end)
    requires w.disk.row.security.window.None? && !w.restarting
    ensures Leaves(OpenWindow(w, req, e), false, end, a)
  {
    hide Kept, Loosen, CheckPassword, Save;
    var stored := w.disk.row.security;
    var base := Draft(Loaded(stored), stored, w.disk.book);
    CheckPasswordSound(w, base, req.password, req.requestId, e.tried, e.recordFailure, clock, a);
    var r := CheckPassword(w.disk, w.latch, base, req.password, req.requestId, e.tried, e.recordFailure);
    AllSoundLater(r.trail, e.tried, end, a);
    InvLater(World(r.disk, r.latch, false), e.tried, end, a);
    if r.result == Done {
      DraftLater(r.draft, e.tried, end, a);
      var draft :=
        WithWindow(r.draft, NewWindow(w.disk.row, req, e.start)).(book := Book(None, [], 1, r.draft.book.failed));
      var s := Save(r.disk, draft, ToUnlocking, e.intent);
      SaveSound(r.disk, draft, ToUnlocking, e.intent, end, a);
      if s.ok {
        assert s.disk.row.security.window.Some? by { SaveWrites(r.disk, draft, ToUnlocking, e.intent); }
        LoosenSound(s.disk, r.latch, draft.(raw := s.raw), e, r.trail + [s.disk], end, a);
      }
    }
  }

  lemma SaveWrites(d: Disk, draft: Draft, file: FileState, o: Write)
    requires file != ToLocked && Save(d, draft, file, o).ok
    ensures Save(d, draft, file, o).disk.row.security == draft.state
    ensures Save(d, draft, file, o).disk.book == draft.book
  {
  }

  lemma UnlockSound(w: World, req: Request, e: UnlockEnv, clock: int, end: int, a: Anchor)
    requires Inv(w, clock, a) && UnlockTimely(e, clock, end)
    requires a.origin.Some? || a.frozen ==> w.disk.row.security.window.Some?
    ensures Leaves(Unlock(w, req, e), w.restarting, end, a)
  {
    hide Inv, OpenWindow, ValidId;
    InvLater(w, clock, end, a);
    if !w.restarting && w.disk.row.security.window.None? {
      OpenWindowSound(w, req, e, clock, end, a);
    }
  }

  lemma {:induction false} SumAppend(xs: seq<int>, x: int)
    ensures Sum(xs + [x]) == Sum(xs) + x
  {
    assert (xs + [x])[..|xs|] == xs;
  }

  lemma ExtendedOk(draft: Draft, req: Request, again: bool, clock: int, a: Anchor)
    requires draft.state.window.Some? && draft.state.window.value.state == Unlocked && !a.frozen
    requires req.minutes in {1, 3, 5}
    requires again || draft.state.window.value.expires + req.minutes * 60 <= draft.state.window.value.verifiedUntil
    requires DraftOk(draft, clock, a)
    ensures DraftOk(Extended(draft, req, again), clock, a)
  {
    hide Kept, Sum;
    SumAppend(draft.book.extensions, req.minutes);
  }

  lemma CommitExtensionSound(d: Disk, l: Latch, draft: Draft, req: Request, again: bool, e: ExtendEnv, clock: int,
      a: Anchor)
    requires draft.state.window.Some? && draft.raw.window.Some? && draft.state.closed == draft.raw.closed
    requires !a.frozen && req.minutes in {1, 3, 5} && draft.state.window.value.state == Unlocked
    requires again || draft.state.window.value.expires + req.minutes * 60 <= draft.state.window.value.verifiedUntil
    requires Inv(World(d, l, false), clock, a) && DraftOk(draft, clock, a)
    ensures Leaves(CommitExtension(d, l, draft, req, again, e, []), false, clock, a)
  {
    hide Kept, Save, Sound, Sum;
    ExtendedOk(draft, req, again, clock, a);
    SaveSound(d, Extended(draft, req, again), Keep, e.commit, clock, a);
  }

  ghost predicate ExtendTimely(e: ExtendEnv, clock: int, end: int) {
    clock <= e.tried <= end
  }

  lemma ExtendSound(w: World, req: Request, e: ExtendEnv, clock: int, end: int, a: Anchor)
    requires Inv(w, clock, a) && ExtendTimely(e, clock, end)
    ensures Leaves(Extend(w, req, e), w.restarting, end, a)
  {
    hide Kept, ValidId, CommitExtension, CheckPassword;
    InvLater(w, clock, end, a);
    var stored := w.disk.row.security;
    if stored.window.Some? && stored.window.value.state == Unlocked && !IsUncertain(w) && req.minutes in {1, 3, 5} {
      var v := stored.window.value;
      var draft := Draft(Loaded(stored), stored, w.disk.book);
      if v.expires + req.minutes * 60 > v.verifiedUntil {
        CheckPasswordSound(w, draft, req.password, req.requestId, e.tried, e.recordFailure, clock, a);
        var r := CheckPassword(w.disk, w.latch, draft, req.password, req.requestId, e.tried, e.recordFailure);
        AllSoundLater(r.trail, e.tried, end, a);
        InvLater(World(r.disk, r.latch, w.restarting), e.tried, end, a);
        if r.result == Done {
          DraftLater(r.draft, e.tried, end, a);
          CommitExtensionSound(r.disk, r.latch, r.draft, req, true, e, end, a);
        }
      } else {
        DraftLater(draft, clock, end, a);
        CommitExtensionSound(w.disk, w.latch, draft, req, false, e, end, a);
      }
    }
  }

  lemma RelockSound(w: World, windowId: string, e: RelockCall, clock: int, a: Anchor)
    requires Inv(w, clock, a)
    ensures Leaves(Relock(w, windowId, e), w.restarting, clock, a)
  {
    hide Kept, ValidId, RelockOwned;
    var stored := w.disk.row.security;
    if stored.window.Some? {
      RelockOwnedSound(w.disk, w.latch, Draft(Loaded(stored), stored, w.disk.book), e.relock, w.restarting, clock, a);
    }
  }

  lemma VisitSound(w: World, e: VisitEnv, clock: int, a: Anchor)
    requires Inv(w, clock, a)
    ensures Leaves(Visit(w, e), w.restarting, clock, a)
  {
    hide Kept, RelockOwned;
    var stored := w.disk.row.security;
    if stored.window.Some? && !w.restarting {
      RelockOwnedSound(w.disk, w.latch, Draft(Loaded(stored), stored, w.disk.book), e.relock, false, clock, a);
    }
  }

  lemma ConfigureSound(w: World, enabled: bool, minutes: int, password: string, e: ConfigureEnv, clock: int, a: Anchor)
    requires Inv(w, clock, a)
    ensures Leaves(Configure(w, enabled, minutes, password, e), w.restarting, clock, a)
  {
    hide Kept;
    var stored := w.disk.row.security;
    if minutes in {3, 5, 10} && stored.window.None? {
      var secret := if password != "" then Some(password) else stored.secret;
      SaveSound(w.disk, Draft(stored.(secret := secret, enabled := enabled, minutes := minutes), stored, w.disk.book),
          Keep, e.commit, clock, a);
    }
  }

  lemma SweepSound(w: World, o: Write, clock: int, a: Anchor)
    requires Inv(w, clock, a)
    ensures Inv(Sweep(w, o), clock, a)
  {
    hide Kept;
    SweptSound(w.disk, clock, a);
  }

  // ----- runs -----

  datatype Op =
    | OpConfigure(enabled: bool, minutes: int, password: string, configureEnv: ConfigureEnv)
    | OpUnlock(unlockRequest: Request, unlockEnv: UnlockEnv)
    | OpExtend(extendRequest: Request, extendEnv: ExtendEnv)
    | OpRelock(windowId: string, relockCall: RelockCall)
    | OpSweep(outcome: Write)
    | OpVisit(visitEnv: VisitEnv)

  /** One operation that is over by time `end`; `crash == Some(k)` kills the process
      when k durable effects of it have happened. */
  datatype Move = Move(op: Op, end: int, crash: Option<nat>)

  function Act(w: World, op: Op): Outcome {
    match op
    case OpConfigure(enabled, minutes, password, e) => Configure(w, enabled, minutes, password, e)
    case OpUnlock(req, e) => Unlock(w, req, e)
    case OpExtend(req, e) => Extend(w, req, e)
    case OpRelock(id, e) => Relock(w, id, e)
    case OpSweep(o) => Outcome(Sweep(w, o).disk, w.latch, Done, [Sweep(w, o).disk])
    case OpVisit(e) => Visit(w, e)
  }

  function Apply(w: World, m: Move): World {
    var o := Act(w, m.op);
    match m.crash
    case None => World(o.disk, o.latch, if m.op.OpSweep? then Sweep(w, m.op.outcome).restarting else w.restarting)
    case Some(k) => World(if 0 < k <= |o.trail| then o.trail[k - 1] else w.disk, CLEAR, true)
  }

  ghost predicate Timely(op: Op, clock: int, end: int) {
    && clock <= end
    && (op.OpUnlock? ==> UnlockTimely(op.unlockEnv, clock, end))
    && (op.OpExtend? ==> ExtendTimely(op.extendEnv, clock, end))
  }

  ghost predicate Possible(ms: seq<Move>, clock: int)
    decreases |ms|
  {
    |ms| == 0 || (Timely(ms[0].op, clock, ms[0].end) && Possible(ms[1..], ms[0].end))
  }

  function Run(w: World, ms: seq<Move>): World
    decreases |ms|
  {
    if ms == [] then w else Run(Apply(w, ms[0]), ms[1..])
  }

  function End(ms: seq<Move>, clock: int): int {
    if ms == [] then clock else ms[|ms| - 1].end
  }

  lemma ActSound(w: World, op: Op, clock: int, end: int, a: Anchor)
    requires Inv(w, clock, a) && Timely(op, clock, end)
    requires a.origin.Some? || a.frozen ==> w.disk.row.security.window.Some?
    ensures AllSound(Act(w, op).trail, end, a)
    ensures Inv(Apply(w, Move(op, end, None)), end, a)
  {
    hide Inv, Configure, Unlock, Extend, Relock, Visit, Sweep, Sound;
    InvLater(w, clock, end, a);
    match op {
      case OpConfigure(enabled, minutes, password, e) => ConfigureSound(w, enabled, minutes, password, e, end, a);
      case OpUnlock(req, e) => UnlockSound(w, req, e, clock, end, a);
      case OpExtend(req, e) => ExtendSound(w, req, e, clock, end, a);
      case OpRelock(id, e) => RelockSound(w, id, e, end, a);
      case OpVisit(e) => VisitSound(w, e, end, a);
      case OpSweep(o) =>
        SweepSound(w, o, end, a);
        SoundOf(Sweep(w, o), end, a);
        assert Apply(w, Move(op, end, None)) == Sweep(w, o) by { SweepKeepsLatch(w, o); }
    }
  }

  lemma SoundOf(w: World, clock: int, a: Anchor)
    requires Inv(w, clock, a)
    ensures Sound(w.disk, clock, a)
  {
  }

  lemma SweepKeepsLatch(w: World, o: Write)
    ensures Sweep(w, o).latch == w.latch
  {
  }

  lemma ApplySound(w: World, m: Move, clock: int, a: Anchor)
    requires Inv(w, clock, a) && Timely(m.op, clock, m.end)
    requires a.origin.Some? || a.frozen ==> w.disk.row.security.window.Some?
    ensures Inv(Apply(w, m), m.end, a)
  {
    hide Act, Sound;
    ActSound(w, m.op, clock, m.end, a);
    SoundOf(w, clock, a);
    SoundLater(w.disk, clock, m.end, a);
    assert m == Move(m.op, m.end, m.crash);
  }

  /** The invariant of every run. */
  lemma {:induction false} RunSound(w: World, ms: seq<Move>, clock: int, home: bool)
    requires Inv(w, clock, Anchor(home, None, false)) && Possible(ms, clock)
    ensures Inv(Run(w, ms), End(ms, clock), Anchor(home, None, false))
    decreases |ms|
  {
    hide Inv, Apply;
    if ms != [] {
      ApplySound(w, ms[0], clock, Anchor(home, None, false));
      RunSound(Apply(w, ms[0]), ms[1..], ms[0].end, home);
    }
  }
}
