/**
 The manager of all maintenance windows: the database rows and file trees of the
 sites, and the latches it keeps in memory.  Each method runs its effects one by
 one and leaves the site it works on exactly where the function of the same name
 in MaintenanceState says, passing through the same durable states.
 */
module MaintenanceManager {
  import opened Common
  import opened MaintenanceState
  import opened MaintenanceSafety
  import opened MaintenanceRuns
  import opened MaintenanceTheorems
  import S = MaintenanceState

  function Visited(w: World, e: VisitEnv): World {
    var o := S.Visit(w, e);
    World(o.disk, o.latch, w.restarting)
  }

  lemma NothingToVisit(w: World, e: VisitEnv)
    requires w.disk.row.security.window == None && !w.latch.uncertain
    ensures Visited(w, e) == w
  {
    hide S.RelockOwned;
  }

  lemma Restarted(w: World, clock: int, end: int, a: Anchor)
    requires Inv(w, clock, a) && clock <= end && !a.frozen
    ensures Inv(World(w.disk, CLEAR, true), end, a)
  {
    InvLater(w, clock, end, a);
    hide Sound;
  }

  lemma VisitedSound(w: World, e: VisitEnv, clock: int, a: Anchor)
    requires Inv(w, clock, a)
    ensures Inv(Visited(w, e), clock, a)
  {
    hide Inv, S.Visit;
    VisitSound(w, e, clock, a);
  }

  lemma HomeSealed(w: World, clock: int)
    requires Inv(w, clock, Anchor(true, None, false)) && w.disk.row.security.window == None
    ensures SealedShut(w.disk)
  {
  }

  /** The window should be closed: it has run out, or it is doomed. */
  ghost predicate Overdue(w: World, now: int) {
    w.disk.row.security.window.Some? && (Doomed(w) || w.disk.row.security.window.value.expires <= now)
  }

  /** Everything a repair of the site needs succeeds. */
  ghost predicate Repairable(w: World, e: VisitEnv) {
    && (w.latch.uncertain ==> !e.busy && e.loadOk)
    && (Overdue(w, e.check) ==>
          var v := w.disk.row.security.window.value;
          && v.root == w.disk.row.root && v.user == w.disk.row.user
          && !e.busy && e.loadOk && Works(e.relock, v.mode)
          && w.latch.retry <= e.relock.now && (!w.restarting ==> v.retryAt <= e.relock.now)
          && (w.restarting ==> 0 <= e.relock.now))
  }

  ghost predicate Repaired(before: World, after: World, now: int) {
    && !after.latch.uncertain && !Overdue(after, now)
    && if Overdue(before, now) then
         && after.disk.row.security.window == None && SealedShut(after.disk)
         && after.disk.row.mode == before.disk.row.security.window.value.mode
       else after.disk == before.disk
  }

  /** What one whole `Tick` does to one site. */
  lemma TickedSite(w: World, e: VisitEnv)
    requires Repairable(w, e)
    ensures Repaired(w, Visited(S.Sweep(w, Acked), e), e.check)
  {
    hide S.RelockOwned, Works;
    if Overdue(w, e.check) { TickRepairs(w, e); }
  }

  /** What the panel can be asked to do; `end`: when it is over. */
  datatype Call =
    | One(id: int, op: Op, end: int, crash: Option<nat>)
    | Sweeps(outcome: Write, end: int, killed: bool)
    | All(start: bool, sweep: Write, listOk: bool, countOk: bool, env: map<int, VisitEnv>, end: int)

  ghost predicate Fits(c: Call, clock: int, sites: set<int>) {
    && clock <= c.end
    && (c.One? ==> c.id in sites && !c.op.OpSweep? && Timely(c.op, clock, c.end))
    && (c.All? ==> sites <= c.env.Keys)
  }

  /** When the first n calls are over. */
  function Clock(calls: seq<Call>, n: nat, clock: int): int
    requires n <= |calls|
  {
    if n == 0 then clock else calls[n - 1].end
  }

  /** The clock does not run backwards, and the calls name sites there are. */
  ghost predicate InTime(calls: seq<Call>, clock: int, sites: set<int>) {
    forall i :: 0 <= i < |calls| ==> Fits(calls[i], Clock(calls, i, clock), sites)
  }

  class MaintenanceManager {
    var disks: map<int, Disk>
    var uncertain: set<int>
    var retry: map<int, int>
    var alerted: set<int>
    var restarting: bool

    ghost function At(id: int): World
      reads this
      requires id in disks
    {
      World(disks[id], Latch(id in uncertain, if id in retry then retry[id] else 0, id in alerted), restarting)
    }

    /** Nothing but site id changed. */
    twostate predicate Only(id: int)
      reads this
    {
      && disks.Keys == old(disks.Keys) && restarting == old(restarting)
      && forall other :: other in disks && other != id ==> At(other) == old(At(other))
    }

    /** Site id moved from the world w to where outcome o leaves it. */
    twostate predicate Moved(id: int, o: Outcome)
      reads this
    {
      id in disks && Only(id) && At(id) == World(o.disk, o.latch, old(restarting))
    }

    constructor (rows: map<int, Disk>)
      ensures disks == rows && !restarting
      ensures forall id :: id in rows ==> At(id) == World(rows[id], CLEAR, false)
    {
      disks, uncertain, retry, alerted, restarting := rows, {}, map[], {}, false;
    }

    method MarkUncertain(id: int, value: bool)
      requires id in disks
      modifies this`uncertain, this`retry, this`alerted
      ensures Only(id)
      ensures At(id) == old(At(id)).(latch := if value then old(At(id).latch).(uncertain := true) else CLEAR)
    {
      if value {
        uncertain := uncertain + {id};
      } else {
        uncertain, retry, alerted := uncertain - {id}, retry - {id}, alerted - {id};
      }
    }

    method Save(id: int, draft: Draft, file: FileState, o: Write) returns (ok: bool, raw: Security)
      requires id in disks && (file == ToLocked ==> draft.state.window.Some?)
      modifies this`disks
      ensures Only(id)
      ensures var s := S.Save(old(disks[id]), draft, file, o);
        At(id) == old(At(id)).(disk := s.disk) && ok == s.ok && raw == s.raw
    {
      ok, raw := false, draft.raw;
      if o != Lost && disks[id].row.security == draft.raw {
        var row := Written(disks[id].row, draft.state, file);
        disks := disks[id := Disk(row, disks[id].tree, draft.book)];
        if o == Acked {
          ok, raw := true, row.security;
        }
      }
    }

    method SetTree(id: int, tree: Tree)
      requires id in disks
      modifies this`disks
      ensures Only(id) && At(id) == old(At(id)).(disk := old(disks[id]).(tree := tree))
    {
      disks := disks[id := disks[id].(tree := tree)];
    }

    /** The restart sweep of a concurrent `Tick` reaching this site's row. */
    method Interleave(id: int, sweep: bool)
      requires id in disks
      modifies this`disks
      ensures Only(id) && At(id) == old(At(id)).(disk := Interleaved(old(disks[id]), sweep, restarting))
    {
      if sweep && restarting {
        disks := disks[id := Swept(disks[id])];
      }
    }

    method CheckPassword(id: int, draft: Draft, password: string, request: string, now: int, o: Write)
      returns (result: Result, checked: Draft, trail: seq<Disk>)
      requires id in disks
      modifies this`disks, this`uncertain, this`retry, this`alerted
      ensures Only(id)
      ensures var r := S.CheckPassword(old(disks[id]), old(At(id).latch), draft, password, request, now, o);
        At(id) == World(r.disk, r.latch, restarting) && result == r.result && checked == r.draft && trail == r.trail
    {
      hide Bytes, ModeAllowed;
      trail, checked := [], draft;
      if draft.state.frozenUntil > now {
        return Frozen, checked, trail;
      }
      var requests, recent := draft.state.failedRequests, [];
      for i := 0 to |requests|
        invariant recent == Recent(requests, i, now)
        invariant forall k :: 0 <= k < i ==> !(requests[k].at > now - 600 && requests[k].id == request)
      {
        if requests[i].at > now - 600 {
          if requests[i].id == request {
            return Validation, checked, trail;
          }
          recent := recent + [requests[i]];
        }
      }
      checked := checked.(state := checked.state.(failedRequests := recent));
      if password == "" {
        return PasswordRequired, checked, trail;
      }
      if Bytes(password) <= 72 && draft.state.secret == Some(password) {
        return Done, checked, trail;
      }
      var stamps := [];
      for i := 0 to |draft.state.failures|
        invariant stamps == RecentStamps(draft.state.failures, i, now)
      {
        if draft.state.failures[i] > now - 600 {
          stamps := stamps + [draft.state.failures[i]];
        }
      }
      stamps := stamps + [now];
      var frozen := |stamps| >= 5;
      checked := checked.(
        state := checked.state.(failures := stamps, failedRequests := recent + [FailedRequest(request, now)],
                                frozenUntil := if frozen then now + 600 else checked.state.frozenUntil),
        book := checked.book.(failed := checked.book.failed + [FailedRequest(request, now)]));
      var ok, raw := Save(id, checked, Keep, o);
      trail := [disks[id]];
      if !ok {
        MarkUncertain(id, true);
        return Unknown, checked, trail;
      }
      checked := checked.(raw := raw);
      result := if frozen then Frozen else Validation;
    }

    method FailRelock(id: int, draft: Draft, failure: Failure, later: int, report: Write, before: seq<Disk>)
      returns (result: Result, trail: seq<Disk>)
      requires id in disks && draft.state.window.Some?
      modifies this`disks, this`uncertain, this`retry, this`alerted
      ensures var o := S.RelockFailure(old(disks[id]), draft, failure, later, report, before);
        Moved(id, o) && result == o.result && trail == o.trail
    {
      MarkUncertain(id, true);
      retry, alerted := retry[id := later + 60], alerted + {id};
      var v :=
        draft.state.window.value.(state := RelockFailed, retryAt := later + 60, failure := failure, alerted := true);
      var _, _ := Save(id, WithWindow(draft, v), ToFailed, report);
      result, trail := Unknown, before + [disks[id]];
    }

    method CloseWindow(id: int, draft: Draft, e: RelockEnv, before: seq<Disk>)
      returns (result: Result, trail: seq<Disk>)
      requires id in disks && draft.state.window.Some?
      modifies this`disks, this`uncertain, this`retry, this`alerted
      ensures var o := S.CloseWindow(old(disks[id]), draft, e, old(restarting), before);
        Moved(id, o) && result == o.result && trail == o.trail
    {
      var mode := draft.state.window.value.mode;
      Interleave(id, e.sweepLater);
      var swept := disks[id];
      SetTree(id, e.lock.during);
      var during := disks[id];
      SetTree(id, e.lock.after);
      trail := before + [swept, during, disks[id]];
      var failure := Permissions;
      if e.lock.ok {
        failure := Verification;
        if e.verifyOk && disks[id].tree == Sealed(mode) {
          failure := StateCommit;
          var ok, _ := Save(id, draft, ToLocked, e.commit);
          trail := trail + [disks[id]];
          if ok {
            MarkUncertain(id, false);
            return Done, trail;
          }
        }
      }
      result, trail := FailRelock(id, draft, failure, e.later, e.report, trail);
    }

    method RelockOwned(id: int, draft: Draft, e: RelockEnv) returns (result: Result, trail: seq<Disk>)
      requires id in disks && draft.state.window.Some?
      modifies this`disks, this`uncertain, this`retry, this`alerted
      ensures var o := S.RelockOwned(old(disks[id]), old(At(id).latch), draft, e, old(restarting));
        Moved(id, o) && result == o.result && trail == o.trail
    {
      hide S.CloseWindow, Swept;
      var v := draft.state.window.value;
      var row := disks[id].row;
      Interleave(id, e.sweepFirst);
      var swept := disks[id];
      trail := [swept];
      if v.retryAt > e.now || (id in retry && retry[id] > e.now) || (id !in retry && 0 > e.now) {
        return Busy, trail;
      }
      if row.root != v.root || row.user != v.user {
        MarkUncertain(id, true);
        return Unknown, trail;
      }
      var intent := WithWindow(draft, v.(state := Relocking));
      var ok, raw := Save(id, intent, ToRelocking, e.intent);
      trail := [swept, disks[id]];
      if !ok {
        MarkUncertain(id, true);
        return Unknown, trail;
      }
      result, trail := CloseWindow(id, intent.(raw := raw), e, trail);
    }

    method CompensateUnlock(id: int, draft: Draft, e: CompensateEnv, before: seq<Disk>)
      returns (result: Result, trail: seq<Disk>)
      requires id in disks && draft.state.window.Some?
      modifies this`disks, this`uncertain, this`retry, this`alerted
      ensures var o := S.Compensate(old(disks[id]), old(At(id).latch), draft, e, before);
        Moved(id, o) && result == o.result && trail == o.trail
    {
      var v := draft.state.window.value;
      MarkUncertain(id, true);
      SetTree(id, e.lock.during);
      var during := disks[id];
      SetTree(id, e.lock.after);
      trail := before + [during, disks[id]];
      if e.lock.ok && e.verifyOk && disks[id].tree == Sealed(v.mode) {
        var _, _ := Save(id, WithWindow(draft, v.(state := Unresolved, failure := NotCommitted)), ToFailed, e.report);
        result, trail := Unknown, trail + [disks[id]];
      } else {
        result, trail := FailRelock(id, draft, if e.lock.ok then Verification else Permissions, e.now, e.report, trail);
      }
    }

    /** From a durable intent to the open window. */
    method Loosen(id: int, draft: Draft, e: UnlockEnv, before: seq<Disk>) returns (result: Result, trail: seq<Disk>)
      requires id in disks && draft.state.window.Some? && !restarting
      modifies this`disks, this`uncertain, this`retry, this`alerted
      ensures var o := S.Loosen(old(disks[id]), old(At(id).latch), draft, e, before);
        Moved(id, o) && result == o.result && trail == o.trail
    {
      hide S.RelockOwned, S.Compensate;
      SetTree(id, e.unlock.during);
      var during := disks[id];
      SetTree(id, e.unlock.after);
      trail := before + [during, disks[id]];
      if !e.unlock.ok {
        result, trail := CompensateUnlock(id, draft, e.compensate, trail);
        return;
      }
      var v := draft.state.window.value.(state := Unlocked, expires := e.start + draft.state.minutes * 60);
      var open := WithWindow(draft, v).(book := draft.book.(granted := Some(draft.state.minutes)));
      var ok, raw := Save(id, open, ToUnlocked, e.commit);
      trail := trail + [disks[id]];
      if !ok {
        result, trail := CompensateUnlock(id, open, e.compensate, trail);
        return;
      }
      if v.expires <= e.check {
        var late;
        result, late := RelockOwned(id, open.(raw := raw), e.relock);
        trail := trail + late;
        return;
      }
      result := Done;
    }

    method Unlock(id: int, req: Request, e: UnlockEnv) returns (result: Result, trail: seq<Disk>)
      requires id in disks
      modifies this`disks, this`uncertain, this`retry, this`alerted
      ensures var o := S.Unlock(old(At(id)), req, e);
        Moved(id, o) && result == o.result && trail == o.trail
    {
      trail := [];
      if !ValidId(req.requestId) || Bytes(req.actor) > 128 { return Validation, trail; }
      if e.busy { return Busy, trail; }
      if !e.loadOk || restarting || id in uncertain { return Unknown, trail; }
      var row := disks[id].row;
      var draft := Draft(Loaded(row.security), row.security, disks[id].book);
      if !draft.state.enabled || !row.wordpress || !row.active { return Validation, trail; }
      if draft.state.window.Some? {
        var v := draft.state.window.value;
        if v.id == req.requestId && v.state == Unlocked && v.expires > e.seen { return Done, trail; }
        return Busy, trail;
      }
      if draft.state.closed == req.requestId || !row.locked || row.status != Ready || e.configLocked {
        return Busy, trail;
      }
      if !ModeAllowed(row) { return LockMode, trail; }
      if e.conflict != Done { return e.conflict, trail; }
      result, draft, trail := CheckPassword(id, draft, req.password, req.requestId, e.tried, e.recordFailure);
      if result != Done { return; }
      draft := WithWindow(draft, NewWindow(row, req, e.start)).(book := Book(None, [], 1, draft.book.failed));
      var ok, raw := Save(id, draft, ToUnlocking, e.intent);
      trail := trail + [disks[id]];
      if !ok {
        MarkUncertain(id, true);
        return Unknown, trail;
      }
      result, trail := Loosen(id, draft.(raw := raw), e, trail);
    }

    /** The granted minutes, unless the window has run out meanwhile. */
    method CommitExtension(id: int, draft: Draft, req: Request, again: bool, e: ExtendEnv, before: seq<Disk>)
      returns (result: Result, trail: seq<Disk>)
      requires id in disks && draft.state.window.Some?
      modifies this`disks, this`uncertain, this`retry, this`alerted
      ensures var o := S.CommitExtension(old(disks[id]), old(At(id).latch), draft, req, again, e, before);
        Moved(id, o) && result == o.result && trail == o.trail
    {
      var v, book := draft.state.window.value, draft.book;
      trail := before;
      if v.expires <= e.check { return Busy, trail; }
      if again {
        v := v.(verifiedUntil := v.verifiedUntil + 1800);
        book := book.(verified := book.verified + 1);
      }
      v := v.(expires := v.expires + req.minutes * 60, lastRequest := req.requestId, lastMinutes := req.minutes,
              revision := v.revision + 1);
      book := book.(extensions := book.extensions + [req.minutes]);
      var ok, _ := Save(id, WithWindow(draft, v).(book := book), Keep, e.commit);
      trail := trail + [disks[id]];
      if !ok {
        MarkUncertain(id, true);
        return Unknown, trail;
      }
      result := Done;
    }

    method Extend(id: int, req: Request, e: ExtendEnv) returns (result: Result, trail: seq<Disk>)
      requires id in disks
      modifies this`disks, this`uncertain, this`retry, this`alerted
      ensures var o := S.Extend(old(At(id)), req, e);
        Moved(id, o) && result == o.result && trail == o.trail
    {
      hide S.CommitExtension, ValidId;
      trail := [];
      if !ValidId(req.requestId) || !ValidId(req.windowId) || req.minutes !in {1, 3, 5} { return Validation, trail; }
      if e.busy { return Busy, trail; }
      if !e.loadOk || restarting || id in uncertain { return Unknown, trail; }
      var row := disks[id].row;
      var draft := Draft(Loaded(row.security), row.security, disks[id].book);
      if !draft.state.enabled || !row.active || draft.state.window == None { return Busy, trail; }
      var v := draft.state.window.value;
      if v.id != req.windowId || v.state != Unlocked || v.expires <= e.seen { return Busy, trail; }
      if v.lastRequest == req.requestId { return (if v.lastMinutes == req.minutes then Done else Validation), trail; }
      if v.revision != req.revision { return Busy, trail; }
      var again := v.expires + req.minutes * 60 > v.verifiedUntil;
      if again {
        result, draft, trail := CheckPassword(id, draft, req.password, req.requestId, e.tried, e.recordFailure);
        if result != Done { return; }
      }
      result, trail := CommitExtension(id, draft, req, again, e, trail);
    }

    method Relock(id: int, windowId: string, e: RelockCall) returns (result: Result, trail: seq<Disk>)
      requires id in disks
      modifies this`disks, this`uncertain, this`retry, this`alerted
      ensures var o := S.Relock(old(At(id)), windowId, e);
        Moved(id, o) && result == o.result && trail == o.trail
    {
      trail := [];
      if !ValidId(windowId) { return Validation, trail; }
      if e.busy { return Busy, trail; }
      if !e.loadOk { return Unknown, trail; }
      var stored := disks[id].row.security;
      if stored.window == None && stored.closed == windowId { return Done, trail; }
      if stored.window == None || stored.window.value.id != windowId { return Busy, trail; }
      result, trail := RelockOwned(id, Draft(Loaded(stored), stored, disks[id].book), e.relock);
    }

    method Configure(id: int, enabled: bool, minutes: int, password: string, e: ConfigureEnv)
      returns (result: Result, trail: seq<Disk>)
      requires id in disks
      modifies this`disks
      ensures var o := S.Configure(old(At(id)), enabled, minutes, password, e);
        Moved(id, o) && result == o.result && trail == o.trail
    {
      hide Bytes, ModeAllowed;
      trail := [];
      if minutes != 3 && minutes != 5 && minutes != 10 { return Validation, trail; }
      if Bytes(password) > 72 || (password != "" && |password| < 4) { return Validation, trail; }
      if e.busy { return Busy, trail; }
      if !e.loadOk { return Unknown, trail; }
      var row := disks[id].row;
      if row.security.window.Some? || restarting || id in uncertain || !row.wordpress { return Busy, trail; }
      if enabled && row.locked && !ModeAllowed(row) { return LockMode, trail; }
      var state := Loaded(row.security);
      if password != "" {
        if !e.sealOk { return Unknown, trail; }
        state := state.(secret := Some(password));
      }
      if enabled && state.secret == None { return Validation, trail; }
      state := state.(enabled := enabled, minutes := minutes);
      var ok, _ := Save(id, Draft(state, row.security, disks[id].book), Keep, e.commit);
      result, trail := if ok then Done else Unknown, [disks[id]];
    }

    /** One row of the list `Tick` works through. */
    method Visit(id: int, e: VisitEnv) returns (trail: seq<Disk>)
      requires id in disks && !restarting
      requires disks[id].row.security.window.Some? || id in uncertain
      modifies this`disks, this`uncertain, this`retry, this`alerted
      ensures var o := S.Visit(old(At(id)), e);
        Moved(id, o) && trail == o.trail
    {
      trail := [];
      if e.busy || !e.loadOk { return; }
      var stored := disks[id].row.security;
      if stored.window == None {
        MarkUncertain(id, false);
        return;
      }
      var v := stored.window.value;
      if v.state != Unlocked || v.expires <= e.check || id in uncertain {
        var result;
        result, trail := RelockOwned(id, Draft(Loaded(stored), stored, disks[id].book), e.relock);
      }
    }

    /** Visit every site that has a window or is uncertain, in any order. */
    method VisitAll(env: map<int, VisitEnv>)
      requires disks.Keys <= env.Keys && !restarting
      modifies this`disks, this`uncertain, this`retry, this`alerted
      ensures disks.Keys == old(disks.Keys)
      ensures forall id :: id in disks ==> At(id) == Visited(old(At(id)), env[id])
    {
      hide S.Visit;
      ghost var start := map id | id in disks :: At(id);
      var todo := set id | id in disks && (disks[id].row.security.window.Some? || id in uncertain);
      forall id | id in disks && id !in todo ensures At(id) == Visited(start[id], env[id]) {
        NothingToVisit(start[id], env[id]);
      }
      while todo != {}
        invariant disks.Keys == start.Keys == old(disks.Keys) && todo <= disks.Keys
        invariant forall id :: id in todo ==> At(id) == start[id]
        invariant forall id :: id in todo ==> start[id].disk.row.security.window.Some? || start[id].latch.uncertain
        invariant forall id :: id in disks && id !in todo ==> At(id) == Visited(start[id], env[id])
        decreases todo
      {
        var id :| id in todo;
        assert At(id) == start[id];
        var _ := Visit(id, env[id]);
        todo := todo - {id};
      }
    }

    /** Repair every site.  `sweep` is the outcome of the restart sweep, `listOk` of the query for open windows. */
    method Tick(sweep: Write, listOk: bool, env: map<int, VisitEnv>)
      requires disks.Keys <= env.Keys
      modifies this
      ensures disks.Keys == old(disks.Keys) && restarting == (old(restarting) && sweep != Acked)
      ensures forall id :: id in disks ==>
        var w := S.Sweep(old(At(id)), sweep);
        At(id) == if restarting || !listOk then w else Visited(w, env[id])
    {
      hide S.Visit;
      if restarting {
        if sweep != Lost {
          disks := map id | id in disks :: Swept(disks[id]);
        }
        if sweep != Acked { return; }
        restarting := false;
      }
      assert forall id :: id in disks ==> At(id) == S.Sweep(old(At(id)), sweep);
      if listOk {
        VisitAll(env);
      }
    }

    /** A new process: the memory latches are gone and every open window must be closed.
        `ready`: no window is left, and the panel knows it. */
    method Start(sweep: Write, listOk: bool, env: map<int, VisitEnv>, countOk: bool) returns (ready: bool)
      requires disks.Keys <= env.Keys
      modifies this
      ensures disks.Keys == old(disks.Keys) && restarting == (sweep != Acked)
      ensures forall id :: id in disks ==>
        var w := S.Sweep(World(old(disks[id]), CLEAR, true), sweep);
        At(id) == if restarting || !listOk then w else Visited(w, env[id])
      ensures ready <==> !restarting && countOk && forall id :: id in disks ==> disks[id].row.security.window == None
    {
      uncertain, retry, alerted, restarting := {}, map[], {}, true;
      Tick(sweep, listOk, env);
      ready := !restarting && countOk && forall id :: id in disks ==> disks[id].row.security.window == None;
    }

    /** One `Tick` whose effects all succeed: afterwards no site is uncertain and no site has a
        window that should be closed; those that had one are sealed in the mode recorded with
        it, and the other windows are as they were. */
    method RepairAll(env: map<int, VisitEnv>)
      requires disks.Keys <= env.Keys
      requires forall id :: id in disks ==> Repairable(At(id), env[id])
      modifies this
      ensures disks.Keys == old(disks.Keys) && !restarting
      ensures forall id :: id in disks ==> Repaired(old(At(id)), At(id), env[id].check)
    {
      hide Repairable, Repaired, S.Visit, S.Sweep;
      ghost var before := map id | id in disks :: At(id);
      Tick(Acked, true, env);
      forall id | id in disks ensures Repaired(before[id], At(id), env[id].check) {
        TickedSite(before[id], env[id]);
      }
    }

    // ----- any sequence of calls, on all sites -----

    /** One request or visit to one site. */
    method Do(id: int, op: Op) returns (trail: seq<Disk>)
      requires id in disks && !op.OpSweep?
      modifies this`disks, this`uncertain, this`retry, this`alerted
      ensures var o := Act(old(At(id)), op);
        Moved(id, o) && trail == o.trail
    {
      hide S.Configure, S.Unlock, S.Extend, S.Relock, S.RelockOwned;
      var result;
      match op {
        case OpConfigure(enabled, minutes, password, e) =>
          result, trail := Configure(id, enabled, minutes, password, e);
        case OpUnlock(req, e) => result, trail := Unlock(id, req, e);
        case OpExtend(req, e) => result, trail := Extend(id, req, e);
        case OpRelock(windowId, e) => result, trail := Relock(id, windowId, e);
        case OpVisit(e) =>
          trail := [];
          if !restarting && (disks[id].row.security.window.Some? || id in uncertain) {
            trail := Visit(id, e);
          }
      }
    }

    /** The process died while the disk of site id was d. */
    method Die(id: int, d: Disk)
      requires id in disks
      modifies this
      ensures disks == old(disks)[id := d] && restarting
      ensures forall other :: other in disks ==> At(other) == World(disks[other], CLEAR, true)
    {
      disks, uncertain, retry, alerted, restarting := disks[id := d], {}, map[], {}, true;
    }

    method SweepRows(o: Write)
      modifies this
      ensures disks.Keys == old(disks.Keys) && restarting == (old(restarting) && o != Acked)
      ensures forall id :: id in disks ==> At(id) == S.Sweep(old(At(id)), o)
    {
      if restarting {
        if o != Lost {
          disks := map id | id in disks :: Swept(disks[id]);
        }
        restarting := o != Acked;
      }
    }

    /** Every site meets the invariant; the sites in `homes` were sealed when the run began. */
    ghost predicate AllInv(clock: int, homes: set<int>)
      reads this
    {
      forall id :: id in disks ==> Inv(At(id), clock, Anchor(id in homes, None, false))
    }

    /** One request to one site, which may kill the process; the other sites keep theirs. */
    method Serve(id: int, op: Op, end: int, crash: Option<nat>, ghost clock: int, ghost homes: set<int>)
      requires id in disks && !op.OpSweep? && Timely(op, clock, end) && AllInv(clock, homes)
      modifies this
      ensures disks.Keys == old(disks.Keys) && AllInv(end, homes)
    {
      hide Inv, Act;
      ghost var before := map site | site in disks :: At(site);
      var d := disks[id];
      var trail := Do(id, op);
      ApplySound(before[id], Move(op, end, crash), clock, Anchor(id in homes, None, false));
      if crash.Some? {
        Die(id, if 0 < crash.value <= |trail| then trail[crash.value - 1] else d);
        forall site | site in disks && site != id ensures Inv(At(site), end, Anchor(site in homes, None, false)) {
          Restarted(before[site], clock, end, Anchor(site in homes, None, false));
        }
      } else {
        forall site | site in disks && site != id ensures Inv(At(site), end, Anchor(site in homes, None, false)) {
          InvLater(before[site], clock, end, Anchor(site in homes, None, false));
        }
      }
    }

    /** The sweep alone, after which the process may be killed. */
    method ServeSweep(o: Write, end: int, crash: bool, ghost clock: int, ghost homes: set<int>)
      requires clock <= end && AllInv(clock, homes)
      modifies this
      ensures disks.Keys == old(disks.Keys) && AllInv(end, homes)
    {
      hide Inv, S.Sweep;
      ghost var before := map site | site in disks :: At(site);
      SweepRows(o);
      forall site | site in disks ensures Inv(At(site), end, Anchor(site in homes, None, false)) {
        SweepSound(before[site], o, clock, Anchor(site in homes, None, false));
        InvLater(S.Sweep(before[site], o), clock, end, Anchor(site in homes, None, false));
      }
      if crash {
        ghost var swept := map site | site in disks :: At(site);
        uncertain, retry, alerted, restarting := {}, map[], {}, true;
        forall site | site in disks ensures Inv(At(site), end, Anchor(site in homes, None, false)) {
          Restarted(swept[site], end, end, Anchor(site in homes, None, false));
        }
      }
    }

    /** A whole `Tick`, or the start of a new process; when the start is reported ready, no window is left. */
    method ServeAll(start: bool, sweep: Write, listOk: bool, countOk: bool, env: map<int, VisitEnv>, end: int,
        ghost clock: int, ghost homes: set<int>)
      returns (ready: bool)
      requires disks.Keys <= env.Keys && clock <= end && AllInv(clock, homes)
      modifies this
      ensures disks.Keys == old(disks.Keys) && AllInv(end, homes)
      ensures ready ==> forall id :: id in disks ==> disks[id].row.security.window == None
    {
      hide Inv, S.Sweep, Visited;
      ghost var before := map site | site in disks :: if start then World(disks[site], CLEAR, true) else At(site);
      ghost var was := map site | site in disks :: At(site);
      ready := false;
      if start {
        ready := Start(sweep, listOk, env, countOk);
      } else {
        Tick(sweep, listOk, env);
      }
      forall site | site in disks ensures Inv(At(site), end, Anchor(site in homes, None, false)) {
        ghost var a := Anchor(site in homes, None, false);
        if start { Restarted(was[site], clock, end, a); } else { InvLater(was[site], clock, end, a); }
        SweepSound(before[site], sweep, end, a);
        VisitedSound(S.Sweep(before[site], sweep), env[site], end, a);
      }
    }

    /** The panel lives: any requests to any sites, sweeps, ticks and starts, in any order, with
        any failures, and killed at any point.  Every site meets the invariant of `RunSound`;
        so a site that was sealed at the beginning is sealed whenever it has no window. */
    method Live(calls: seq<Call>, ghost clock: int, ghost homes: set<int>) returns (ghost end: int)
      requires AllInv(clock, homes) && InTime(calls, clock, disks.Keys)
      modifies this
      ensures disks.Keys == old(disks.Keys) && end >= clock && AllInv(end, homes)
      ensures forall id :: id in disks && id in homes && disks[id].row.security.window == None ==> SealedShut(disks[id])
    {
      hide Inv, Timely;
      end := clock;
      ghost var sites := disks.Keys;
      for i := 0 to |calls|
        invariant disks.Keys == sites && end == Clock(calls, i, clock) && end >= clock && AllInv(end, homes)
      {
        assert Fits(calls[i], end, sites);
        match calls[i] {
          case One(id, op, over, crash) => Serve(id, op, over, crash, end, homes);
          case Sweeps(o, over, killed) => ServeSweep(o, over, killed, end, homes);
          case All(start, sweep, listOk, countOk, env, over) =>
            var _ := ServeAll(start, sweep, listOk, countOk, env, over, end, homes);
        }
        end := calls[i].end;
      }
      forall id | id in disks && id in homes && disks[id].row.security.window == None ensures SealedShut(disks[id]) {
        HomeSealed(At(id), end);
      }
    }
  }
}
