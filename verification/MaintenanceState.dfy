/**
 The maintenance window of one site: the durable row, the file tree, the latches
 the panel keeps in memory, and what every operation does to them.

 Each operation is a function of the state before, the request, and an
 environment that lists how every effect of that call turns out (each write,
 each file-tree operation, each reading of the clock).  Besides the state after,
 an operation returns its `trail`: the durable states it passes through, one per
 durable effect.  A crash leaves some state of the trail on disk.
 */
module MaintenanceState {
  import opened Common

  datatype Mode = NoMode | Legacy | Standard | Strict

  datatype WindowState = Unlocking | Unlocked | Relocking | RelockFailed | Unresolved

  datatype Failure = NoFailure | Permissions | Verification | StateCommit | NotCommitted

  datatype Window = Window(
    id: string, state: WindowState, started: int, expires: int, verifiedUntil: int,
    mode: Mode, root: string, user: string, actor: string,
    revision: int, lastRequest: string, lastMinutes: int,
    retryAt: int, alerted: bool, reason: string, failure: Failure)

  datatype FailedRequest = FailedRequest(id: string, at: int)

  /** The private record of a site.  `secret` stands for the password hash. */
  datatype Security = Security(
    enabled: bool, minutes: int, secret: Option<string>,
    failures: seq<int>, frozenUntil: int, window: Option<Window>,
    closed: string, closedReason: string, failedRequests: seq<FailedRequest>)

  datatype ApplyStatus = Idle | Applying | Failed | Ready

  datatype Row = Row(
    locked: bool, status: ApplyStatus, mode: Mode, root: string, user: string,
    wordpress: bool, active: bool, security: Security)

  /** `Sealed(m)`: every permission is as mode m prescribes.  `Loose`: anything else. */
  datatype Tree = Sealed(mode: Mode) | Loose

  /** History of the committed grants of the current window and of every committed
      password failure.  No operation reads it. */
  datatype Book = Book(granted: Option<int>, extensions: seq<int>, verified: nat, failed: seq<FailedRequest>)

  datatype Disk = Disk(row: Row, tree: Tree, book: Book)

  /** Memory latches of one site; retry == 0 means no retry time is recorded. */
  datatype Latch = Latch(uncertain: bool, retry: int, alerted: bool)

  const CLEAR := Latch(false, 0, false)

  datatype World = World(disk: Disk, latch: Latch, restarting: bool)

  datatype Result = Done | Validation | Frozen | Busy | Unknown | PasswordRequired | LockMode

  datatype Outcome = Outcome(disk: Disk, latch: Latch, result: Result, trail: seq<Disk>)

  /** The copy of the record an operation edits, with the text it compares against. */
  datatype Draft = Draft(state: Security, raw: Security, book: Book)

  datatype FileState = Keep | ToUnlocking | ToUnlocked | ToRelocking | ToFailed | ToLocked

  datatype TreeEffect = TreeEffect(during: Tree, after: Tree, ok: bool)

  datatype Request = Request(windowId: string, requestId: string, revision: int, minutes: int, password: string,
      actor: string)

  datatype RelockEnv = RelockEnv(
    sweepFirst: bool, now: int, intent: Write, sweepLater: bool,
    lock: TreeEffect, verifyOk: bool, commit: Write, later: int, report: Write)

  datatype CompensateEnv = CompensateEnv(lock: TreeEffect, verifyOk: bool, now: int, report: Write)

  datatype UnlockEnv = UnlockEnv(
    busy: bool, loadOk: bool, seen: int, configLocked: bool, conflict: Result, tried: int, recordFailure: Write,
    start: int, intent: Write, unlock: TreeEffect, commit: Write, check: int,
    compensate: CompensateEnv, relock: RelockEnv)

  datatype ExtendEnv = ExtendEnv(
    busy: bool, loadOk: bool, seen: int, tried: int, recordFailure: Write, check: int, commit: Write)

  datatype RelockCall = RelockCall(busy: bool, loadOk: bool, relock: RelockEnv)

  datatype ConfigureEnv = ConfigureEnv(busy: bool, loadOk: bool, sealOk: bool, commit: Write)

  datatype VisitEnv = VisitEnv(busy: bool, loadOk: bool, check: int, relock: RelockEnv)

  // ----- identifiers and the stored record -----

  predicate Hex(c: char) { '0' <= c <= '9' || 'a' <= c <= 'f' || 'A' <= c <= 'F' }

  /** The 36-character form of a UUID. */
  predicate ValidId(id: string) {
    && |id| == 36
    && forall i :: 0 <= i < 36 ==> if i in {8, 13, 18, 23} then id[i] == '-' else Hex(id[i])
  }

  function Loaded(s: Security): Security {
    if s.minutes == 0 then s.(minutes := 5) else s
  }

  function EffectiveMode(row: Row): Mode {
    if row.locked then row.mode else NoMode
  }

  predicate ModeAllowed(row: Row) {
    EffectiveMode(row) == Standard || EffectiveMode(row) == Strict
  }

  predicate IsUncertain(w: World) { w.restarting || w.latch.uncertain }

  /** The single UPDATE statement of `save`, on a row whose record matched. */
  function Written(row: Row, state: Security, file: FileState): Row
    requires file == ToLocked ==> state.window.Some?
  {
    match file
    case Keep => row.(security := state)
    case ToUnlocking => row.(security := state, status := Applying)
    case ToRelocking => row.(security := state, status := Applying)
    case ToUnlocked => row.(security := state, locked := false, status := Idle)
    case ToFailed => row.(security := state, status := Failed)
    case ToLocked =>
      var w := state.window.value;
      row.(locked := true, status := Ready, mode := w.mode,
           security := state.(closed := w.id, closedReason := w.reason, window := None))
  }

  datatype Saved = Saved(disk: Disk, raw: Security, ok: bool)

  /** Compare-and-swap on the whole record. */
  function Save(d: Disk, draft: Draft, file: FileState, o: Write): Saved
    requires file == ToLocked ==> draft.state.window.Some?
  {
    var hit := o != Lost && d.row.security == draft.raw;
    var after := if hit then Disk(Written(d.row, draft.state, file), d.tree, draft.book) else d;
    var ok := hit && o == Acked;
    Saved(after, if ok then after.row.security else draft.raw, ok)
  }

  function Still(w: World, r: Result): Outcome { Outcome(w.disk, w.latch, r, []) }

  /** The restart sweep on one row. */
  function Swept(d: Disk): Disk {
    match d.row.security.window
    case None => d
    case Some(v) =>
      d.(row := d.row.(security := d.row.security.(
        window := Some(v.(state := Relocking, reason := "restart", retryAt := 0)))))
  }

  /** The sweep of a concurrent `Tick`, which does not take the site's operation lock. */
  function Interleaved(d: Disk, sweep: bool, restarting: bool): Disk {
    if sweep && restarting then Swept(d) else d
  }

  function WithWindow(draft: Draft, v: Window): Draft {
    draft.(state := draft.state.(window := Some(v)))
  }

  // ----- password -----

  /** How many bytes a text takes in UTF-8. */
  function Bytes(s: string): (n: nat)
    ensures |s| <= n <= 4 * |s|
  {
    if s == "" then 0
    else
      var c := s[|s| - 1] as int;
      Bytes(s[..|s| - 1]) + if c < 0x80 then 1 else if c < 0x800 then 2 else if c < 0x1_0000 then 3 else 4
  }

  /** The requests among the first n that are younger than 600 seconds. */
  function Recent(rs: seq<FailedRequest>, n: nat, now: int): seq<FailedRequest>
    requires n <= |rs|
  {
    if n == 0 then []
    else Recent(rs, n - 1, now) + if rs[n - 1].at > now - 600 then [rs[n - 1]] else []
  }

  function RecentStamps(ts: seq<int>, n: nat, now: int): seq<int>
    requires n <= |ts|
  {
    if n == 0 then []
    else RecentStamps(ts, n - 1, now) + if ts[n - 1] > now - 600 then [ts[n - 1]] else []
  }

  function Trimmed(state: Security, now: int): Security {
    state.(failedRequests := Recent(state.failedRequests, |state.failedRequests|, now))
  }

  predicate Replayed(rs: seq<FailedRequest>, id: string, now: int) {
    exists i :: 0 <= i < |rs| && rs[i].at > now - 600 && rs[i].id == id
  }

  datatype Auth = Auth(disk: Disk, latch: Latch, draft: Draft, result: Result, trail: seq<Disk>)

  function FailedAttempt(draft: Draft, id: string, now: int): Draft {
    var stamps := RecentStamps(draft.state.failures, |draft.state.failures|, now) + [now];
    var state := draft.state.(failures := stamps,
      failedRequests := draft.state.failedRequests + [FailedRequest(id, now)]);
    draft.(state := if |stamps| >= 5 then state.(frozenUntil := now + 600) else state,
           book := draft.book.(failed := draft.book.failed + [FailedRequest(id, now)]))
  }

  function CheckPassword(d: Disk, l: Latch, draft: Draft, password: string, id: string, now: int, o: Write): Auth {
    if draft.state.frozenUntil > now then Auth(d, l, draft, Frozen, [])
    else if Replayed(draft.state.failedRequests, id, now) then Auth(d, l, draft, Validation, [])
    else
      var trimmed := draft.(state := Trimmed(draft.state, now));
      if password == "" then Auth(d, l, trimmed, PasswordRequired, [])
      else if Bytes(password) <= 72 && draft.state.secret == Some(password) then Auth(d, l, trimmed, Done, [])
      else
        var failed := FailedAttempt(trimmed, id, now);
        var s := Save(d, failed, Keep, o);
        if !s.ok then Auth(s.disk, l.(uncertain := true), failed, Unknown, [s.disk])
        else
          var frozen := |failed.state.failures| >= 5;
          Auth(s.disk, l, failed.(raw := s.raw), if frozen then Frozen else Validation, [s.disk])
  }

  // ----- relocking -----

  function SealedNow(d: Disk, mode: Mode, lock: TreeEffect, verifyOk: bool): bool {
    lock.ok && verifyOk && d.tree == Sealed(mode)
  }

  function Stage(lock: TreeEffect): Failure { if lock.ok then Verification else Permissions }

  function RelockFailure(d: Disk, draft: Draft, failure: Failure, later: int, report: Write, trail: seq<Disk>): Outcome
    requires draft.state.window.Some?
  {
    var v := draft.state.window.value;
    var late := v.(state := RelockFailed, retryAt := later + 60, failure := failure, alerted := true);
    var s := Save(d, WithWindow(draft, late), ToFailed, report);
    Outcome(s.disk, Latch(true, later + 60, true), Unknown, trail + [s.disk])
  }

  /** Lock, verify and commit, once the intent to relock is durable. */
  function CloseWindow(d: Disk, draft: Draft, e: RelockEnv, restarting: bool, trail: seq<Disk>): Outcome
    requires draft.state.window.Some?
  {
    var v := draft.state.window.value;
    var swept := Interleaved(d, e.sweepLater, restarting);
    var after := swept.(tree := e.lock.after);
    var seen := trail + [swept, swept.(tree := e.lock.during), after];
    if !SealedNow(after, v.mode, e.lock, e.verifyOk) then
      RelockFailure(after, draft, Stage(e.lock), e.later, e.report, seen)
    else
      var s := Save(after, draft, ToLocked, e.commit);
      if s.ok then Outcome(s.disk, CLEAR, Done, seen + [s.disk])
      else RelockFailure(s.disk, draft, StateCommit, e.later, e.report, seen + [s.disk])
  }

  function RelockOwned(d: Disk, l: Latch, draft: Draft, e: RelockEnv, restarting: bool): Outcome
    requires draft.state.window.Some?
  {
    var v := draft.state.window.value;
    var swept := Interleaved(d, e.sweepFirst, restarting);
    if v.retryAt > e.now || l.retry > e.now then Outcome(swept, l, Busy, [swept])
    else if d.row.root != v.root || d.row.user != v.user then Outcome(swept, l.(uncertain := true), Unknown, [swept])
    else
      var intent := WithWindow(draft, v.(state := Relocking));
      var s := Save(swept, intent, ToRelocking, e.intent);
      if !s.ok then Outcome(s.disk, l.(uncertain := true), Unknown, [swept, s.disk])
      else CloseWindow(s.disk, intent.(raw := s.raw), e, restarting, [swept, s.disk])
  }

  function Relock(w: World, windowId: string, e: RelockCall): Outcome {
    var stored := w.disk.row.security;
    if !ValidId(windowId) then Still(w, Validation)
    else if e.busy then Still(w, Busy)
    else if !e.loadOk then Still(w, Unknown)
    else if stored.window == None && stored.closed == windowId then Still(w, Done)
    else if stored.window == None || stored.window.value.id != windowId then Still(w, Busy)
    else RelockOwned(w.disk, w.latch, Draft(Loaded(stored), stored, w.disk.book), e.relock, w.restarting)
  }

  // ----- unlocking -----

  function Compensate(d: Disk, l: Latch, draft: Draft, e: CompensateEnv, trail: seq<Disk>): Outcome
    requires draft.state.window.Some?
  {
    var v := draft.state.window.value;
    var after := d.(tree := e.lock.after);
    var seen := trail + [d.(tree := e.lock.during), after];
    if !SealedNow(after, v.mode, e.lock, e.verifyOk) then
      RelockFailure(after, draft, Stage(e.lock), e.now, e.report, seen)
    else
      var s := Save(after, WithWindow(draft, v.(state := Unresolved, failure := NotCommitted)), ToFailed, e.report);
      Outcome(s.disk, l.(uncertain := true), Unknown, seen + [s.disk])
  }

  /** From a durable intent to the open window. */
  function Loosen(d: Disk, l: Latch, draft: Draft, e: UnlockEnv, trail: seq<Disk>): Outcome
    requires draft.state.window.Some?
  {
    var after := d.(tree := e.unlock.after);
    var seen := trail + [d.(tree := e.unlock.during), after];
    if !e.unlock.ok then Compensate(after, l, draft, e.compensate, seen)
    else
      var v := draft.state.window.value;
      var open := WithWindow(draft, v.(state := Unlocked, expires := e.start + draft.state.minutes * 60))
                  .(book := draft.book.(granted := Some(draft.state.minutes)));
      var s := Save(after, open, ToUnlocked, e.commit);
      if !s.ok then Compensate(s.disk, l, open, e.compensate, seen + [s.disk])
      else if open.state.window.value.expires <= e.check then
        var o := RelockOwned(s.disk, l, open.(raw := s.raw), e.relock, false);
        o.(trail := seen + [s.disk] + o.trail)
      else Outcome(s.disk, l, Done, seen + [s.disk])
  }

  function NewWindow(row: Row, req: Request, start: int): Window {
    Window(req.requestId, Unlocking, start, 0, start + 1800, EffectiveMode(row), row.root, row.user, req.actor,
           0, "", 0, 0, false, "", NoFailure)
  }

  function OpenWindow(w: World, req: Request, e: UnlockEnv): Outcome {
    var stored := w.disk.row.security;
    var a := CheckPassword(w.disk, w.latch, Draft(Loaded(stored), stored, w.disk.book), req.password, req.requestId,
                           e.tried, e.recordFailure);
    if a.result != Done then Outcome(a.disk, a.latch, a.result, a.trail)
    else
      var draft :=
        WithWindow(a.draft, NewWindow(w.disk.row, req, e.start)).(book := Book(None, [], 1, a.draft.book.failed));
      var s := Save(a.disk, draft, ToUnlocking, e.intent);
      if !s.ok then Outcome(s.disk, a.latch.(uncertain := true), Unknown, a.trail + [s.disk])
      else Loosen(s.disk, a.latch, draft.(raw := s.raw), e, a.trail + [s.disk])
  }

  function Unlock(w: World, req: Request, e: UnlockEnv): Outcome {
    var row := w.disk.row;
    if !ValidId(req.requestId) || Bytes(req.actor) > 128 then Still(w, Validation)
    else if e.busy then Still(w, Busy)
    else if !e.loadOk || IsUncertain(w) then Still(w, Unknown)
    else if !row.security.enabled || !row.wordpress || !row.active then Still(w, Validation)
    else if row.security.window.Some? then
      var v := row.security.window.value;
      Still(w, if v.id == req.requestId && v.state == Unlocked && v.expires > e.seen then Done else Busy)
    else if row.security.closed == req.requestId || !row.locked || row.status != Ready || e.configLocked then
      Still(w, Busy)
    else if !ModeAllowed(row) then Still(w, LockMode)
    else if e.conflict != Done then Still(w, e.conflict)
    else OpenWindow(w, req, e)
  }

  // ----- extending -----

  function Extended(draft: Draft, req: Request, again: bool): Draft
    requires draft.state.window.Some?
  {
    var v := draft.state.window.value;
    var longer := v.(expires := v.expires + req.minutes * 60, revision := v.revision + 1,
                     lastRequest := req.requestId, lastMinutes := req.minutes,
                     verifiedUntil := if again then v.verifiedUntil + 1800 else v.verifiedUntil);
    WithWindow(draft, longer)
    .(book := draft.book.(extensions := draft.book.extensions + [req.minutes],
                          verified := if again then draft.book.verified + 1 else draft.book.verified))
  }

  function CommitExtension(d: Disk, l: Latch, draft: Draft, req: Request, again: bool, e: ExtendEnv,
      trail: seq<Disk>): Outcome
    requires draft.state.window.Some?
  {
    if draft.state.window.value.expires <= e.check then Outcome(d, l, Busy, trail)
    else
      var s := Save(d, Extended(draft, req, again), Keep, e.commit);
      if !s.ok then Outcome(s.disk, l.(uncertain := true), Unknown, trail + [s.disk])
      else Outcome(s.disk, l, Done, trail + [s.disk])
  }

  function Extend(w: World, req: Request, e: ExtendEnv): Outcome {
    var stored := w.disk.row.security;
    var state := Loaded(stored);
    if !ValidId(req.requestId) || !ValidId(req.windowId) || req.minutes !in {1, 3, 5} then Still(w, Validation)
    else if e.busy then Still(w, Busy)
    else if !e.loadOk || IsUncertain(w) then Still(w, Unknown)
    else if !state.enabled || !w.disk.row.active || state.window == None || state.window.value.id != req.windowId
            || state.window.value.state != Unlocked || state.window.value.expires <= e.seen then Still(w, Busy)
    else
      var v := state.window.value;
      if v.lastRequest == req.requestId then Still(w, if v.lastMinutes == req.minutes then Done else Validation)
      else if v.revision != req.revision then Still(w, Busy)
      else
        var draft := Draft(state, stored, w.disk.book);
        if v.expires + req.minutes * 60 > v.verifiedUntil then
          var a := CheckPassword(w.disk, w.latch, draft, req.password, req.requestId, e.tried, e.recordFailure);
          if a.result != Done then Outcome(a.disk, a.latch, a.result, a.trail)
          else CommitExtension(a.disk, a.latch, a.draft, req, true, e, a.trail)
        else CommitExtension(w.disk, w.latch, draft, req, false, e, [])
  }

  // ----- configuration, status, the periodic repair -----

  function Configure(w: World, enabled: bool, minutes: int, password: string, e: ConfigureEnv): Outcome {
    var row := w.disk.row;
    if minutes !in {3, 5, 10} then Still(w, Validation)
    else if Bytes(password) > 72 || (password != "" && |password| < 4) then Still(w, Validation)
    else if e.busy then Still(w, Busy)
    else if !e.loadOk then Still(w, Unknown)
    else if row.security.window.Some? || IsUncertain(w) || !row.wordpress then Still(w, Busy)
    else if enabled && row.locked && !ModeAllowed(row) then Still(w, LockMode)
    else if password != "" && !e.sealOk then Still(w, Unknown)
    else
      var stored := row.security;
      var secret := if password != "" then Some(password) else stored.secret;
      if enabled && secret == None then Still(w, Validation)
      else
        var draft := Draft(stored.(secret := secret, enabled := enabled, minutes := minutes), stored, w.disk.book);
        var s := Save(w.disk, draft, Keep, e.commit);
        Outcome(s.disk, w.latch, if s.ok then Done else Unknown, [s.disk])
  }

  datatype Shown = ShowLocked | ShowUnlockedPermanently | ShowUnknown | ShowWindow(state: WindowState)

  function Status(w: World, now: int): Shown {
    var row := w.disk.row;
    var shown := match row.security.window
      case Some(v) => ShowWindow(if v.state == Unlocked && v.expires <= now then Relocking else v.state)
      case None =>
        if row.status == Failed || row.status == Applying then ShowUnknown
        else if row.locked then ShowLocked else ShowUnlockedPermanently;
    if IsUncertain(w) && shown != ShowWindow(RelockFailed) && shown != ShowWindow(Relocking) then ShowUnknown else shown
  }

  /** First half of `Tick`: after a restart, record on every open window that it must close. */
  function Sweep(w: World, o: Write): World {
    if !w.restarting then w
    else w.(disk := if o == Lost then w.disk else Swept(w.disk), restarting := o != Acked)
  }

  /** Second half of `Tick`, on one site. */
  function Visit(w: World, e: VisitEnv): Outcome {
    var stored := w.disk.row.security;
    if w.restarting || (stored.window == None && !w.latch.uncertain) || e.busy || !e.loadOk then Still(w, Busy)
    else if stored.window == None then Outcome(w.disk, CLEAR, Done, [])
    else
      var v := stored.window.value;
      if v.state != Unlocked || v.expires <= e.check || w.latch.uncertain then
        RelockOwned(w.disk, w.latch, Draft(Loaded(stored), stored, w.disk.book), e.relock, false)
      else Still(w, Done)
  }
}
