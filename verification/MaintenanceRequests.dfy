/**
 What each request to the maintenance window takes and what it does, stated on the stored
 row and the request alone, without the steps in between.
 */
module MaintenanceRequests {
  import opened Common
  import opened MaintenanceState

  /** `d` is a durable state of the operation. */
  ghost predicate Passes(o: Outcome, d: Disk) { d in o.trail || d == o.disk }

  // ----- identifiers and lengths -----

  ghost predicate HexDigits(s: string, n: nat) {
    |s| == n && forall i :: 0 <= i < n ==> s[i] in "0123456789abcdefABCDEF"
  }

  /** A UUID as section 4 of RFC 9562 writes it: groups of 8, 4, 4, 4 and 12 digits with hyphens between them. */
  ghost predicate Groups(id: string, a: string, b: string, c: string, d: string, e: string) {
    && id == a + "-" + b + "-" + c + "-" + d + "-" + e
    && HexDigits(a, 8) && HexDigits(b, 4) && HexDigits(c, 4) && HexDigits(d, 4) && HexDigits(e, 12)
  }

  lemma HexIff(c: char)
    ensures Hex(c) <==> c in "0123456789abcdefABCDEF"
  {
    var digits := "0123456789abcdefABCDEF";
    if '0' <= c <= '9' {
      assert digits[c as int - '0' as int] == c;
    } else if 'a' <= c <= 'f' {
      assert digits[10 + (c as int - 'a' as int)] == c;
    } else if 'A' <= c <= 'F' {
      assert digits[16 + (c as int - 'A' as int)] == c;
    }
  }

  lemma DigitsThere(id: string, k: nat, n: nat)
    requires k + n <= |id|
    ensures HexDigits(id[k..k + n], n) <==> forall i :: k <= i < k + n ==> Hex(id[i])
  {
    forall x: char ensures Hex(x) <==> x in "0123456789abcdefABCDEF" { HexIff(x); }
    hide Hex;
    var t := id[k..k + n];
    if HexDigits(t, n) {
      forall i | k <= i < k + n ensures Hex(id[i]) { assert t[i - k] == id[i]; }
    }
  }

  lemma ValidIdIff(id: string)
    ensures ValidId(id) <==> exists a, b, c, d, e :: Groups(id, a, b, c, d, e)
  {
    hide Hex, HexDigits;
    if ValidId(id) {
      DigitsThere(id, 0, 8);
      DigitsThere(id, 9, 4);
      DigitsThere(id, 14, 4);
      DigitsThere(id, 19, 4);
      DigitsThere(id, 24, 12);
      assert id == id[0..8] + "-" + id[9..13] + "-" + id[14..18] + "-" + id[19..23] + "-" + id[24..36];
      assert Groups(id, id[0..8], id[9..13], id[14..18], id[19..23], id[24..36]);
    }
    if a, b, c, d, e :| Groups(id, a, b, c, d, e) { GroupsAreValid(id, a, b, c, d, e); }
  }

  lemma GroupsAreValid(id: string, a: string, b: string, c: string, d: string, e: string)
    requires Groups(id, a, b, c, d, e)
    ensures ValidId(id)
  {
    GroupLengths(a, b, c, d, e);
    hide Hex, HexDigits;
    Slices(id, a, b, c, d, e);
    DigitsThere(id, 0, 8);
    DigitsThere(id, 9, 4);
    DigitsThere(id, 14, 4);
    DigitsThere(id, 19, 4);
    DigitsThere(id, 24, 12);
  }

  lemma Slices(id: string, a: string, b: string, c: string, d: string, e: string)
    requires id == a + "-" + b + "-" + c + "-" + d + "-" + e
    requires |a| == 8 && |b| == |c| == |d| == 4 && |e| == 12
    ensures |id| == 36 && id[0..8] == a && id[9..13] == b && id[14..18] == c && id[19..23] == d && id[24..36] == e
    ensures id[8] == id[13] == id[18] == id[23] == '-'
  {
    var x, y, z := a + "-" + b, a + "-" + b + "-" + c, a + "-" + b + "-" + c + "-" + d;
    assert id[..13] == x && id[..18] == y && id[..23] == z;
    assert x[0..8] == a && x[9..13] == b && y[14..18] == c && z[19..23] == d;
    assert x[8] == '-' && y[13] == '-' && z[18] == '-';
  }

  lemma GroupLengths(a: string, b: string, c: string, d: string, e: string)
    requires HexDigits(a, 8) && HexDigits(b, 4) && HexDigits(c, 4) && HexDigits(d, 4) && HexDigits(e, 12)
    ensures |a| == 8 && |b| == |c| == |d| == 4 && |e| == 12
  {
  }

  /** The bytes of a code point, as section 3 of RFC 3629 has them. */
  function Utf8(c: char): seq<int> {
    var n := c as int;
    var k := n / 0x40;
    var m := k / 0x40;
    if n < 0x80 then [n]
    else if n < 0x800 then [0xC0 + k, 0x80 + n % 0x40]
    else if n < 0x1_0000 then [0xE0 + m, 0x80 + k % 0x40, 0x80 + n % 0x40]
    else [0xF0 + m / 0x40, 0x80 + m % 0x40, 0x80 + k % 0x40, 0x80 + n % 0x40]
  }

  /** What such bytes stand for: the first byte tells how many there are. */
  function CodePoint(b: seq<int>): int {
    if |b| == 1 && b[0] < 0x80 then b[0]
    else if |b| == 2 && 0xC0 <= b[0] < 0xE0 then (b[0] - 0xC0) * 0x40 + (b[1] - 0x80)
    else if |b| == 3 && 0xE0 <= b[0] < 0xF0 then (b[0] - 0xE0) * 0x1000 + (b[1] - 0x80) * 0x40 + (b[2] - 0x80)
    else if |b| == 4 && 0xF0 <= b[0] < 0xF8 then
      (b[0] - 0xF0) * 0x4_0000 + (b[1] - 0x80) * 0x1000 + (b[2] - 0x80) * 0x40 + (b[3] - 0x80)
    else -1
  }

  lemma Utf8Reads(c: char)
    ensures CodePoint(Utf8(c)) == c as int && forall i :: 0 < i < |Utf8(c)| ==> 0x80 <= Utf8(c)[i] < 0xC0
  {
    var n := c as int;
    var k := n / 0x40;
    var m := k / 0x40;
    assert n == k * 0x40 + n % 0x40 && k == m * 0x40 + k % 0x40 && m == m / 0x40 * 0x40 + m % 0x40;
  }

  function Utf8Text(s: string): seq<int> {
    if s == "" then [] else Utf8Text(s[..|s| - 1]) + Utf8(s[|s| - 1])
  }

  /** The lengths that are limited are those of the UTF-8 text. */
  lemma {:induction false} BytesAreUtf8(s: string)
    ensures Bytes(s) == |Utf8Text(s)|
  {
    if s != "" { BytesAreUtf8(s[..|s| - 1]); }
  }

  // ----- the password -----

  /** The password was set, it takes at most 72 bytes, no freeze is in force, and no request
      with this id has failed in the last 600 seconds. */
  ghost predicate RightPassword(s: Security, password: string, id: string, now: int) {
    && password != "" && s.secret == Some(password) && Bytes(password) <= 72
    && s.frozenUntil <= now
    && forall i :: 0 <= i < |s.failedRequests| && s.failedRequests[i].id == id ==> s.failedRequests[i].at <= now - 600
  }

  /** Nothing but the record of failures differs, and the default of five minutes is filled in. */
  ghost predicate OnlyFailures(before: Disk, after: Disk) {
    && after.tree == before.tree
    && after.row == before.row.(security := after.row.security)
    && var s, t := before.row.security, after.row.security;
      t == s.(minutes := t.minutes, failures := t.failures, frozenUntil := t.frozenUntil,
              failedRequests := t.failedRequests)
      && (t.minutes == s.minutes || (s.minutes == 0 && t.minutes == 5))
  }

  lemma PasswordIff(d: Disk, l: Latch, stored: Security, password: string, id: string, now: int, o: Write)
    requires d.row.security == stored
    ensures var draft := Draft(Loaded(stored), stored, d.book);
      var a := CheckPassword(d, l, draft, password, id, now, o);
      && (a.result == Done <==> RightPassword(stored, password, id, now))
      && (a.result == Done ==> a == Auth(d, l, draft.(state := Trimmed(draft.state, now)), Done, []))
      && OnlyFailures(d, a.disk) && forall x :: x in a.trail ==> OnlyFailures(d, x)
  {
    hide Bytes, RecentStamps, Recent, OnlyFailures, Save, Trimmed, FailedAttempt;
    var draft := Draft(Loaded(stored), stored, d.book);
    var failed := FailedAttempt(draft.(state := Trimmed(draft.state, now)), id, now);
    SameFailures(d);
    SavedFailures(d, draft, id, now, o);
    assert CheckPassword(d, l, draft, password, id, now, o).trail in {[], [Save(d, failed, Keep, o).disk]};
  }

  lemma SavedFailures(d: Disk, draft: Draft, id: string, now: int, o: Write)
    requires draft == Draft(Loaded(d.row.security), d.row.security, d.book)
    ensures OnlyFailures(d, Save(d, FailedAttempt(draft.(state := Trimmed(draft.state, now)), id, now), Keep, o).disk)
  {
    hide RecentStamps, Recent;
  }

  lemma SameFailures(d: Disk)
    ensures OnlyFailures(d, d)
  {
  }

  // ----- unlocking -----

  function Granted(minutes: int): int { if minutes == 0 then 5 else minutes }

  /** What it takes to open a window. */
  ghost predicate Openable(w: World, req: Request, e: UnlockEnv) {
    var row, s := w.disk.row, w.disk.row.security;
    && ValidId(req.requestId) && Bytes(req.actor) <= 128
    && !e.busy && e.loadOk && !w.restarting && !w.latch.uncertain
    && s.enabled && row.wordpress && row.active && s.window == None && s.closed != req.requestId
    && row.locked && row.status == Ready && row.mode in {Standard, Strict} && !e.configLocked && e.conflict == Done
    && RightPassword(s, req.password, req.requestId, e.tried)
  }

  /** The window that a request opens. */
  function Opened(row: Row, req: Request, start: int): Window {
    Window(req.requestId, Unlocked, start, start + 60 * Granted(row.security.minutes), start + 1800, row.mode, row.root,
           row.user, req.actor, 0, "", 0, 0, false, "", NoFailure)
  }

  /** A request that meets all this, including the password, and whose intent is not lost, and
      no other, ever puts a window on disk or touches the file tree; any other leaves
      everything but the record of failures as it was. */
  lemma OpensOnlyWithPassword(w: World, req: Request, e: UnlockEnv)
    requires w.disk.row.security.window == None
    ensures var o := Unlock(w, req, e);
      (exists d :: Passes(o, d) && (d.row.security.window.Some? || d.tree != w.disk.tree))
      ==> Openable(w, req, e) && e.intent != Lost
    ensures Unlock(w, req, e).result == Done ==> Openable(w, req, e)
    ensures Openable(w, req, e) && e.intent != Lost ==>
      exists d ::
        Passes(Unlock(w, req, e), d) && d.row.security.window.Some? && d.row.security.window.value.id == req.requestId
    ensures !(Openable(w, req, e) && e.intent != Lost) ==>
        forall d :: Passes(Unlock(w, req, e), d) ==> OnlyFailures(w.disk, d)
  {
    hide CheckPassword, Loosen, Bytes, ValidId, RightPassword, OnlyFailures;
    var stored := w.disk.row.security;
    var draft := Draft(Loaded(stored), stored, w.disk.book);
    PasswordIff(w.disk, w.latch, stored, req.password, req.requestId, e.tried, e.recordFailure);
    assert OnlyFailures(w.disk, w.disk) by { SameFailures(w.disk); }
    Unfilled(w.disk);
    var o := Unlock(w, req, e);
    if Openable(w, req, e) {
      var a := CheckPassword(w.disk, w.latch, draft, req.password, req.requestId, e.tried, e.recordFailure);
      var open :=
        WithWindow(a.draft, NewWindow(w.disk.row, req, e.start)).(book := Book(None, [], 1, a.draft.book.failed));
      var s := Save(a.disk, open, ToUnlocking, e.intent);
      if e.intent != Lost {
        assert a.trail + [s.disk] == [s.disk];
        if s.ok { LoosenPasses(s.disk, a.latch, open.(raw := s.raw), e, [s.disk]); }
        assert s.disk in o.trail;
        assert Passes(o, s.disk);
      }
    }
  }

  lemma Unfilled(d: Disk)
    ensures forall x :: OnlyFailures(d, x) ==> x.tree == d.tree && x.row.security.window == d.row.security.window
  {
  }

  lemma LoosenPasses(d: Disk, l: Latch, draft: Draft, e: UnlockEnv, trail: seq<Disk>)
    requires draft.state.window.Some?
    ensures forall x :: x in trail ==> x in Loosen(d, l, draft, e, trail).trail
  {
    hide Save;
  }

  /** The converse: a request that meets all this and whose effects work opens exactly the window it asks for. */
  lemma OpensAsAsked(w: World, req: Request, e: UnlockEnv)
    requires Openable(w, req, e) && e.intent == e.commit == Acked && e.unlock.ok
    requires e.check < e.start + 60 * Granted(w.disk.row.security.minutes)
    ensures var o, row := Unlock(w, req, e), w.disk.row;
      && o.result == Done && o.latch == w.latch && o.disk.tree == e.unlock.after
      && o.disk.row == row.(locked := false, status := Idle, security := o.disk.row.security)
      && o.disk.row.security == row.security.(minutes := Granted(row.security.minutes),
           failedRequests := o.disk.row.security.failedRequests, window := Some(Opened(row, req, e.start)))
  {
    hide CheckPassword, RelockOwned, Compensate, Bytes, ValidId, RightPassword, OnlyFailures;
    PasswordIff(w.disk, w.latch, w.disk.row.security, req.password, req.requestId, e.tried, e.recordFailure);
  }

  // ----- extending -----

  /** What it takes to extend window v; a window that would outlast the last password check needs the password again. */
  ghost predicate Extensible(w: World, v: Window, req: Request, e: ExtendEnv) {
    var row, s := w.disk.row, w.disk.row.security;
    && ValidId(req.requestId) && ValidId(req.windowId) && req.minutes in {1, 3, 5}
    && !e.busy && e.loadOk && !w.restarting && !w.latch.uncertain
    && s.enabled && row.active && s.window == Some(v) && v.id == req.windowId && v.state == Unlocked
    && v.expires > e.seen && v.expires > e.check && v.lastRequest != req.requestId && v.revision == req.revision
    && (v.expires + 60 * req.minutes > v.verifiedUntil ==> RightPassword(s, req.password, req.requestId, e.tried))
  }

  function Longer(v: Window, req: Request): Window {
    v.(expires := v.expires + 60 * req.minutes, revision := v.revision + 1, lastRequest := req.requestId,
       lastMinutes := req.minutes,
       verifiedUntil := v.verifiedUntil + if v.expires + 60 * req.minutes > v.verifiedUntil then 1800 else 0)
  }

  /** An extension changes the window only if it meets all this, and then exactly as asked;
      otherwise everything but the record of failures stays as it was. */
  lemma ExtendsOnlyAsAsked(w: World, req: Request, e: ExtendEnv, v: Window)
    requires w.disk.row.security.window == Some(v)
    ensures var o := Extend(w, req, e);
      Extensible(w, v, req, e) && e.commit != Lost ==>
        && o.disk.row.security.window == Some(Longer(v, req)) && OnlyFailures(Replaced(w.disk, Longer(v, req)), o.disk)
        && o.result == (if e.commit == Acked then Done else Unknown) && o.latch.uncertain == (e.commit != Acked)
    ensures !(Extensible(w, v, req, e) && e.commit != Lost) ==>
        forall d :: Passes(Extend(w, req, e), d) ==> OnlyFailures(w.disk, d)
    ensures Extend(w, req, e).result == Done ==>
      || (Extensible(w, v, req, e) && e.commit == Acked)
      || (v.lastRequest == req.requestId && v.lastMinutes == req.minutes && v.id == req.windowId
          && v.state == Unlocked && v.expires > e.seen)
  {
    hide CheckPassword, CommitExtension, Bytes, ValidId, RightPassword, OnlyFailures;
    var stored := w.disk.row.security;
    var draft := Draft(Loaded(stored), stored, w.disk.book);
    var again := v.expires + 60 * req.minutes > v.verifiedUntil;
    PasswordIff(w.disk, w.latch, stored, req.password, req.requestId, e.tried, e.recordFailure);
    SameFailures(w.disk);
    var authorised := if again then draft.(state := Trimmed(draft.state, e.tried)) else draft;
    CommitsAsAsked(w.disk, w.latch, authorised, req, again, e, v);
  }

  /** The disk with its window replaced. */
  function Replaced(d: Disk, v: Window): Disk {
    d.(row := d.row.(security := d.row.security.(window := Some(v))))
  }

  lemma CommitsAsAsked(d: Disk, l: Latch, draft: Draft, req: Request, again: bool, e: ExtendEnv, v: Window)
    requires d.row.security.window == Some(v) && draft.raw == d.row.security
    requires draft.state == Loaded(draft.raw) || draft.state == Trimmed(Loaded(draft.raw), e.tried)
    requires again == (v.expires + 60 * req.minutes > v.verifiedUntil)
    ensures draft.state.window == Some(v)
    ensures var o := CommitExtension(d, l, draft, req, again, e, []);
      if v.expires > e.check && e.commit != Lost then
        && o.disk.row.security.window == Some(Longer(v, req)) && OnlyFailures(Replaced(d, Longer(v, req)), o.disk)
        && o.result == (if e.commit == Acked then Done else Unknown)
        && o.latch == (if e.commit == Acked then l else l.(uncertain := true))
      else
        && o.disk == d && (forall x :: x in o.trail ==> x == d)
        && o.result == if v.expires > e.check then Unknown else Busy
  {
    hide Recent, RecentStamps, OnlyFailures;
    var s := Save(d, Extended(draft, req, again), Keep, e.commit);
    if e.commit != Lost {
      assert Extended(draft, req, again).state == draft.state.(window := Some(Longer(v, req)));
      LongerSaved(d, draft, Longer(v, req), e, s.disk);
    }
  }

  lemma LongerSaved(d: Disk, draft: Draft, v: Window, e: ExtendEnv, after: Disk)
    requires d.row.security.window.Some? && draft.raw == d.row.security
    requires draft.state == Loaded(draft.raw) || draft.state == Trimmed(Loaded(draft.raw), e.tried)
    requires after.tree == d.tree && after.row == d.row.(security := draft.state.(window := Some(v)))
    ensures OnlyFailures(Replaced(d, v), after)
  {
    hide Recent, RecentStamps;
  }

  /** Without a window there is nothing to extend. */
  lemma NothingToExtend(w: World, req: Request, e: ExtendEnv)
    requires w.disk.row.security.window == None
    ensures var o := Extend(w, req, e); o.disk == w.disk && o.trail == [] && o.latch == w.latch && o.result != Done
  {
    hide ValidId;
  }

  // ----- closing -----

  /** Everything a closing needs works. */
  ghost predicate Closes(e: RelockEnv, mode: Mode) {
    && !e.sweepFirst && !e.sweepLater && e.intent == e.commit == Acked
    && e.lock.ok && e.lock.after == Sealed(mode) && e.verifyOk
  }

  /** A request to close touches nothing unless it names the window that is open; if it does,
      is not too early and everything works, the window is closed and the site sealed in the
      mode recorded with it. */
  lemma ClosesOnlyNamed(w: World, id: string, e: RelockCall)
    ensures (exists d :: Passes(Relock(w, id, e), d) && d != w.disk) ==>
      && w.disk.row.security.window.Some? && w.disk.row.security.window.value.id == id && ValidId(id) && !e.busy
      && e.loadOk
    ensures w.disk.row.security.window.Some? && ValidId(id) && !e.busy && e.loadOk ==>
      var v := w.disk.row.security.window.value;
      v.id == id && v.retryAt <= e.relock.now && w.latch.retry <= e.relock.now && v.root == w.disk.row.root
      && v.user == w.disk.row.user && Closes(e.relock, v.mode) ==>
        var o := Relock(w, id, e);
        && o.result == Done && o.latch == CLEAR && o.disk.tree == Sealed(v.mode)
        && o.disk.row == w.disk.row.(locked := true, status := Ready, mode := v.mode, security := o.disk.row.security)
        && o.disk.row.security.window == None && o.disk.row.security.closed == id
    ensures w.disk.row.security.window == None ==>
      (Relock(w, id, e).result == Done <==> ValidId(id) && !e.busy && e.loadOk && w.disk.row.security.closed == id)
  {
    hide ValidId, RelockOwned;
    var stored := w.disk.row.security;
    if stored.window.Some? { ClosesWhenAllWorks(w, Draft(Loaded(stored), stored, w.disk.book), e.relock); }
  }

  lemma ClosesWhenAllWorks(w: World, draft: Draft, e: RelockEnv)
    requires draft.state.window.Some? && draft.raw == w.disk.row.security && draft.state == Loaded(draft.raw)
    ensures var v := draft.state.window.value;
      v.retryAt <= e.now && w.latch.retry <= e.now && v.root == w.disk.row.root && v.user == w.disk.row.user
      && Closes(e, v.mode) ==>
        var o := RelockOwned(w.disk, w.latch, draft, e, w.restarting);
        && o.result == Done && o.latch == CLEAR && o.disk.tree == Sealed(v.mode)
        && o.disk.row == w.disk.row.(locked := true, status := Ready, mode := v.mode, security := o.disk.row.security)
        && o.disk.row.security.window == None && o.disk.row.security.closed == v.id
  {
  }

  /** When the lock cannot be set or verified, the site stays uncertain, the row says why, and
      for 60 seconds no attempt touches anything. */
  lemma FailedClosingWaits(w: World, draft: Draft, e: RelockEnv, again: RelockEnv)
    requires draft.state.window.Some? && draft.raw == w.disk.row.security && draft.state == Loaded(draft.raw)
    requires !w.restarting
    requires var v := draft.state.window.value;
      v.retryAt <= e.now && w.latch.retry <= e.now && v.root == w.disk.row.root && v.user == w.disk.row.user
    requires e.intent == Acked && !(e.lock.ok && e.verifyOk && e.lock.after == Sealed(draft.state.window.value.mode))
    ensures var o := RelockOwned(w.disk, w.latch, draft, e, false);
      && o.result == Unknown && o.latch == Latch(true, e.later + 60, true) && o.disk.tree == e.lock.after
      && o.disk.row.security.window.Some?
      && (e.report != Lost ==>
            var u := o.disk.row.security.window.value;
            && u.state == RelockFailed && o.disk.row.status == Failed && u.retryAt == e.later + 60
            && u.failure == (if e.lock.ok then Verification else Permissions))
      && var s := o.disk.row.security;
        again.now < e.later + 60 ==>
          var next := RelockOwned(o.disk, o.latch, Draft(Loaded(s), s, o.disk.book), again, false);
          next == Outcome(o.disk, o.latch, Busy, [o.disk])
  {
  }

  // ----- settings -----

  /** The settings a site may be given. */
  ghost predicate Settable(w: World, enabled: bool, minutes: int, password: string, e: ConfigureEnv) {
    var row := w.disk.row;
    && minutes in {3, 5, 10} && (password == "" || (|password| >= 4 && Bytes(password) <= 72))
    && !e.busy && e.loadOk && row.security.window == None && !w.restarting && !w.latch.uncertain && row.wordpress
    && (enabled && row.locked ==> row.mode in {Standard, Strict})
    && (if password == "" then enabled ==> row.security.secret.Some? else e.sealOk)
  }

  /** Settings are stored exactly when they may be, and nothing else changes. */
  lemma SettingsAsAsked(w: World, enabled: bool, minutes: int, password: string, e: ConfigureEnv)
    ensures var o := Configure(w, enabled, minutes, password, e);
      && (o.result == Done <==> Settable(w, enabled, minutes, password, e) && e.commit == Acked) && o.latch == w.latch
      && o.disk == (if Settable(w, enabled, minutes, password, e) && e.commit != Lost then
                      var s := w.disk.row.security;
                      w.disk.(row := w.disk.row.(security := s.(
                        enabled := enabled, minutes := minutes,
                        secret := if password == "" then s.secret else Some(password))))
                    else w.disk)
  {
    hide Bytes;
  }

  // ----- what is shown -----

  /** The certain states of a site. */
  ghost predicate Certain(w: World) { !w.restarting && !w.latch.uncertain }

  /** An open window is shown while it has time left and the site is certain; one that has run
      out or is closing as closing; one that failed to close as such; and without a window a
      certain site as locked or unlocked for good, as its row says, unless the row is unfinished. */
  lemma StatusExactly(w: World, now: int)
    ensures var row := w.disk.row; var v := row.security.window; var shown := Status(w, now);
      && (shown == ShowWindow(Unlocked) <==>
            Certain(w) && v.Some? && v.value.state == Unlocked && now < v.value.expires)
      && (shown == ShowWindow(Relocking) <==>
            v.Some? && (v.value.state == Relocking || (v.value.state == Unlocked && v.value.expires <= now)))
      && (shown == ShowWindow(RelockFailed) <==> v.Some? && v.value.state == RelockFailed)
      && (shown == ShowLocked <==> Certain(w) && v == None && row.locked && row.status in {Idle, Ready})
      && (shown == ShowUnlockedPermanently <==> Certain(w) && v == None && !row.locked && row.status in {Idle, Ready})
      && (!Certain(w) && shown !in {ShowWindow(Relocking), ShowWindow(RelockFailed)} ==> shown == ShowUnknown)
  {
  }
}
