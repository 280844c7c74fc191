/**
 Replacing a plugin directory as a whole: build the new version beside it, move the
 old one aside, move the new one in, and recover when a previous attempt stopped
 half way.  Directories are moved whole; a crash may come between any two steps and
 inside every removal and every write, so an operation appends each state it passes
 through to `trail`.
 */
module PluginDeploy {
  import opened Common
  import opened Paths

  type Bytes = seq<int>

  type Content = map<string, Bytes>

  /** What an entry of the plugins directory is called. */
  datatype Name = Target | Staging(suffix: string) | Backup(suffix: string) | Other(name: string)

  type Dirs = map<Name, Content>

  /** What a removal achieves: some files at once, then everything or nothing more. */
  datatype Removal = Removal(deleted: set<string>, whole: bool)

  datatype RecoverEnv = RecoverEnv(
    statError: bool, unread: bool, refused: set<string>, unreadLater: bool, removals: map<Name, Removal>)

  datatype DeployEnv = DeployEnv(
    recovery: RecoverEnv, suffix: string, mkdirOk: bool, torn: map<string, Bytes>, bad: set<string>,
    prepareOk: bool, approved: bool, statOk: bool, moveOk: bool, publishOk: bool, rollbackOk: bool,
    discard: Removal, retire: Removal)

  datatype Result = Deployed | BuildFailed | PrepareFailed | NotApproved | MoveFailed | RolledBack | RollbackFailed

  predicate Junk(n: Name) { n.Staging? || n.Backup? }

  function Backups(d: Dirs): set<string> { set n | n in d && n.Backup? :: n.suffix }

  lemma BackupIn(d: Dirs, s: string)
    ensures s in Backups(d) <==> Backup(s) in d
  {
    if Backup(s) in d { assert Backup(s).suffix in Backups(d); }
  }

  /** The version of the plugin that d preserves: the one in place or, when nothing is
      in place, the one in the only backup. */
  ghost predicate Holds(d: Dirs, v: Option<Content>) {
    if Target in d then v == Some(d[Target])
    else if v.None? then forall s :: Backup(s) !in d
    else exists s :: Backup(s) in d && d[Backup(s)] == v.value && forall t :: Backup(t) in d ==> t == s
  }

  ghost predicate Tidy(d: Dirs) { forall n :: n in d ==> !Junk(n) }

  /** Nothing else in the plugins directory differs. */
  ghost predicate SameOthers(d: Dirs, x: Dirs) {
    forall n: Name :: n.Other? ==> (n in d <==> n in x) && (n in d ==> d[n] == x[n])
  }

  /** The two agree except on one entry. */
  ghost predicate SameBut(n: Name, d: Dirs, x: Dirs) {
    forall m: Name :: m != n ==> (m in d <==> m in x) && (m in d ==> d[m] == x[m])
  }

  lemma StagingIrrelevant(n: Name, d: Dirs, x: Dirs, v: Option<Content>)
    requires n.Staging? && SameBut(n, d, x) && Holds(d, v)
    ensures Holds(x, v) && SameOthers(d, x)
  {
    if Target !in d && v.Some? {
      var s :| Backup(s) in d && d[Backup(s)] == v.value && forall t :: Backup(t) in d ==> t == s;
      assert Backup(s) in x;
    }
  }

  ghost predicate Smooth(e: RecoverEnv) {
    && !e.statError && !e.unread && e.refused == {} && !e.unreadLater
    && forall n :: n in e.removals ==> e.removals[n].whole
  }

  function RemovalOf(m: map<Name, Removal>, n: Name): Removal {
    if n in m then m[n] else Removal({}, true)
  }

  // ----- the first backup in directory order -----

  ghost predicate First(ss: set<string>, s: string) {
    s in ss && forall t :: t in ss ==> s == t || StrLess(s, t)
  }

  lemma {:induction false} FirstExists(ss: set<string>)
    requires ss != {}
    ensures exists s :: First(ss, s)
    decreases |ss|
  {
    hide StrLess;
    var x :| x in ss;
    if ss == {x} {
      assert First(ss, x);
    } else {
      FirstExists(ss - {x});
      var m :| First(ss - {x}, m);
      StrLessTotal(x, m);
      if StrLess(x, m) {
        forall t | t in ss ensures x == t || StrLess(x, t) {
          if t != x && t != m { StrLessTransitive(x, m, t); }
        }
        assert First(ss, x);
      } else {
        assert First(ss, m);
      }
    }
  }

  lemma FirstOfRest(all: set<string>, rest: set<string>, refused: set<string>, s: string)
    requires rest <= all && all - rest <= refused && First(rest, s) && s !in refused
    ensures First(all - refused, s)
  {
  }

  /** d with backup s moved back into place. */
  ghost function Restored(d: Dirs, s: string): Dirs {
    if Backup(s) in d then (d - {Backup(s)})[Target := d[Backup(s)]] else d
  }

  /** d after clean-up: junk goes, or keeps what its removal does not delete. */
  ghost function CleanedUp(d: Dirs, removals: map<Name, Removal>): Dirs {
    map n | n in d && !(Junk(n) && RemovalOf(removals, n).whole) ::
      if Junk(n) then d[n] - RemovalOf(removals, n).deleted else d[n]
  }

  /** x is d after clean-up of the entries in done. */
  ghost predicate Partly(d: Dirs, done: set<Name>, removals: map<Name, Removal>, x: Dirs) {
    forall n ::
      && (n in x <==> n in d && !(n in done && RemovalOf(removals, n).whole))
      && (n in x ==> x[n] == if n in done then d[n] - RemovalOf(removals, n).deleted else d[n])
  }

  lemma PartlyNone(d: Dirs, removals: map<Name, Removal>)
    ensures Partly(d, {}, removals, d)
  {
  }

  lemma PartlyOne(d: Dirs, done: set<Name>, removals: map<Name, Removal>, x: Dirs, n: Name)
    requires Partly(d, done, removals, x) && n in d && n !in done && Junk(n) && forall m :: m in done ==> Junk(m)
    ensures n in x
    ensures var r := RemovalOf(removals, n);
      var mid := x[n := x[n] - r.deleted];
      var next := if r.whole then x - {n} else mid;
      Partly(d, done + {n}, removals, next) && Cleaning(d, mid) && Cleaning(d, next)
  {
    hide RemovalOf;
  }

  lemma PartlyAll(d: Dirs, done: set<Name>, removals: map<Name, Removal>, x: Dirs)
    requires Partly(d, done, removals, x) && forall n :: n in done <==> n in d && Junk(n)
    ensures x == CleanedUp(d, removals)
  {
  }

  /** The version a smooth recovery of d ends with: the one in place or, when there is none,
      the one in the backup that sorts first. */
  ghost predicate RecoversTo(d: Dirs, c: Content) {
    if Target in d then d[Target] == c else exists s :: First(Backups(d), s) && Backup(s) in d && d[Backup(s)] == c
  }

  /** x is d with some junk gone or incomplete. */
  ghost predicate Cleaning(d: Dirs, x: Dirs) {
    && (forall n :: Junk(n) && n in x ==> n in d)
    && (forall n :: !Junk(n) ==> (n in d <==> n in x) && (n in d ==> d[n] == x[n]))
  }

  lemma CleaningHolds(d: Dirs, x: Dirs, v: Option<Content>)
    requires Cleaning(d, x) && Holds(d, v) && (v.Some? ==> Target in d)
    ensures Holds(x, v)
  {
  }

  lemma CleaningOthers(d: Dirs, x: Dirs)
    requires Cleaning(d, x)
    ensures SameOthers(d, x)
  {
  }

  /** A directory into which the files have been written except those still to do. */
  function Merged(base: Content, files: Content, todo: set<string>): Content {
    base + (map rel | rel in files && rel !in todo :: files[rel])
  }

  lemma MergedEnds(base: Content, files: Content)
    ensures Merged(base, files, {}) == base + files && Merged(base, files, files.Keys) == base
  {
  }

  lemma MergedOne(base: Content, files: Content, todo: set<string>, rel: string)
    requires rel in files
    ensures Merged(base, files, todo)[rel := files[rel]] == Merged(base, files, todo - {rel})
  {
  }

  lemma NothingChanged(n: Name, d: Dirs)
    ensures SameBut(n, d, d)
  {
  }

  // ----- the states a deployment passes through -----

  ghost predicate Good(d: Dirs, x: Dirs, v: Option<Content>, files: Content) {
    SameOthers(d, x) && (Holds(x, v) || Holds(x, Some(files)))
  }

  /** The new version is staged, and nothing else is left over. */
  ghost predicate Prepared(d: Dirs, suffix: string, files: Content, v: Option<Content>) {
    && Staging(suffix) in d && d[Staging(suffix)] == files
    && (forall n :: n in d && Junk(n) ==> n == Staging(suffix))
    && Holds(d, v)
  }

  /** What is left over after publishing: nothing, or the old version less what its removal deleted. */
  ghost predicate Retired(x: Dirs, e: DeployEnv, v: Option<Content>) {
    if e.retire.whole || v.None? || !e.statOk then Tidy(x)
    else
      && Backup(e.suffix) in x && x[Backup(e.suffix)] == v.value - e.retire.deleted
      && forall n :: n in x && Junk(n) ==> n == Backup(e.suffix)
  }

  /** d with the current version moved aside. */
  function MovedAside(d: Dirs, suffix: string): Dirs {
    if Target in d then (d - {Target})[Backup(suffix) := d[Target]] else d
  }

  /** The new version is built and approved. */
  predicate Builds(files: Content, e: DeployEnv) { e.mkdirOk && files.Keys !! e.bad && e.prepareOk && e.approved }

  /** A version is in place, the names are new, and nothing fails until it is moved aside. */
  predicate Unhindered(d: Dirs, files: Content, e: DeployEnv) {
    Builds(files, e) && e.statOk && e.moveOk && Target in d && Staging(e.suffix) !in d && Backup(e.suffix) !in d
  }

  /** What recovery leaves of a directory with a version in place. */
  ghost function Cleared(d: Dirs, e: RecoverEnv): Dirs { if e.unreadLater then d else CleanedUp(d, e.removals) }

  lemma Staged(d: Dirs, x: Dirs, suffix: string, files: Content)
    requires Staging(suffix) !in d && SameBut(Staging(suffix), d, x) && Staging(suffix) in x
    requires x[Staging(suffix)] == files
    ensures x == d[Staging(suffix) := files] && (Backup(suffix) in x <==> Backup(suffix) in d)
    ensures (Target in x <==> Target in d)
  {
  }

  /** What a finished deployment leaves. */
  ghost predicate After(d: Dirs, x: Dirs, e: DeployEnv, v: Option<Content>, files: Content, r: Result) {
    && SameOthers(d, x)
    && match r
       case Deployed => Target in x && x[Target] == files && Retired(x, e, v)
       case RollbackFailed => v.Some? && Target !in x && Backup(e.suffix) in x && Holds(x, v)
       case _ => Holds(x, v) && (v.Some? ==> Target in x) && (e.discard.whole ==> Tidy(x))
  }

  lemma AtStart(d: Dirs, suffix: string, files: Content, v: Option<Content>)
    requires Prepared(d, suffix, files, v)
    ensures Good(d, d, v, files) && v == (if Target in d then Some(d[Target]) else None)
    ensures
      Staging(suffix) in d && d[Staging(suffix)] == files && forall n :: n in d && Junk(n) ==> n == Staging(suffix)
  {
  }

  /** x is d with the current version moved aside. */
  lemma Aside(d: Dirs, x: Dirs, suffix: string, v: Option<Content>, files: Content)
    requires Prepared(d, suffix, files, v) && Target in d && x == MovedAside(d, suffix)
    ensures Good(d, x, v, files) && Holds(x, v) && Target !in x && Staging(suffix) in x && x[Staging(suffix)] == files
  {
    assert Backup(suffix) in x;
  }

  /** x is d, less some of what was staged. */
  lemma Undone(d: Dirs, x: Dirs, e: DeployEnv, v: Option<Content>, files: Content)
    requires Prepared(d, e.suffix, files, v) && SameBut(Staging(e.suffix), d, x)
    ensures Good(d, x, v, files) && Holds(x, v) && (Target in d <==> Target in x)
    ensures Staging(e.suffix) !in x ==> Tidy(x)
  {
    StagingIrrelevant(Staging(e.suffix), d, x, v);
  }

  /** The new version is in place in x, and at most the backup is left. */
  lemma InPlace(d: Dirs, x: Dirs, suffix: string, files: Content)
    requires
      Target in x && x[Target] == files && SameOthers(d, x) && forall n :: n in x && Junk(n) ==> n == Backup(suffix)
    ensures SameOthers(d, x) && forall v :: Good(d, x, v, files)
    ensures Backup(suffix) !in x ==> Tidy(x)
  {
  }

  lemma RecoveryRestores(d: Dirs, v: Option<Content>, refused: set<string>)
    requires Holds(d, v) && v.Some? && Target !in d && refused == {}
    ensures Backups(d) - refused != {}
  {
    var s :| Backup(s) in d;
    BackupIn(d, s);
    assert s in Backups(d) - refused;
  }

  /** x is the tidy directory clean with something staged. */
  lemma OnlyStaged(clean: Dirs, x: Dirs, d: Dirs, e: DeployEnv, v: Option<Content>, files: Content)
    requires Tidy(clean) && Holds(clean, v) && SameOthers(d, clean) && SameBut(Staging(e.suffix), clean, x)
    requires v.Some? ==> Target in clean
    ensures Good(d, x, v, files) && SameOthers(d, x) && Holds(x, v) && (v.Some? ==> Target in x)
    ensures Staging(e.suffix) !in x ==> Tidy(x)
    ensures Staging(e.suffix) in x && x[Staging(e.suffix)] == files ==> Prepared(x, e.suffix, files, v)
  {
    StagingIrrelevant(Staging(e.suffix), clean, x, v);
  }

  lemma OthersSame(d: Dirs)
    ensures SameOthers(d, d)
  {
  }

  lemma TidyHas(d: Dirs, n: Name)
    requires Tidy(d) && Junk(n)
    ensures n !in d
  {
  }

  lemma Rebase(d: Dirs, staged: Dirs, x: Dirs)
    requires SameOthers(d, staged)
    ensures SameOthers(staged, x) ==> SameOthers(d, x)
  {
  }

  lemma AfterHolds(d: Dirs, x: Dirs, e: DeployEnv, v: Option<Content>, files: Content, r: Result)
    requires After(d, x, e, v, files, r)
    ensures SameOthers(d, x) && (Holds(x, v) || Holds(x, Some(files)))
  {
  }

  /** Recovery goes by name.  When nothing is in place and an earlier removal left incomplete
      backups beside the complete one t, recovery ends with t exactly when t sorts before the rest. */
  lemma RecoveryGoesByName(d: Dirs, t: string)
    requires Target !in d && Backup(t) in d
    requires forall s :: Backup(s) in d && s != t ==> d[Backup(s)] != d[Backup(t)]
    ensures RecoversTo(d, d[Backup(t)]) <==> forall s :: Backup(s) in d && s != t ==> StrLess(t, s)
  {
    hide StrLess;
    BackupIn(d, t);
    FirstExists(Backups(d));
    var u :| First(Backups(d), u);
    BackupIn(d, u);
    forall s | Backup(s) in d ensures s == u || StrLess(u, s) { BackupIn(d, s); }
    StrLessTotal(t, u);
    forall s | First(Backups(d), s) ensures s == u { StrLessTotal(s, u); }
  }

  lemma RestoredIsRecovered(d: Dirs, s: string, c: Content)
    requires Target !in d && First(Backups(d), s) && Backup(s) in d
    ensures RecoversTo(d, c) <==> d[Backup(s)] == c
  {
    hide StrLess;
    forall t | First(Backups(d), t) ensures s == t { StrLessTotal(s, t); }
  }

  lemma CleanedUpIs(d: Dirs, removals: map<Name, Removal>)
    ensures Cleaning(d, CleanedUp(d, removals))
    ensures forall n :: n in CleanedUp(d, removals) && Junk(n) ==> !RemovalOf(removals, n).whole
  {
  }

  lemma SmoothlyRecovered(d: Dirs, ready: Dirs, x: Dirs, e: RecoverEnv)
    requires Smooth(e) && x == CleanedUp(ready, e.removals)
    requires if Target in d || Backups(d) == {} then ready == d
      else exists s :: First(Backups(d), s) && ready == Restored(d, s)
    ensures Tidy(x) && forall c :: (Target in x && x[Target] == c) <==> RecoversTo(d, c)
  {
    if Target !in d && Backups(d) != {} {
      var s :| First(Backups(d), s) && ready == Restored(d, s);
      BackupIn(d, s);
      forall c ensures RecoversTo(d, c) <==> d[Backup(s)] == c { RestoredIsRecovered(d, s, c); }
    }
  }

  /** What is left of a directory with nothing but the old version in it. */
  lemma PublishedOver(d: Dirs, x: Dirs, e: DeployEnv, v: Content, files: Content)
    requires d == map[Target := v] && After(d, x, e, Some(v), files, Deployed) && e.statOk && !e.retire.whole
    ensures x == map[Target := files, Backup(e.suffix) := v - e.retire.deleted]
  {
    forall n | n in x ensures n == Target || n == Backup(e.suffix) {
      if n.Other? { assert n in d; }
    }
  }

  lemma ClearedKeeps(d: Dirs, e: RecoverEnv)
    requires d.Keys == {Target, Backup("a")} && e.removals == map[Backup("a") := Removal({}, false)]
    ensures Cleared(d, e) == d
  {
    forall c: Content ensures c - {} == c {}
  }

  /** The next deployment over that, when clean-up deletes nothing, has moved the new version aside. */
  lemma ClearedAside(d: Dirs, e: DeployEnv, files: Content, rest: Content, next: Content)
    requires d == map[Target := files, Backup("a") := rest]
    requires e.suffix == "b" && !e.recovery.unreadLater && e.recovery.removals == map[Backup("a") := Removal({}, false)]
    ensures MovedAside(Cleared(d, e.recovery)[Staging("b") := next], "b") ==
        map[Backup("a") := rest, Backup("b") := files, Staging("b") := next]
  {
    ClearedKeeps(d, e.recovery);
    hide Cleared;
  }

  lemma TornComesBack(d: Dirs, rest: Content, files: Content, next: Content, x: Dirs)
    requires d == map[Backup("a") := rest, Backup("b") := files, Staging("b") := next]
    requires Tidy(x) && SameOthers(d, x) && forall c :: (Target in x && x[Target] == c) <==> RecoversTo(d, c)
    ensures x == map[Target := rest]
  {
    BackupIn(d, "a");
    PartingUnique("a", "b", 0);
    assert First(Backups(d), "a") by { hide Parting; }
    assert RecoversTo(d, rest);
    forall n | n in x ensures n == Target { assert n.Other? ==> n in d; }
  }

  /** One deployment; `crash == Some(k)`: it is killed after its k-th state. */
  datatype Attempt = Attempt(files: Content, env: DeployEnv, crash: Option<nat>)

  class PluginsDir {
    var dirs: Dirs
    var trail: seq<Dirs>

    /** Every state passed through since those in t preserves version v and everything else. */
    ghost predicate Preserved(t: seq<Dirs>, d: Dirs, v: Option<Content>)
      reads this
    {
      t <= trail && forall i :: |t| <= i < |trail| ==> SameOthers(d, trail[i]) && Holds(trail[i], v)
    }

    constructor (start: Dirs)
      ensures dirs == start && trail == []
    {
      dirs, trail := start, [];
    }

    /** rename(2) on directories: the destination must be absent or empty. */
    method Rename(from: Name, to: Name, able: bool) returns (ok: bool)
      requires from != to
      modifies this
      ensures ok <==> able && from in old(dirs) && (to in old(dirs) ==> old(dirs)[to] == map[])
      ensures dirs == if ok then (old(dirs) - {from})[to := old(dirs)[from]] else old(dirs)
      ensures trail == old(trail) + [dirs]
    {
      ok := able && from in dirs && (to in dirs ==> dirs[to] == map[]);
      if ok {
        dirs := (dirs - {from})[to := dirs[from]];
      }
      trail := trail + [dirs];
    }

    /** os.RemoveAll: it may be cut short, by an error or by a crash. */
    method RemoveAll(n: Name, r: Removal)
      modifies this
      ensures dirs ==
        if n !in old(dirs) then old(dirs)
        else if r.whole then old(dirs) - {n}
        else old(dirs)[n := old(dirs)[n] - r.deleted]
      ensures trail == old(trail) + (if n in old(dirs) then [old(dirs)[n := old(dirs)[n] - r.deleted]] else []) + [dirs]
    {
      if n in dirs {
        dirs := dirs[n := dirs[n] - r.deleted];
        trail := trail + [dirs];
        if r.whole {
          dirs := dirs - {n};
        }
      }
      trail := trail + [dirs];
    }

    /** Put back the first backup that can be moved. */
    method Restore(refused: set<string>)
      requires Target !in dirs
      modifies this
      ensures Target in dirs <==> Backups(old(dirs)) - refused != {}
      ensures Target !in dirs ==> dirs == old(dirs)
      ensures Target in dirs ==> exists s :: First(Backups(old(dirs)) - refused, s) && dirs == Restored(old(dirs), s)
      ensures old(trail) <= trail && forall i :: |old(trail)| <= i < |trail| ==> trail[i] in {old(dirs), dirs}
    {
      hide First;
      var todo := Backups(dirs);
      while todo != {}
        invariant dirs == old(dirs) && todo <= Backups(dirs)
        invariant Backups(dirs) - todo <= refused
        invariant old(trail) <= trail && forall i :: |old(trail)| <= i < |trail| ==> trail[i] == dirs
        decreases |todo|
      {
        FirstExists(todo);
        var s := Least(todo);
        BackupIn(dirs, s);
        var ok := Rename(Backup(s), Target, s !in refused);
        if ok {
          assert First(Backups(old(dirs)) - refused, s) by { FirstOfRest(Backups(old(dirs)), todo, refused, s); }
          return;
        }
        todo := todo - {s};
      }
    }

    /** The next entry in directory order. */
    method Least(ss: set<string>) returns (s: string)
      requires ss != {}
      ensures First(ss, s)
    {
      FirstExists(ss);
      s :| s in ss && forall t :: t in ss ==> s == t || StrLess(s, t);
    }

    ghost predicate CleaningSince(t: seq<Dirs>, d: Dirs)
      reads this
    {
      t <= trail && forall i :: |t| <= i < |trail| ==> Cleaning(d, trail[i])
    }

    /** Remove one of them; those in done are dealt with. */
    method RemoveStale(n: Name, removals: map<Name, Removal>, ghost done: set<Name>, ghost t: seq<Dirs>, ghost d: Dirs)
      requires n in d && Junk(n) && n !in done && (forall m :: m in done ==> Junk(m))
      requires Partly(d, done, removals, dirs) && CleaningSince(t, d)
      modifies this
      ensures Partly(d, done + {n}, removals, dirs) && CleaningSince(t, d)
    {
      hide RemovalOf, Junk, Partly, Cleaning;
      PartlyOne(d, done, removals, dirs, n);
      RemoveAll(n, RemovalOf(removals, n));
    }

    /** Remove every staging and backup directory. */
    method Cleanup(removals: map<Name, Removal>)
      modifies this
      ensures dirs == CleanedUp(old(dirs), removals)
      ensures CleaningSince(old(trail), old(dirs))
    {
      hide RemovalOf, Junk, Partly, Cleaning;
      var todo := set n | n in dirs && Junk(n);
      ghost var all, done: set<Name> := todo, {};
      PartlyNone(dirs, removals);
      assert CleaningSince(trail, dirs);
      hide PluginsDir.CleaningSince;
      while todo != {}
        invariant done + todo == all && done !! todo && Partly(old(dirs), done, removals, dirs)
        invariant CleaningSince(old(trail), old(dirs))
        decreases |todo|
      {
        var n :| n in todo;
        RemoveStale(n, removals, done, old(trail), old(dirs));
        todo, done := todo - {n}, done + {n};
      }
      PartlyAll(old(dirs), done, removals, dirs);
    }

    /** Restoring, up to the n-th state, and then cleaning preserve version v. */
    lemma PreservedThrough(t: seq<Dirs>, n: nat, d: Dirs, ready: Dirs, v: Option<Content>)
      requires t <= trail && |t| <= n <= |trail|
      requires forall i :: |t| <= i < n ==> trail[i] in {d, ready}
      requires forall i :: n <= i < |trail| ==> Cleaning(ready, trail[i])
      requires Holds(d, v) && Holds(ready, v) && SameOthers(d, ready) && (v.Some? ==> Target in ready)
      ensures Preserved(t, d, v)
    {
      forall i | |t| <= i < |trail| ensures SameOthers(d, trail[i]) && Holds(trail[i], v) {
        if i >= n { CleaningHolds(ready, trail[i], v); }
      }
    }

    /** `recoverOrCleanupStalePluginDirs`.  A version that is in place stays; a missing one
        comes back exactly when the directory can be examined and some backup can be moved;
        when nothing is refused, nothing is left behind, and the version in place is the one
        `RecoversTo` names; and what clean-up leaves is exactly known. */
    method Recover(e: RecoverEnv, ghost v: Option<Content>)
      modifies this
      ensures old(trail) <= trail
      ensures SameOthers(old(dirs), dirs)
      ensures
        Target in dirs <==> Target in old(dirs) || (!e.statError && !e.unread && Backups(old(dirs)) - e.refused != {})
      ensures Target in old(dirs) ==> dirs == if e.unreadLater then old(dirs) else CleanedUp(old(dirs), e.removals)
      ensures Target in dirs && Target !in old(dirs) ==>
        exists s :: First(Backups(old(dirs)) - e.refused, s) && Backup(s) in old(dirs)
                    && dirs == if e.unreadLater then Restored(old(dirs), s)
                               else CleanedUp(Restored(old(dirs), s), e.removals)
      ensures
        Smooth(e) ==> Tidy(dirs) && forall c :: (Target in dirs && dirs[Target] == c) <==> RecoversTo(old(dirs), c)
      ensures
        Holds(old(dirs), v) && (v.Some? ==> Target in dirs) ==> Holds(dirs, v) && Preserved(old(trail), old(dirs), v)
      ensures
        Target !in dirs && !e.unreadLater && (forall n :: n in e.removals ==> e.removals[n].whole) ==> Holds(dirs, None)
    {
      hide CleanedUp, PluginsDir.Preserved;
      if Target !in dirs && !e.statError && !e.unread {
        Restore(e.refused);
      }
      ghost var ready := dirs;
      ghost var n := |trail|;
      assert SameOthers(old(dirs), ready);
      assert Holds(old(dirs), v) && (v.Some? ==> Target in ready) ==> Holds(ready, v);
      if !e.unreadLater {
        Cleanup(e.removals);
        CleanedUpIs(ready, e.removals);
        CleaningOthers(ready, dirs);
      }
      if Holds(old(dirs), v) && (v.Some? ==> Target in dirs) { PreservedThrough(old(trail), n, old(dirs), ready, v); }
      if Smooth(e) { SmoothlyRecovered(old(dirs), ready, dirs, e); }
    }

    /** Since the states in t, nothing but entry n has changed. */
    ghost predicate Confined(t: seq<Dirs>, n: Name, d: Dirs)
      reads this
    {
      SameBut(n, d, dirs) && t <= trail && forall i :: |t| <= i < |trail| ==> SameBut(n, d, trail[i])
    }

    /** One write inside directory n. */
    method Put(n: Name, content: Content, ghost t: seq<Dirs>, ghost d: Dirs)
      requires Confined(t, n, d)
      modifies this
      ensures dirs == old(dirs)[n := content] && trail == old(trail) + [dirs]
      ensures Confined(t, n, d)
    {
      dirs := dirs[n := content];
      trail := trail + [dirs];
    }

    /** `writePluginFiles`, in any order of the files. */
    method WritePluginFiles(dir: Name, files: Content, e: DeployEnv) returns (ok: bool)
      modifies this
      ensures ok <==> e.mkdirOk && files.Keys !! e.bad
      ensures ok ==> dir in dirs && dirs[dir] == (if dir in old(dirs) then old(dirs)[dir] else map[]) + files
      ensures Confined(old(trail), dir, old(dirs))
    {
      hide SameBut, Merged;
      NothingChanged(dir, dirs);
      ghost var t, d := trail, dirs;
      assert Confined(t, dir, d);
      hide Confined;
      if !e.mkdirOk { return false; }
      if dir !in dirs { Put(dir, map[], t, d); }
      var todo := files.Keys;
      ghost var base: Content := if dir in d then d[dir] else map[];
      MergedEnds(base, files);
      while todo != {}
        invariant todo <= files.Keys && dir in dirs
        invariant forall rel :: rel in files && rel !in todo ==> rel !in e.bad
        invariant dirs[dir] == Merged(base, files, todo)
        invariant Confined(t, dir, d)
        decreases |todo|
      {
        var rel :| rel in todo;
        ok := WriteFile(dir, rel, files[rel], e, t, d);
        if !ok { return; }
        MergedOne(base, files, todo, rel);
        todo := todo - {rel};
      }
      ok := true;
    }

    /** One file, which a failure or a crash may leave torn. */
    method WriteFile(dir: Name, rel: string, data: Bytes, e: DeployEnv, ghost t: seq<Dirs>, ghost d: Dirs)
      returns (ok: bool)
      requires dir in dirs && Confined(t, dir, d)
      modifies this
      ensures ok <==> rel !in e.bad
      ensures dir in dirs && Confined(t, dir, d)
      ensures ok ==> dirs[dir] == old(dirs)[dir][rel := data]
    {
      hide PluginsDir.Confined;
      var content := dirs[dir];
      Put(dir, content[rel := if rel in e.torn then e.torn[rel] else []], t, d);
      if rel in e.bad { return false; }
      Put(dir, content[rel := data], t, d);
      ok := true;
    }

    /** Build the new version in a staging directory; nothing else changes. */
    method Stage(files: Content, e: DeployEnv) returns (r: Result)
      modifies this
      ensures r == Deployed && Staging(e.suffix) !in old(dirs) ==>
          Staging(e.suffix) in dirs && dirs[Staging(e.suffix)] == files
      ensures r != Deployed && e.discard.whole ==> Staging(e.suffix) !in dirs
      ensures r == if !(e.mkdirOk && files.Keys !! e.bad) then BuildFailed else if !e.prepareOk then PrepareFailed
                   else if !e.approved then NotApproved else Deployed
      ensures Confined(old(trail), Staging(e.suffix), old(dirs))
    {
      var staging := Staging(e.suffix);
      var built := WritePluginFiles(staging, files, e);
      if built && e.prepareOk && e.approved { return Deployed; }
      RemoveAll(staging, e.discard);
      r := if !built then BuildFailed else if !e.prepareOk then PrepareFailed else NotApproved;
    }

    /** Every state since those in t preserves version v, or already has the new version in place. */
    ghost predicate OldOrNew(t: seq<Dirs>, d: Dirs, v: Option<Content>, files: Content)
      reads this
    {
      t <= trail && forall i :: |t| <= i < |trail| ==> Good(d, trail[i], v, files)
    }

    /** Give up with the old version in place. */
    method Abandon(files: Content, e: DeployEnv, ghost t: seq<Dirs>, ghost d: Dirs, ghost v: Option<Content>)
      requires Prepared(d, e.suffix, files, v) ==> dirs == d && OldOrNew(t, d, v, files)
      modifies this
      ensures old(trail) <= trail
      ensures Prepared(d, e.suffix, files, v) ==>
        OldOrNew(t, d, v, files) && After(d, dirs, e, v, files, MoveFailed) && After(d, dirs, e, v, files, RolledBack)
    {
      hide Holds, Good, SameOthers, Prepared;
      ghost var n := |trail|;
      RemoveAll(Staging(e.suffix), e.discard);
      if Prepared(d, e.suffix, files, v) {
        AtStart(d, e.suffix, files, v);
        Undone(d, trail[n], e, v, files);
        Undone(d, dirs, e, v, files);
      }
    }

    /** The new version is in place; `had`: the old one is in the backup. */
    method Retire(had: bool, files: Content, e: DeployEnv, ghost t: seq<Dirs>, ghost d: Dirs, ghost v: Option<Content>)
      requires Prepared(d, e.suffix, files, v) ==>
        && OldOrNew(t, d, v, files)
        && Target in dirs && dirs[Target] == files && SameOthers(d, dirs)
        && (forall n :: n in dirs && Junk(n) ==> n == Backup(e.suffix))
        && (had <==> v.Some? && e.statOk)
        && (if had then Backup(e.suffix) in dirs && dirs[Backup(e.suffix)] == v.value else Backup(e.suffix) !in dirs)
      modifies this
      ensures old(trail) <= trail
      ensures Prepared(d, e.suffix, files, v) ==> OldOrNew(t, d, v, files) && After(d, dirs, e, v, files, Deployed)
    {
      hide Holds, Good, Prepared;
      ghost var n, before := |trail|, dirs;
      if had {
        RemoveAll(Backup(e.suffix), e.retire);
        if Prepared(d, e.suffix, files, v) {
          InPlace(d, trail[n], e.suffix, files);
          InPlace(d, dirs, e.suffix, files);
        }
      }
    }

    /** One of the states since those in t is x. */
    ghost predicate Passes(t: seq<Dirs>, x: Dirs)
      reads this
    {
      t <= trail && exists i :: |t| <= i < |trail| && trail[i] == x
    }

    /** Where the directory is just before the new version is moved in: d, or d with its current
        version moved aside if there `had` been one. */
    ghost predicate Ready(d: Dirs, e: DeployEnv, had: bool)
      reads this
    {
      had == (Target in d && e.statOk) && dirs == if had then MovedAside(d, e.suffix) else d
    }

    /** Move the new version in, or the old one back. */
    method Publish(had: bool, files: Content, e: DeployEnv, ghost t: seq<Dirs>, ghost d: Dirs, ghost v: Option<Content>)
      returns (r: Result)
      requires Prepared(d, e.suffix, files, v) ==> OldOrNew(t, d, v, files) && Ready(d, e, had)
      modifies this
      ensures r in {Deployed, RolledBack, RollbackFailed} && old(trail) <= trail
      ensures Prepared(d, e.suffix, files, v) ==>
        && OldOrNew(t, d, v, files) && After(d, dirs, e, v, files, r)
        && (r == Deployed <==> e.publishOk && (v.Some? ==> e.statOk || v.value == map[]))
    {
      hide Holds, Good, SameOthers, Retired, Tidy;
      ghost var safe := Prepared(d, e.suffix, files, v);
      if safe {
        AtStart(d, e.suffix, files, v);
        if had { Aside(d, dirs, e.suffix, v, files); }
      }
      hide Prepared;
      var published := Rename(Staging(e.suffix), Target, e.publishOk);
      if published {
        if safe { InPlace(d, dirs, e.suffix, files); }
        Retire(had, files, e, t, d, v);
        return Deployed;
      }
      if had {
        var restored := Rename(Backup(e.suffix), Target, e.rollbackOk);
        if !restored { return RollbackFailed; }
        assert safe ==> dirs == d;
      }
      Abandon(files, e, t, d, v);
      r := RolledBack;
    }

    /** Put the staged version in place of the current one. */
    method Swap(files: Content, e: DeployEnv, ghost v: Option<Content>) returns (r: Result)
      modifies this
      ensures r in {Deployed, MoveFailed, RolledBack, RollbackFailed}
      ensures Prepared(old(dirs), e.suffix, files, v) ==>
        && OldOrNew(old(trail), old(dirs), v, files)
        && (r == Deployed <==> e.publishOk && (v.Some? ==> if e.statOk then e.moveOk else v.value == map[]))
        && After(old(dirs), dirs, e, v, files, r)
      ensures old(trail) <= trail
      ensures Target in old(dirs) && Backup(e.suffix) !in old(dirs) && e.statOk && e.moveOk ==>
        |trail| > |old(trail)| && trail[|old(trail)|] == MovedAside(old(dirs), e.suffix)
    {
      hide Holds, Good, SameOthers, Retired, Tidy;
      ghost var d, t := dirs, trail;
      ghost var safe := Prepared(d, e.suffix, files, v);
      if safe { AtStart(d, e.suffix, files, v); }
      hide Prepared;
      var had := Target in dirs && e.statOk;
      if had {
        var moved := Rename(Target, Backup(e.suffix), e.moveOk);
        if !moved {
          Abandon(files, e, t, d, v);
          return MoveFailed;
        }
        if safe { Aside(d, dirs, e.suffix, v, files); }
      }
      r := Publish(had, files, e, t, d, v);
    }

    /** Everything after recovery. */
    method Install(files: Content, e: DeployEnv, ghost v: Option<Content>) returns (r: Result)
      modifies this
      ensures Tidy(old(dirs)) && Holds(old(dirs), v) && (v.Some? ==> Target in old(dirs)) ==>
        && OldOrNew(old(trail), old(dirs), v, files)
        && (r == Deployed <==>
              Builds(files, e) && e.publishOk && (v.Some? ==> if e.statOk then e.moveOk else v.value == map[]))
        && After(old(dirs), dirs, e, v, files, r)
      ensures old(trail) <= trail
      ensures Unhindered(old(dirs), files, e) ==>
          Passes(old(trail), MovedAside(old(dirs)[Staging(e.suffix) := files], e.suffix))
    {
      hide Holds, SameOthers, Tidy;
      ghost var d, t := dirs, trail;
      ghost var safe := Tidy(d) && Holds(d, v) && (v.Some? ==> Target in d);
      if safe { TidyHas(d, Staging(e.suffix)); }
      r := Stage(files, e);
      if Unhindered(d, files, e) { Staged(d, dirs, e.suffix, files); }
      if safe {
        OthersSame(d);
        forall x | SameBut(Staging(e.suffix), d, x) ensures Good(d, x, v, files) { OnlyStaged(d, x, d, e, v, files); }
        OnlyStaged(d, dirs, d, e, v, files);
      }
      if r != Deployed { return; }
      ghost var staged, m := dirs, |trail|;
      r := Swap(files, e, v);
      assert Unhindered(d, files, e) ==> trail[m] == MovedAside(staged, e.suffix);
      if safe {
        Rebase(d, staged, dirs);
        forall i | m <= i < |trail| ensures Good(d, trail[i], v, files) { Rebase(d, staged, trail[i]); }
      }
    }

    /** `deployPluginDirectoryPrepared`, when v is the version the directory preserves and recovery
        is not refused anything: every state on the way preserves the old version or has the
        complete new one in place; it succeeds exactly when its effects do; and what it leaves is
        exactly the new files, or the old version in place, or the old version in the one backup.
        Whatever recovery is refused, a deployment that nothing hinders moves the version in place aside. */
    method Deploy(files: Content, e: DeployEnv, ghost v: Option<Content>) returns (r: Result)
      modifies this
      ensures Smooth(e.recovery) && Holds(old(dirs), v) ==>
        && OldOrNew(old(trail), old(dirs), v, files)
        && (r == Deployed <==>
              Builds(files, e) && e.publishOk && (v.Some? ==> if e.statOk then e.moveOk else v.value == map[]))
        && After(old(dirs), dirs, e, v, files, r)
      ensures old(trail) <= trail
      ensures Unhindered(old(dirs), files, e) ==>
        Passes(old(trail), MovedAside(Cleared(old(dirs), e.recovery)[Staging(e.suffix) := files], e.suffix))
    {
      hide CleanedUp, Builds;
      ghost var d, t := dirs, trail;
      ghost var safe := Smooth(e.recovery) && Holds(d, v);
      Recover(e.recovery, v);
      ghost var clean, n := dirs, |trail|;
      CleanedUpIs(d, e.recovery.removals);
      assert Unhindered(d, files, e) ==> clean == Cleared(d, e.recovery) && Unhindered(clean, files, e);
      assert safe ==> Tidy(clean) && Holds(clean, v) && SameOthers(d, clean) && (v.Some? ==> Target in clean) by {
        if safe && v.Some? && Target !in d { RecoveryRestores(d, v, e.recovery.refused); }
      }
      assert safe ==> OldOrNew(t, d, v, files) by { hide Holds, SameOthers; }
      hide Holds, SameOthers, Smooth, Tidy, Unhindered, Cleared;
      r := Install(files, e, v);
      if safe {
        Rebase(d, clean, dirs);
        forall i | n <= i < |trail| ensures Good(d, trail[i], v, files) { Rebase(d, clean, trail[i]); }
      }
    }

    /** The process dies at the k-th state of the trail. */
    method Crash(k: nat)
      requires k < |trail|
      modifies this
      ensures dirs == old(trail)[k] && trail == old(trail)
    {
      dirs := trail[k];
    }

    /** Any number of deployments, each of which may be killed at any state it passes
        through, and then one recovery: the directory is back in place, complete, in the
        version it started from or in one that was being deployed, and nothing is left over. */
    method Survive(attempts: seq<Attempt>, last: RecoverEnv, ghost v: Option<Content>)
      returns (ghost w: Option<Content>)
      requires Holds(dirs, v) && Smooth(last)
      requires forall i :: 0 <= i < |attempts| ==> Smooth(attempts[i].env.recovery)
      modifies this
      ensures w == v || exists i :: 0 <= i < |attempts| && w == Some(attempts[i].files)
      ensures v.Some? ==> w.Some?
      ensures Target in dirs <==> w.Some?
      ensures w.Some? ==> dirs[Target] == w.value
      ensures Tidy(dirs) && SameOthers(old(dirs), dirs)
    {
      ghost var d := dirs;
      w := v;
      for i := 0 to |attempts|
        invariant w == v || exists j :: 0 <= j < i && w == Some(attempts[j].files)
        invariant (v.Some? ==> w.Some?) && Holds(dirs, w) && SameOthers(d, dirs)
      {
        hide Holds, SameOthers, Smooth, Tidy, PluginsDir.OldOrNew;
        var k := |trail|;
        ghost var t, before := trail, dirs;
        var r := Deploy(attempts[i].files, attempts[i].env, w);
        var at := if attempts[i].crash.Some? then k + attempts[i].crash.value else |trail|;
        if at < |trail| {
          AnyState(t, before, w, attempts[i].files, at);
          Crash(at);
        } else {
          AfterHolds(before, dirs, attempts[i].env, w, attempts[i].files, r);
        }
        Rebase(d, before, dirs);
        if !Holds(dirs, w) { w := Some(attempts[i].files); }
      }
      ghost var before := dirs;
      Recover(last, w);
      if w.Some? && Target !in before { RecoveryRestores(before, w, last.refused); }
      Rebase(d, before, dirs);
    }

    /** A deployment that cannot remove all of the old version. */
    method DeployButLeave(files: Content, e: DeployEnv)
      requires dirs.Keys == {Target} && Smooth(e.recovery) && Builds(files, e)
      requires e.statOk && e.moveOk && e.publishOk && !e.retire.whole
      modifies this
      ensures dirs == map[Target := files, Backup(e.suffix) := old(dirs)[Target] - e.retire.deleted]
      ensures old(trail) <= trail
    {
      hide PluginsDir.OldOrNew, After, Smooth, Builds;
      ghost var d, v := dirs, dirs[Target];
      var r := Deploy(files, e, Some(v));
      PublishedOver(d, dirs, e, v, files);
    }

    /** How a complete version is lost.  One deployment cannot remove the old version entirely;
        the next cannot clear what is left and is killed after moving the new version aside;
        the torn backup sorts first, so it comes back, and the complete one is deleted. */
    method LosesTheCompleteVersion(files: Content, next: Content, torn: string)
      requires dirs.Keys == {Target}
      modifies this
      ensures dirs == map[Target := old(dirs)[Target] - {torn}]
      ensures
        Passes(old(trail), map[Backup("a") := old(dirs)[Target] - {torn}, Backup("b") := files, Staging("b") := next])
    {
      hide First, After, RecoversTo, Cleared, SameOthers, Tidy, Holds;
      var smooth := RecoverEnv(false, false, {}, false, map[]);
      var first := DeployEnv(smooth, "a", true, map[], {}, true, true, true, true, true, true,
                             Removal({}, true), Removal({torn}, false));
      var second := first.(suffix := "b", recovery := smooth.(removals := map[Backup("a") := Removal({}, false)]));
      var v := dirs[Target];
      ghost var t := trail;
      DeployButLeave(files, first);
      ghost var published := dirs;
      var k := |trail|;
      var r := Deploy(next, second, None);
      var halfway := map[Backup("a") := v - {torn}, Backup("b") := files, Staging("b") := next];
      ClearedAside(published, second, files, v - {torn}, next);
      var i :| k <= i < |trail| && trail[i] == halfway;
      Crash(i);
      assert Passes(t, halfway);
      Recover(smooth, None);
      TornComesBack(halfway, v - {torn}, files, next, dirs);
    }

    lemma AnyState(t: seq<Dirs>, d: Dirs, v: Option<Content>, files: Content, i: nat)
      requires OldOrNew(t, d, v, files) && |t| <= i < |trail|
      ensures SameOthers(d, trail[i]) && (Holds(trail[i], v) || Holds(trail[i], Some(files)))
    {
    }
  }
}
