/**
 The chain of full and incremental file backups of one site.  The cutoff is taken
 before anything is read, the stamp advances to it only after the archive is recorded
 and synced, and old archives go only after that; the site keeps writing meanwhile.
 A crash may come after any step, so a run appends each durable state to `trail`.
 */
module BackupChain {
  import opened Common
  import opened Paths

  datatype Version = Version(at: int, data: int)

  type Tree = map<string, Version>

  datatype Archive = Archive(full: bool, finished: int, contents: Tree)

  /** A write or a deletion by the site. */
  datatype SiteWrite = SiteWrite(path: string, data: Option<int>, at: int)

  datatype Store = Store(tree: Tree, archives: map<string, Archive>, rows: seq<string>, stamp: Option<int>)

  // ----- which files the chain is about -----

  predicate InUploads(path: string) {
    var parts := Split(path);
    |parts| > 2 && parts[0] == "wp-content" && parts[1] == "uploads"
  }

  predicate EndsWith(s: string, t: string) { |t| <= |s| && s[|s| - |t|..] == t }

  predicate ExcludedAt(parts: seq<string>, i: nat)
    requires i < |parts|
  {
    || EndsWith(parts[i], ".tmp") || EndsWith(parts[i], ".bak")
    || EndsWith(parts[i], ".backup") || EndsWith(parts[i], ".swp")
    || (i + 1 < |parts| && parts[i] == "wp-content" &&
        parts[i + 1] in {"cache", "upgrade", "debug.log", "updraft", "ai1wm-backups", "backups-dup-lite",
                         "backups-dup-pro", "wpvivid_backups", "backups", "backup-db"})
  }

  /** The exclude patterns of a full archive. */
  predicate Excluded(path: string) {
    var parts := Split(path);
    exists i :: 0 <= i < |parts| && ExcludedAt(parts, i)
  }

  predicate Wanted(path: string) { InUploads(path) && !Excluded(path) }

  // ----- the same on path strings -----

  /** The path ends at k, or goes on with a slash. */
  ghost predicate EndsAt(path: string, k: nat) { k <= |path| && (k < |path| ==> path[k] == '/') }

  /** What a backup must not lead through. */
  ghost predicate Unwanted(p: string) {
    || EndsWith(p, ".tmp") || EndsWith(p, ".bak") || EndsWith(p, ".backup") || EndsWith(p, ".swp")
    || InContent(p, "cache") || InContent(p, "upgrade") || InContent(p, "debug.log") || InContent(p, "updraft")
    || InContent(p, "ai1wm-backups") || InContent(p, "backups-dup-lite") || InContent(p, "backups-dup-pro")
    || InContent(p, "wpvivid_backups") || InContent(p, "backups") || InContent(p, "backup-db")
  }

  ghost predicate InContent(p: string, x: string) { p == "wp-content/" + x || EndsWith(p, "/wp-content/" + x) }

  /** An upload whose path leads through nothing unwanted. */
  ghost predicate IsUpload(path: string) {
    "wp-content/uploads/" <= path && forall k: nat :: EndsAt(path, k) ==> !Unwanted(path[..k])
  }

  lemma UploadsBegin(path: string)
    ensures "wp-content/uploads/" <= path <==> InUploads(path)
  {
    hide Split;
    TwoComponents(path, "wp-content", "uploads");
    assert "wp-content" + "/" + ("uploads" + "/") == "wp-content/uploads/";
  }

  lemma SlashInside(p: string, t: string, c: nat)
    requires EndsWith(p, t) && |p| - |t| <= c < |p| && p[c] == '/'
    ensures !Plain(t)
  {
    assert p[|p| - |t|..][c - (|p| - |t|)] == '/';
  }

  lemma EndsInLast(p: string, t: string)
    requires Plain(t)
    ensures EndsWith(p, t) <==> EndsWith(Split(p)[|Split(p)| - 1], t)
  {
    hide Split;
    JoinOfSplit(p);
    var q := Split(p);
    var n := |q| - 1;
    if n > 0 {
      var a := Join(q[..n]) + "/";
      assert p == a + q[n] && a[|a| - 1] == '/';
      if EndsWith(p, t) && |t| > |q[n]| { SlashInside(p, t, |a| - 1); }
      assert |t| <= |q[n]| ==> p[|p| - |t|..] == q[n][|q[n]| - |t|..];
    } else {
      assert q == [q[0]];
    }
  }

  lemma LastTwo(y: string, x: string)
    requires Plain(x)
    ensures Split("wp-content/" + x) == ["wp-content", x]
    ensures Split(y + "/wp-content/" + x) == Split(y) + ["wp-content", x]
  {
    hide Split;
    var w := "wp-content";
    SplitPlain(w);
    SplitAppend(w, x);
    assert "wp-content/" + x == w + "/" + x;
    SplitSlash(y, w + "/" + x);
    assert y + "/wp-content/" + x == y + "/" + (w + "/" + x);
  }

  lemma InContentIff(p: string, x: string)
    requires Plain(x)
    ensures var q := Split(p); InContent(p, x) <==> |q| >= 2 && q[|q| - 2] == "wp-content" && q[|q| - 1] == x
  {
    hide Split, Join, Plain;
    var t := "/wp-content/" + x;
    LastTwo("", x);
    if EndsWith(p, t) {
      var y := p[..|p| - |t|];
      LastTwo(y, x);
      assert p == y + t && y + t == y + "/wp-content/" + x;
    }
    var q := Split(p);
    if |q| >= 2 && q[|q| - 2] == "wp-content" && q[|q| - 1] == x { JoinLastTwo(p, q, x); }
  }

  lemma JoinLastTwo(p: string, q: seq<string>, x: string)
    requires q == Split(p) && |q| >= 2 && q[|q| - 2] == "wp-content" && q[|q| - 1] == x
    ensures InContent(p, x)
  {
    JoinOfSplit(p);
    hide Split, Plain;
    var w := "wp-content";
    var y := q[..|q| - 2];
    assert Join([w, x]) == w + "/" + x by { assert [w, x][..1] == [w]; }
    hide Join;
    assert q == y + [w, x];
    if y == [] {
      assert q == [w, x];
    } else {
      JoinAppend(y, [w, x]);
      assert p == Join(y) + ("/wp-content/" + x);
    }
  }

  /** The last of these components must not be in a backup. */
  predicate ExcludedEnd(q: seq<string>)
    requires q != []
  {
    || EndsWith(q[|q| - 1], ".tmp") || EndsWith(q[|q| - 1], ".bak")
    || EndsWith(q[|q| - 1], ".backup") || EndsWith(q[|q| - 1], ".swp")
    || (|q| >= 2 && q[|q| - 2] == "wp-content" &&
        q[|q| - 1] in {"cache", "upgrade", "debug.log", "updraft", "ai1wm-backups", "backups-dup-lite",
                       "backups-dup-pro", "wpvivid_backups", "backups", "backup-db"})
  }

  lemma UnwantedIff(p: string)
    ensures Unwanted(p) <==> ExcludedEnd(Split(p))
  {
    hide EndsWith, InContent, Split;
    EndsInLast(p, ".tmp");
    EndsInLast(p, ".bak");
    EndsInLast(p, ".backup");
    EndsInLast(p, ".swp");
    InContentIff(p, "cache");
    InContentIff(p, "upgrade");
    InContentIff(p, "debug.log");
    InContentIff(p, "updraft");
    InContentIff(p, "ai1wm-backups");
    InContentIff(p, "backups-dup-lite");
    InContentIff(p, "backups-dup-pro");
    InContentIff(p, "wpvivid_backups");
    InContentIff(p, "backups");
    InContentIff(p, "backup-db");
  }

  /** Up to a slash or its end a path has the first components of the whole. */
  lemma ComponentsTo(path: string, k: nat)
    requires EndsAt(path, k)
    ensures Split(path[..k]) <= Split(path)
  {
    hide Split;
    if k < |path| {
      assert path == path[..k] + "/" + path[k + 1..];
      SplitSlash(path[..k], path[k + 1..]);
    } else {
      assert path[..k] == path;
    }
  }

  lemma EndOf(path: string, m: nat) returns (k: nat)
    requires 1 <= m <= |Split(path)|
    ensures EndsAt(path, k) && Split(path[..k]) == Split(path)[..m]
  {
    hide Split;
    JoinOfSplit(path);
    var q := Split(path);
    SplitOfJoin(q[..m]);
    k := |Join(q[..m])|;
    if m < |q| {
      assert q == q[..m] + q[m..];
      JoinAppend(q[..m], q[m..]);
      assert path[..k] == Join(q[..m]);
    } else {
      assert q[..m] == q && path[..k] == path;
    }
  }

  lemma ExcludedIff(parts: seq<string>)
    ensures (exists i :: 0 <= i < |parts| && ExcludedAt(parts, i)) <==>
            (exists m :: 1 <= m <= |parts| && ExcludedEnd(parts[..m]))
  {
    hide EndsWith;
    if i :| 0 <= i < |parts| && ExcludedAt(parts, i) {
      assert ExcludedEnd(parts[..i + 1]) || (i + 1 < |parts| && ExcludedEnd(parts[..i + 2]));
    }
    if m :| 1 <= m <= |parts| && ExcludedEnd(parts[..m]) {
      assert ExcludedAt(parts, m - 1) || (m >= 2 && ExcludedAt(parts, m - 2));
    }
  }

  /** What the chain is about: the uploads whose paths lead through nothing unwanted. */
  lemma WantedIsUpload(path: string)
    ensures Wanted(path) <==> IsUpload(path)
  {
    hide Split, Unwanted, ExcludedAt, ExcludedEnd, InUploads;
    var parts := Split(path);
    UploadsBegin(path);
    ExcludedIff(parts);
    if m :| 1 <= m <= |parts| && ExcludedEnd(parts[..m]) {
      var k := EndOf(path, m);
      UnwantedIff(path[..k]);
    }
    if k: nat :| EndsAt(path, k) && Unwanted(path[..k]) {
      ComponentsTo(path, k);
      UnwantedIff(path[..k]);
      var m := |Split(path[..k])|;
      assert parts[..m] == Split(path[..k]);
    }
  }

  // ----- the site while a backup runs -----

  /** The files after the first n writes. */
  function Applied(tree: Tree, ws: seq<SiteWrite>, n: nat): Tree
    requires n <= |ws|
  {
    if n == 0 then tree
    else
      var t, w := Applied(tree, ws, n - 1), ws[n - 1];
      if w.data.Some? then t[w.path := Version(w.at, w.data.value)] else t - {w.path}
  }

  /** The writes come after time t. */
  ghost predicate Since(ws: seq<SiteWrite>, t: int) { forall i :: 0 <= i < |ws| ==> t < ws[i].at }

  /** A file last written before the writes in ws was there all along. */
  lemma {:induction false} StillThere(tree: Tree, ws: seq<SiteWrite>, k: nat, n: nat, t: int, p: string)
    requires k <= n <= |ws| && Since(ws, t)
    requires p in Applied(tree, ws, n) && Applied(tree, ws, n)[p].at <= t
    ensures p in Applied(tree, ws, k) && Applied(tree, ws, k)[p] == Applied(tree, ws, n)[p]
    decreases n
  {
    if k < n { StillThere(tree, ws, k, n - 1, t, p); }
  }

  // ----- archives -----

  function Touched(ws: seq<SiteWrite>): set<string> { set w | w in ws :: w.path }

  /** When tar reads a file: after how many of the writes. */
  function ReadAt(reading: map<string, nat>, p: string, first: nat, ws: seq<SiteWrite>): (k: nat)
    requires first <= |ws|
    ensures first <= k <= |ws|
  {
    if p in reading && first <= reading[p] <= |ws| then reading[p] else first
  }

  function FullContents(tree: Tree, ws: seq<SiteWrite>, reading: map<string, nat>): Tree {
    map p | p in tree.Keys + Touched(ws) && !Excluded(p) && p in Applied(tree, ws, ReadAt(reading, p, 0, ws))
      :: Applied(tree, ws, ReadAt(reading, p, 0, ws))[p]
  }

  /** `find uploads -newer stamp -type f`, run after the first `scan` writes. */
  function Newer(tree: Tree, ws: seq<SiteWrite>, scan: nat, stamp: int): set<string>
    requires scan <= |ws|
  {
    set p | p in Applied(tree, ws, scan) && InUploads(p) && Applied(tree, ws, scan)[p].at > stamp
  }

  /** A listed file that has disappeared makes tar fail. */
  predicate AllReadable(tree: Tree, ws: seq<SiteWrite>, scan: nat, reading: map<string, nat>, stamp: int)
    requires scan <= |ws|
  {
    forall p :: p in Newer(tree, ws, scan, stamp) ==> p in Applied(tree, ws, ReadAt(reading, p, scan, ws))
  }

  function IncrementalContents(tree: Tree, ws: seq<SiteWrite>, scan: nat, reading: map<string, nat>, stamp: int): Tree
    requires scan <= |ws| && AllReadable(tree, ws, scan, reading, stamp)
  {
    map p | p in Newer(tree, ws, scan, stamp) :: Applied(tree, ws, ReadAt(reading, p, scan, ws))[p]
  }

  // ----- coverage -----

  ghost predicate Held(archives: map<string, Archive>, p: string, v: Version) {
    exists n :: n in archives && p in archives[n].contents && archives[n].contents[p] == v
  }

  /** Every wanted file last written at or before the stamp is held in that version by some archive. */
  ghost predicate Covered(s: Store) {
    s.stamp.Some? ==>
      forall p :: p in s.tree && Wanted(p) && s.tree[p].at <= s.stamp.value ==> Held(s.archives, p, s.tree[p])
  }

  /** Archive n alone covers everything last written at or before t. */
  ghost predicate Complete(tree: Tree, a: Archive, t: int) {
    forall p :: p in tree && Wanted(p) && tree[p].at <= t ==> p in a.contents && a.contents[p] == tree[p]
  }

  lemma FullIsComplete(tree: Tree, ws: seq<SiteWrite>, reading: map<string, nat>, cutoff: int, a: Archive)
    requires Since(ws, cutoff) && a.contents == FullContents(tree, ws, reading)
    ensures Complete(Applied(tree, ws, |ws|), a, cutoff)
  {
    hide Excluded, InUploads, ReadAt;
    var after := Applied(tree, ws, |ws|);
    forall p | p in after && Wanted(p) && after[p].at <= cutoff ensures p in a.contents && a.contents[p] == after[p] {
      StillThere(tree, ws, ReadAt(reading, p, 0, ws), |ws|, cutoff, p);
      StillThere(tree, ws, 0, |ws|, cutoff, p);
    }
  }

  lemma FullCovers(tree: Tree, ws: seq<SiteWrite>, reading: map<string, nat>, cutoff: int, archives: map<string,
      Archive>, n: string, rows: seq<string>)
    requires Since(ws, cutoff) && n in archives && archives[n].contents == FullContents(tree, ws, reading)
    ensures Complete(Applied(tree, ws, |ws|), archives[n], cutoff)
    ensures Covered(Store(Applied(tree, ws, |ws|), archives, rows, Some(cutoff)))
  {
    hide Wanted, Applied, FullContents;
    FullIsComplete(tree, ws, reading, cutoff, archives[n]);
  }

  /** What was covered before the writes is covered after them. */
  lemma CoveredAfterWrites(s: Store, ws: seq<SiteWrite>)
    requires Covered(s) && (s.stamp.Some? ==> Since(ws, s.stamp.value))
    ensures Covered(s.(tree := Applied(s.tree, ws, |ws|)))
  {
    hide Wanted;
    if s.stamp.Some? {
      var after := Applied(s.tree, ws, |ws|);
      forall p | p in after && Wanted(p) && after[p].at <= s.stamp.value ensures Held(s.archives, p, after[p]) {
        StillThere(s.tree, ws, 0, |ws|, s.stamp.value, p);
      }
    }
  }

  /** A file written after the old stamp and not after the cutoff is listed, and read as it still is. */
  lemma Listed(tree: Tree, ws: seq<SiteWrite>, scan: nat, reading: map<string, nat>, stamp: int, cutoff: int, p: string)
    requires Since(ws, cutoff) && scan <= |ws| && AllReadable(tree, ws, scan, reading, stamp)
    requires p in Applied(tree, ws, |ws|) && InUploads(p) && stamp < Applied(tree, ws, |ws|)[p].at <= cutoff
    ensures var c := IncrementalContents(tree, ws, scan, reading, stamp); p in c && c[p] == Applied(tree, ws, |ws|)[p]
  {
    hide InUploads, Applied;
    StillThere(tree, ws, scan, |ws|, cutoff, p);
    StillThere(tree, ws, ReadAt(reading, p, scan, ws), |ws|, cutoff, p);
  }

  /** An incremental archive extends the coverage to its cutoff. */
  lemma IncrementalCovers(s: Store, ws: seq<SiteWrite>, scan: nat, reading: map<string, nat>, cutoff: int,
      archives: map<string, Archive>)
    requires s.stamp.Some? && s.stamp.value <= cutoff && Since(ws, cutoff) && scan <= |ws|
    requires Covered(s) && AllReadable(s.tree, ws, scan, reading, s.stamp.value)
    requires forall n :: n in s.archives ==> n in archives && archives[n].contents == s.archives[n].contents
    requires var c := IncrementalContents(s.tree, ws, scan, reading, s.stamp.value);
      c == map[] || exists n :: n in archives && archives[n].contents == c
    ensures Covered(s.(tree := Applied(s.tree, ws, |ws|), archives := archives, stamp := Some(cutoff)))
  {
    hide Wanted, Applied, AllReadable, IncrementalContents;
    var c := IncrementalContents(s.tree, ws, scan, reading, s.stamp.value);
    var after := Applied(s.tree, ws, |ws|);
    CoveredAfterWrites(s, ws);
    forall p | p in after && Wanted(p) && after[p].at <= cutoff ensures Held(archives, p, after[p]) {
      if after[p].at <= s.stamp.value {
        var n :| n in s.archives && p in s.archives[n].contents && s.archives[n].contents[p] == after[p];
        assert p in archives[n].contents;
      } else {
        assert InUploads(p) by { WantedInUploads(p); }
        Listed(s.tree, ws, scan, reading, s.stamp.value, cutoff, p);
        var n :| n in archives && archives[n].contents == c;
      }
    }
  }

  lemma WantedInUploads(p: string)
    requires Wanted(p)
    ensures InUploads(p) && !Excluded(p)
  {
  }

  // ----- a clock that may stand still -----

  /** The last write to p is number i, it leaves a file there, and it comes at time t. */
  ghost predicate LastWrite(ws: seq<SiteWrite>, i: nat, p: string, t: int) {
    && i < |ws| && ws[i].path == p && ws[i].at == t && ws[i].data.Some?
    && forall j :: i < j < |ws| ==> ws[j].path != p
  }

  /** The last write to p comes at the cutoff, after the first `first` writes; it is not in
      the new archive, which holds c, and what it leaves there was not held before. */
  ghost predicate LostWrite(ws: seq<SiteWrite>, first: nat, cutoff: int, c: Tree, held: map<string, Archive>,
      p: string)
  {
    && Wanted(p)
    && exists i :: first <= i && LastWrite(ws, i, p, cutoff) && NotIn(c, p, Version(cutoff, ws[i].data.value))
                   && !Held(held, p, Version(cutoff, ws[i].data.value))
  }

  predicate NotIn(c: Tree, p: string, v: Version) { p in c ==> c[p] != v }

  /** An archive that holds c came to the ones before, unless there was nothing to hold. */
  ghost predicate Added(held: map<string, Archive>, n: string, a: Archive, archives: map<string, Archive>) {
    (n !in held && archives == held[n := a]) || (a.contents == map[] && archives == held)
  }

  lemma {:induction false} Unwritten(tree: Tree, ws: seq<SiteWrite>, m: nat, n: nat, p: string)
    requires m <= n <= |ws| && forall j :: m <= j < n ==> ws[j].path != p
    ensures p in Applied(tree, ws, n) <==> p in Applied(tree, ws, m)
    ensures p in Applied(tree, ws, n) ==> Applied(tree, ws, n)[p] == Applied(tree, ws, m)[p]
    decreases n
  {
    if m < n { Unwritten(tree, ws, m, n - 1, p); }
  }

  lemma LastWriteStays(tree: Tree, ws: seq<SiteWrite>, i: nat, p: string, t: int)
    requires LastWrite(ws, i, p, t)
    ensures var after := Applied(tree, ws, |ws|); p in after && after[p] == Version(t, ws[i].data.value)
  {
    Unwritten(tree, ws, i + 1, |ws|, p);
  }

  /** What is there in the end and was last written at t comes from such a write, or was there from the start. */
  lemma {:induction false} FromLastWrite(tree: Tree, ws: seq<SiteWrite>, n: nat, p: string)
    requires n <= |ws| && p in Applied(tree, ws, |ws|) && forall j :: n <= j < |ws| ==> ws[j].path != p
    ensures
      (exists i :: LastWrite(ws, i, p, Applied(tree, ws, |ws|)[p].at)) || forall j :: 0 <= j < |ws| ==> ws[j].path != p
  {
    if n > 0 {
      if ws[n - 1].path == p {
        Unwritten(tree, ws, n, |ws|, p);
        assert LastWrite(ws, n - 1, p, Applied(tree, ws, |ws|)[p].at);
      } else {
        FromLastWrite(tree, ws, n - 1, p);
      }
    }
  }

  ghost predicate NoLaterWrite(ws: seq<SiteWrite>, first: nat, p: string, t: int) {
    forall i :: first <= i ==> !LastWrite(ws, i, p, t)
  }

  /** A file whose last write is not at the cutoff after the first k writes is then as it stays. */
  lemma SettledBy(tree: Tree, ws: seq<SiteWrite>, first: nat, k: nat, cutoff: int, p: string)
    requires first <= k <= |ws| && Since(ws, cutoff - 1) && NoLaterWrite(ws, first, p, cutoff)
    requires p in Applied(tree, ws, |ws|) && Applied(tree, ws, |ws|)[p].at <= cutoff
    ensures p in Applied(tree, ws, k) && Applied(tree, ws, k)[p] == Applied(tree, ws, |ws|)[p]
  {
    hide Applied;
    if Applied(tree, ws, |ws|)[p].at < cutoff {
      StillThere(tree, ws, k, |ws|, cutoff - 1, p);
    } else {
      FromLastWrite(tree, ws, |ws|, p);
      Unwritten(tree, ws, k, |ws|, p);
    }
  }

  /** A wanted file that would be held if it were not written late is held exactly when it is not lost. */
  lemma HeldUnlessLost(tree: Tree, ws: seq<SiteWrite>, first: nat, cutoff: int, held: map<string, Archive>, n: string,
      a: Archive, archives: map<string, Archive>, p: string)
    requires Added(held, n, a, archives)
    requires p in Applied(tree, ws, |ws|) && Wanted(p) && !LostWrite(ws, first, cutoff, a.contents, held, p)
    requires NoLaterWrite(ws, first, p, cutoff) ==> Held(archives, p, Applied(tree, ws, |ws|)[p])
    ensures Held(archives, p, Applied(tree, ws, |ws|)[p])
  {
    hide Wanted, Applied, Held, Added, NotIn;
    if !NoLaterWrite(ws, first, p, cutoff) {
      var i: nat :| first <= i && LastWrite(ws, i, p, cutoff);
      LastWriteStays(tree, ws, i, p, cutoff);
      HeldAfter(held, n, a, archives, p, Applied(tree, ws, |ws|)[p]);
    }
  }

  lemma LostIsNotCovered(tree: Tree, s: Store, ws: seq<SiteWrite>, first: nat, cutoff: int, held: map<string, Archive>,
      n: string, a: Archive, p: string)
    requires Added(held, n, a, s.archives) && LostWrite(ws, first, cutoff, a.contents, held, p)
    requires s.stamp == Some(cutoff) && s.tree == Applied(tree, ws, |ws|)
    ensures !Covered(s)
  {
    hide Wanted, Applied, Held, Added, NotIn;
    var i: nat :|
      && first <= i && LastWrite(ws, i, p, cutoff) && NotIn(a.contents, p, Version(cutoff, ws[i].data.value))
      && !Held(held, p, Version(cutoff, ws[i].data.value));
    LastWriteStays(tree, ws, i, p, cutoff);
    HeldAfter(held, n, a, s.archives, p, s.tree[p]);
  }

  lemma HeldAfter(held: map<string, Archive>, n: string, a: Archive, archives: map<string, Archive>, p: string,
      v: Version)
    requires Added(held, n, a, archives)
    ensures Held(archives, p, v) <==> Held(held, p, v) || !NotIn(a.contents, p, v)
  {
    if Held(held, p, v) {
      var m :| m in held && p in held[m].contents && held[m].contents[p] == v;
      assert m in archives && p in archives[m].contents;
    }
    if !NotIn(a.contents, p, v) { assert n in archives && p in archives[n].contents; }
  }

  /** With a clock that may stand still: a full archive covers exactly when no wanted file
      was last written at the cutoff after it was read. */
  lemma FullCoversIffNoneLost(tree: Tree, ws: seq<SiteWrite>, reading: map<string, nat>, cutoff: int, held: map<string,
      Archive>, n: string, a: Archive, rows: seq<string>)
    requires Since(ws, cutoff - 1) && n !in held && a.contents == FullContents(tree, ws, reading)
    ensures Covered(Store(Applied(tree, ws, |ws|), held[n := a], rows, Some(cutoff)))
      <==> forall p :: !LostWrite(ws, ReadAt(reading, p, 0, ws), cutoff, a.contents, held, p)
  {
    hide Wanted, Applied, LostWrite, NoLaterWrite, FullContents, Held;
    var after := Applied(tree, ws, |ws|);
    var s := Store(after, held[n := a], rows, Some(cutoff));
    forall p | LostWrite(ws, ReadAt(reading, p, 0, ws), cutoff, a.contents, held, p) ensures !Covered(s) {
      LostIsNotCovered(tree, s, ws, ReadAt(reading, p, 0, ws), cutoff, held, n, a, p);
    }
    forall p |
      && p in after && Wanted(p) && after[p].at <= cutoff
      && !LostWrite(ws, ReadAt(reading, p, 0, ws), cutoff, a.contents, held, p)
      ensures Held(s.archives, p, after[p])
    {
      if NoLaterWrite(ws, ReadAt(reading, p, 0, ws), p, cutoff) {
        ReadSettled(tree, ws, reading, cutoff, p);
        HeldAfter(held, n, a, s.archives, p, after[p]);
      }
      HeldUnlessLost(tree, ws, ReadAt(reading, p, 0, ws), cutoff, held, n, a, s.archives, p);
    }
  }

  /** A file settled when tar reads it is in the full archive. */
  lemma ReadSettled(tree: Tree, ws: seq<SiteWrite>, reading: map<string, nat>, cutoff: int, p: string)
    requires Since(ws, cutoff - 1) && Wanted(p) && p in Applied(tree, ws, |ws|)
    requires Applied(tree, ws, |ws|)[p].at <= cutoff
    requires NoLaterWrite(ws, ReadAt(reading, p, 0, ws), p, cutoff)
    ensures !NotIn(FullContents(tree, ws, reading), p, Applied(tree, ws, |ws|)[p])
  {
    hide Wanted, Applied, Excluded, NoLaterWrite, ReadAt;
    var k := ReadAt(reading, p, 0, ws);
    WantedInUploads(p);
    SettledBy(tree, ws, k, k, cutoff, p);
    Mentioned(tree, ws, k, p);
  }

  /** An incremental archive extends the coverage exactly when no wanted file was last
      written at the cutoff after the scan and missed; when the stamp is at the cutoff
      already, after the start. */
  lemma IncrementalCoversIffNoneLost(s: Store, ws: seq<SiteWrite>, scan: nat, reading: map<string, nat>, cutoff: int,
      n: string, a: Archive, archives: map<string, Archive>)
    requires s.stamp.Some? && s.stamp.value <= cutoff && Since(ws, cutoff - 1) && scan <= |ws|
    requires Covered(s) && AllReadable(s.tree, ws, scan, reading, s.stamp.value)
    requires a.contents == IncrementalContents(s.tree, ws, scan, reading, s.stamp.value)
    requires Added(s.archives, n, a, archives)
    ensures var first := if s.stamp.value < cutoff then scan else 0;
      Covered(s.(tree := Applied(s.tree, ws, |ws|), archives := archives, stamp := Some(cutoff)))
      <==> forall p :: !LostWrite(ws, first, cutoff, a.contents, s.archives, p)
  {
    hide Wanted, Applied, LostWrite, NoLaterWrite, AllReadable, IncrementalContents, Held, Added;
    var first: nat := if s.stamp.value < cutoff then scan else 0;
    var next := s.(tree := Applied(s.tree, ws, |ws|), archives := archives, stamp := Some(cutoff));
    forall p | LostWrite(ws, first, cutoff, a.contents, s.archives, p) ensures !Covered(next) {
      LostIsNotCovered(s.tree, next, ws, first, cutoff, s.archives, n, a, p);
    }
    forall p |
      && p in next.tree && Wanted(p) && next.tree[p].at <= cutoff
      && !LostWrite(ws, first, cutoff, a.contents, s.archives, p)
      ensures Held(archives, p, next.tree[p])
    {
      if NoLaterWrite(ws, first, p, cutoff) {
        if next.tree[p].at <= s.stamp.value { FromTheStart(s, ws, cutoff, p); } else {
          MissedNothing(s, ws, scan, reading, cutoff, p);
        }
        HeldAfter(s.archives, n, a, archives, p, next.tree[p]);
      }
      HeldUnlessLost(s.tree, ws, first, cutoff, s.archives, n, a, archives, p);
    }
  }

  /** A file not newer than the stamp in the end was there from the start, and covered. */
  lemma FromTheStart(s: Store, ws: seq<SiteWrite>, cutoff: int, p: string)
    requires s.stamp.Some? && s.stamp.value <= cutoff && Since(ws, cutoff - 1) && Covered(s) && Wanted(p)
    requires p in Applied(s.tree, ws, |ws|) && Applied(s.tree, ws, |ws|)[p].at <= s.stamp.value
    requires s.stamp.value == cutoff ==> NoLaterWrite(ws, 0, p, cutoff)
    ensures Held(s.archives, p, Applied(s.tree, ws, |ws|)[p])
  {
    hide Wanted, Applied, Held, NoLaterWrite;
    if s.stamp.value < cutoff {
      StillThere(s.tree, ws, 0, |ws|, s.stamp.value, p);
    } else {
      SettledBy(s.tree, ws, 0, 0, cutoff, p);
    }
    AppliedNone(s.tree, ws);
  }

  /** A file newer than the stamp and settled by the scan is in the archive. */
  lemma MissedNothing(s: Store, ws: seq<SiteWrite>, scan: nat, reading: map<string, nat>, cutoff: int, p: string)
    requires s.stamp.Some? && s.stamp.value < cutoff && Since(ws, cutoff - 1) && scan <= |ws|
    requires AllReadable(s.tree, ws, scan, reading, s.stamp.value)
    requires Wanted(p) && p in Applied(s.tree, ws, |ws|) && s.stamp.value < Applied(s.tree, ws, |ws|)[p].at <= cutoff
    requires NoLaterWrite(ws, scan, p, cutoff)
    ensures !NotIn(IncrementalContents(s.tree, ws, scan, reading, s.stamp.value), p, Applied(s.tree, ws, |ws|)[p])
  {
    hide Wanted, Applied, InUploads, NoLaterWrite;
    WantedInUploads(p);
    SettledBy(s.tree, ws, scan, scan, cutoff, p);
    SettledBy(s.tree, ws, scan, ReadAt(reading, p, scan, ws), cutoff, p);
  }

  lemma {:induction false} Mentioned(tree: Tree, ws: seq<SiteWrite>, n: nat, p: string)
    requires n <= |ws| && p in Applied(tree, ws, n)
    ensures p in tree.Keys + Touched(ws)
  {
    if n > 0 {
      assert ws[n - 1].path in Touched(ws);
      if p in Applied(tree, ws, n - 1) { Mentioned(tree, ws, n - 1, p); }
    }
  }

  /** No later incremental backup lists a file not newer than the stamp until it is written again. */
  lemma NeverListed(tree: Tree, ws: seq<SiteWrite>, scan: nat, stamp: int, p: string)
    requires scan <= |ws| && p !in Touched(ws) && (p in tree ==> tree[p].at <= stamp)
    ensures p !in Newer(tree, ws, scan, stamp)
  {
    hide InUploads, Applied;
    assert forall j :: 0 <= j < |ws| ==> ws[j].path in Touched(ws);
    Unwritten(tree, ws, 0, scan, p);
    assert Applied(tree, ws, 0) == tree by { AppliedNone(tree, ws); }
  }

  lemma AppliedNone(tree: Tree, ws: seq<SiteWrite>)
    ensures Applied(tree, ws, 0) == tree
  {
  }

  /** A file that was lost stays lost through every incremental run during which it is not written again. */
  lemma StaysLost(s: Store, ws: seq<SiteWrite>, scan: nat, reading: map<string, nat>, cutoff: int, n: string,
      a: Archive, archives: map<string, Archive>, p: string)
    requires s.stamp.Some? && s.stamp.value <= cutoff && scan <= |ws|
    requires AllReadable(s.tree, ws, scan, reading, s.stamp.value)
    requires a.contents == IncrementalContents(s.tree, ws, scan, reading, s.stamp.value)
    requires Added(s.archives, n, a, archives)
    requires Wanted(p) && p in s.tree && s.tree[p].at <= s.stamp.value && !Held(s.archives, p, s.tree[p])
    requires p !in Touched(ws)
    ensures var next := s.(tree := Applied(s.tree, ws, |ws|), archives := archives, stamp := Some(cutoff));
      p in next.tree && next.tree[p] == s.tree[p] && !Held(archives, p, s.tree[p]) && !Covered(next)
  {
    hide Wanted, Applied, AllReadable, Held, Added;
    NeverListed(s.tree, ws, scan, s.stamp.value, p);
    assert forall j :: 0 <= j < |ws| ==> ws[j].path in Touched(ws);
    Unwritten(s.tree, ws, 0, |ws|, p);
    AppliedNone(s.tree, ws);
    HeldAfter(s.archives, n, a, archives, p, s.tree[p]);
  }

  const UPLOAD := Join(["wp-content", "uploads", "a"])

  lemma NotExcludedAt(parts: seq<string>, i: nat)
    requires i < |parts| && |parts[i]| > 0 && parts[i][|parts[i]| - 1] !in {'p', 'k'}
    requires i + 1 < |parts| ==> |parts[i + 1]| < 3 || parts[i + 1][2] == 'l'
    ensures !ExcludedAt(parts, i)
  {
  }

  lemma UploadIsWanted()
    ensures Wanted(UPLOAD)
  {
    hide ExcludedAt;
    var parts := ["wp-content", "uploads", "a"];
    SplitOfJoin(parts);
    hide Split, Join;
    forall i | 0 <= i < |parts| ensures !ExcludedAt(parts, i) { NotExcludedAt(parts, i); }
  }

  /** A full backup of an empty site, which writes one upload at the cutoff after tar has
      passed: the archive does not hold it, and the stamp says that nothing is missing. */
  lemma LosesAnUpload(cutoff: int, data: int, n: string)
    ensures var ws := [SiteWrite(UPLOAD, Some(data), cutoff)];
      var a := Archive(true, cutoff + 1, FullContents(map[], ws, map[]));
      !Covered(Store(Applied(map[], ws, 1), map[n := a], [n], Some(cutoff)))
  {
    hide Wanted, Excluded;
    var ws := [SiteWrite(UPLOAD, Some(data), cutoff)];
    UploadIsWanted();
    assert UPLOAD in Applied(map[], ws, 1);
    assert UPLOAD !in FullContents(map[], ws, map[]);
  }

  // ----- one run -----

  datatype Probe = HasBaseline | NoBaseline | Unconfirmed

  /** Which deletions fail, and after how many names the run is cancelled. */
  datatype CleanEnv = CleanEnv(listOk: bool, remoteFails: set<string>, localFails: set<string>, rowFails: set<string>,
      cancelAt: nat)

  datatype BackupEnv = BackupEnv(
    full: bool, keep: int, remote: bool, ready: bool, cutoff: int, probe: Probe, visible: set<string>,
    name: string, reserveOk: bool, ws: seq<SiteWrite>, scan: nat, reading: map<string, nat>,
    uploadsExist: bool, scanOk: bool, archiveOk: bool, verifyOk: bool, finished: int, removeOk: bool,
    cancelled: bool, recorded: Write, syncOk: bool, cancelledLate: bool, stampOk: bool, clean: CleanEnv)

  datatype Result = Completed | Skipped | Failed | CleanupAborted

  /** What a run needs of the clock and of the name it reserves: it starts when the clock
      shows `cutoff`, not before anything that has happened; what the site writes from
      then on, and the archive, come strictly later; and the name is new. */
  ghost predicate Timely(s: Store, e: BackupEnv) {
    && (s.stamp.Some? ==> s.stamp.value <= e.cutoff)
    && (forall n :: n in s.archives ==> s.archives[n].finished <= e.cutoff)
    && e.cutoff < e.finished && Since(e.ws, e.cutoff) && e.scan <= |e.ws|
    && e.name !in s.archives && e.name !in s.rows
  }

  /** There is nothing to put into an incremental archive. */
  ghost predicate NothingNew(s: Store, e: BackupEnv, full: bool)
    requires e.scan <= |e.ws|
  {
    !full && s.stamp.Some? && Newer(s.tree, e.ws, e.scan, s.stamp.value) == {}
  }

  /** The archive is made and verified, or found to be unnecessary. */
  ghost predicate Archivable(s: Store, e: BackupEnv, full: bool)
    requires e.scan <= |e.ws| && (full || s.stamp.Some?)
  {
    && e.reserveOk
    && (!full ==> e.uploadsExist && e.scanOk)
    && (NothingNew(s, e, full)
        || (e.archiveOk && e.verifyOk && (full || AllReadable(s.tree, e.ws, e.scan, e.reading, s.stamp.value))))
  }

  /** It is recorded and synced, and the stamp advances. */
  ghost predicate Publishable(e: BackupEnv) {
    !e.cancelled && e.recorded == Acked && !e.cancelledLate && (e.remote ==> e.syncOk) && e.stampOk
  }

  /** The kind of a run: full when asked for, when there is no stamp, or when the remote side has no baseline. */
  ghost predicate IsFull(s: Store, e: BackupEnv) { e.full || s.stamp == None || (e.remote && e.probe == NoBaseline) }

  /** Exactly then a run succeeds. */
  ghost predicate Succeeds(s: Store, e: BackupEnv)
    requires e.scan <= |e.ws|
  {
    && e.ready && (e.full || s.stamp == None || (e.remote ==> e.probe != Unconfirmed))
    && Archivable(s, e, IsFull(s, e)) && if NothingNew(s, e, IsFull(s, e)) then e.stampOk else Publishable(e)
  }

  function Without(rows: seq<string>, n: string): (r: seq<string>)
    ensures forall m :: m in r <==> m in rows && m != n
  {
    if rows == [] then []
    else Without(rows[..|rows| - 1], n) + if rows[|rows| - 1] == n then [] else [rows[|rows| - 1]]
  }

  function Only(rows: seq<string>, visible: set<string>): (r: seq<string>)
    ensures forall n :: n in r <==> n in rows && n in visible
  {
    if rows == [] then []
    else Only(rows[..|rows| - 1], visible) + if rows[|rows| - 1] in visible then [rows[|rows| - 1]] else []
  }

  /** Every archive of one store is still there, as it was, in the other. */
  ghost predicate Extends(before: map<string, Archive>, after: map<string, Archive>) {
    forall n :: n in before ==> n in after && after[n] == before[n]
  }

  /** More archives cover no less. */
  lemma CoveredGrows(s: Store, after: Store)
    requires Covered(s) && Extends(s.archives, after.archives) && after.tree == s.tree && after.stamp == s.stamp
    ensures Covered(after)
  {
    hide Wanted;
    if s.stamp.Some? {
      forall p | p in s.tree && Wanted(p) && s.tree[p].at <= s.stamp.value ensures Held(after.archives, p, s.tree[p]) {
        var n :| n in s.archives && p in s.archives[n].contents && s.archives[n].contents[p] == s.tree[p];
        assert n in after.archives;
      }
    }
  }

  lemma NothingNewer(tree: Tree, ws: seq<SiteWrite>, scan: nat, reading: map<string, nat>, stamp: int)
    requires scan <= |ws| && Newer(tree, ws, scan, stamp) == {}
    ensures AllReadable(tree, ws, scan, reading, stamp) && IncrementalContents(tree, ws, scan, reading, stamp) == map[]
  {
  }

  /** One archive that is complete up to the stamp is all the coverage needs. */
  lemma CompleteCovers(s: Store, n: string)
    requires n in s.archives && s.stamp.Some? && Complete(s.tree, s.archives[n], s.stamp.value)
    ensures Covered(s)
  {
    hide Wanted;
  }

  ghost predicate Oldest(archives: map<string, Archive>, names: set<string>, n: string) {
    && n in names && n in archives
    && forall m :: m in names && m in archives ==> archives[n].finished <= archives[m].finished
  }

  lemma {:induction false} OldestExists(archives: map<string, Archive>, names: set<string>)
    requires names != {} && names <= archives.Keys
    ensures exists n :: Oldest(archives, names, n)
    decreases |names|
  {
    var x :| x in names;
    if names == {x} {
      assert Oldest(archives, names, x);
    } else {
      OldestExists(archives, names - {x});
      var n :| Oldest(archives, names - {x}, n);
      assert Oldest(archives, names, if archives[x].finished <= archives[n].finished then x else n);
    }
  }

  /** The full archives in some order of age. */
  ghost predicate Aged(archives: map<string, Archive>, order: seq<string>) {
    && (forall i, j :: 0 <= i < j < |order| ==> order[i] != order[j])
    && (forall m :: m in order <==> m in archives && archives[m].full)
    && (forall i, j :: 0 <= i < j < |order| ==> archives[order[i]].finished <= archives[order[j]].finished)
  }

  function Excess(order: seq<string>, keep: nat): seq<string> {
    if |order| <= keep then [] else order[..|order| - keep]
  }

  /** Of the named archives exactly those are left that could not be removed, and the rows of
      those and of the ones whose row could not be. */
  ghost predicate Cleaned(was: Store, after: Store, names: seq<string>, clean: CleanEnv) {
    && (forall m :: m in was.archives ==>
          (m in after.archives <==> m !in names || m in clean.remoteFails || m in clean.localFails))
    && (forall m :: m in was.rows ==>
          (m in after.rows <==> m !in names || m in clean.remoteFails || m in clean.localFails || m in clean.rowFails))
    && Extends(after.archives, was.archives) && forall m :: m in after.rows ==> m in was.rows
  }

  /** The names a cleaning gets to before it is cancelled. */
  function Reached(names: seq<string>, clean: CleanEnv): seq<string> {
    if clean.cancelAt < |names| then names[..clean.cancelAt] else names
  }

  /** What a new full archive leaves of the others: with a remote side the frozen list goes,
      without one the oldest full archives beyond the number to keep, three by default. */
  ghost predicate Superseded(was: Store, after: Store, e: BackupEnv, chain: seq<string>) {
    var keep := if e.keep <= 0 then 3 else e.keep;
    if e.remote then Cleaned(was, after, Reached(chain, e.clean), e.clean)
    else if !e.clean.listOk then after.archives == was.archives && after.rows == was.rows
    else exists order :: Rotated(was, after, order, keep, e.clean)
  }

  /** What a run makes of the archives and rows, when its archive is there but not recorded yet. */
  ghost predicate Outcome(made: Store, after: Store, e: BackupEnv, full: bool, chain: seq<string>) {
    var recorded := made.(rows := made.rows + [e.name]);
    if full then Superseded(recorded, after, e, chain)
    else after.archives == made.archives && after.rows == recorded.rows
  }

  lemma OutcomeOf(before: Store, mid: Store, after: Store, e: BackupEnv, full: bool, chain: seq<string>)
    requires Extends(before.archives, mid.archives) && mid.archives.Keys <= before.archives.Keys + {e.name}
    requires e.name in mid.archives && mid.rows == before.rows && Outcome(mid, after, e, full, chain)
    ensures Outcome(before.(archives := before.archives[e.name := mid.archives[e.name]]), after, e, full, chain)
  {
    assert mid.archives == before.archives[e.name := mid.archives[e.name]];
    hide Aged, Extends;
  }

  /** The oldest full archives beyond `keep` are cleaned away. */
  ghost predicate Rotated(was: Store, after: Store, order: seq<string>, keep: nat, clean: CleanEnv) {
    Aged(was.archives, order) && Cleaned(was, after, Excess(order, keep), clean.(remoteFails := {}))
  }

  lemma CleanedNothing(s: Store, clean: CleanEnv)
    ensures Cleaned(s, s, [], clean)
  {
  }

  /** One more name: left alone, its archive gone, or its row gone too. */
  lemma CleanedOne(was: Store, s: Store, chain: seq<string>, i: nat, clean: CleanEnv)
    requires i < |chain| && Cleaned(was, s, chain[..i], clean)
    ensures var m := chain[i]; var less := s.(archives := s.archives - {m});
      if m in clean.remoteFails || m in clean.localFails then Cleaned(was, s, chain[..i + 1], clean)
      else if m in clean.rowFails then Cleaned(was, less, chain[..i + 1], clean)
      else Cleaned(was, less.(rows := Without(s.rows, m)), chain[..i + 1], clean)
  {
    assert chain[..i + 1] == chain[..i] + [chain[i]];
  }

  lemma NewestIsLast(archives: map<string, Archive>, order: seq<string>, n: string)
    requires Aged(archives, order) && n in archives && archives[n].full
    requires forall m :: m in archives && m != n ==> archives[m].finished < archives[n].finished
    ensures |order| > 0 && order[|order| - 1] == n && forall keep: nat :: keep >= 1 ==> n !in Excess(order, keep)
  {
    var i :| 0 <= i < |order| && order[i] == n;
    var last := |order| - 1;
    assert order[last] in order;
  }

  datatype Made = Archived | Nothing | Broken

  /** What every state of a run with environment e must meet. */
  datatype Claim = Claim(start: Store, e: BackupEnv, covered: bool)

  ghost predicate Meets(s: Store, c: Claim) {
    && (c.covered ==> Covered(s))
    && (forall n :: n in s.archives ==> if n in c.start.archives then s.archives[n] == c.start.archives[n]
                                        else n == c.e.name && s.archives[n].finished <= c.e.finished)
    && (forall n :: n in s.rows ==> n in c.start.rows || n == c.e.name)
    && (s.stamp == c.start.stamp || s.stamp == Some(c.e.cutoff))
  }

  /** A state that lost archives other than the new, complete one. */
  lemma Shrinking(s: Store, less: Store, c: Claim)
    requires Meets(s, c) && Extends(less.archives, s.archives) && less.stamp == s.stamp && less.stamp.Some?
    requires less.tree == s.tree
    requires forall n :: n in less.rows ==> n in s.rows
    requires c.e.name in less.archives && Complete(less.tree, less.archives[c.e.name], less.stamp.value)
    ensures Meets(less, c)
  {
    hide Covered, Complete;
    CompleteCovers(less, c.e.name);
  }

  lemma CoveredRows(s: Store, rows: seq<string>)
    requires Covered(s.(rows := rows))
    ensures Covered(s)
  {
  }

  /** A state in which the archives have at most gained the new one. */
  lemma Growing(s: Store, c: Claim)
    requires Extends(c.start.archives, s.archives) && s.archives.Keys <= c.start.archives.Keys + {c.e.name}
    requires c.e.name !in c.start.archives && (c.e.name in s.archives ==> s.archives[c.e.name].finished <= c.e.finished)
    requires s.rows == c.start.rows && s.stamp == c.start.stamp
    requires c.covered ==> Covered(c.start.(tree := s.tree))
    ensures Meets(s, c)
  {
    hide Covered;
    if c.covered { CoveredGrows(c.start.(tree := s.tree), s); }
  }

  // ----- runs -----

  /** What happens to a site up to time `end`: it writes, or a backup runs, which may be
      killed after its k-th durable state (`crash == Some(k)`). */
  datatype Step = Quiet(ws: seq<SiteWrite>, end: int) | Run(e: BackupEnv, crash: Option<nat>, end: int)

  function Start(steps: seq<Step>, i: nat, clock: int): int
    requires i <= |steps|
  {
    if i == 0 then clock else steps[i - 1].end
  }

  /** One step on a clock that moves on between the cutoff, what the site then writes, and the finished archive. */
  ghost predicate Possible(step: Step, clock: int) {
    match step
    case Quiet(ws, end) => Since(ws, clock) && clock <= end
    case Run(e, _, end) => clock <= e.cutoff < e.finished <= end && Since(e.ws, e.cutoff) && e.scan <= |e.ws|
  }

  /** The archive names that the steps from the i-th on will reserve are new. */
  ghost predicate NewNames(s: Store, steps: seq<Step>, i: nat) {
    && (forall j :: i <= j < |steps| && steps[j].Run? ==> steps[j].e.name !in s.archives && steps[j].e.name !in s.rows)
    && (forall j, k :: i <= j < k < |steps| && steps[j].Run? && steps[k].Run? ==> steps[j].e.name != steps[k].e.name)
  }

  ghost predicate Settled(s: Store, clock: int) {
    (s.stamp.Some? ==> s.stamp.value <= clock) && forall n :: n in s.archives ==> s.archives[n].finished <= clock
  }

  lemma RunTimely(s: Store, steps: seq<Step>, i: nat, clock: int)
    requires i < |steps| && steps[i].Run? && Settled(s, clock) && Possible(steps[i], clock) && NewNames(s, steps, i)
    ensures Timely(s, steps[i].e)
  {
  }

  lemma QuietStep(s: Store, steps: seq<Step>, i: nat, clock: int)
    requires i < |steps| && steps[i].Quiet? && Settled(s, clock) && Possible(steps[i], clock) && NewNames(s, steps, i)
    requires Covered(s)
    ensures var after := s.(tree := Applied(s.tree, steps[i].ws, |steps[i].ws|));
      Covered(after) && Settled(after, steps[i].end) && NewNames(after, steps, i + 1)
  {
    hide Covered;
    CoveredAfterWrites(s, steps[i].ws);
  }

  /** A state of a run leaves the names of the later runs new, and the clock ahead. */
  lemma MeetsSettled(s: Store, c: Claim, steps: seq<Step>, i: nat, clock: int)
    requires i < |steps| && steps[i].Run? && c.e == steps[i].e && Meets(s, c)
    requires Settled(c.start, clock) && Possible(steps[i], clock) && NewNames(c.start, steps, i)
    ensures Settled(s, steps[i].end) && NewNames(s, steps, i + 1) && (c.covered ==> Covered(s))
  {
    hide Covered;
  }

  class FileBackups {
    var tree: Tree
    var archives: map<string, Archive>
    var rows: seq<string>
    var stamp: Option<int>
    var trail: seq<Store>

    ghost function Now(): Store
      reads this
    {
      Store(tree, archives, rows, stamp)
    }

    constructor (start: Store)
      ensures Now() == start && trail == []
    {
      tree, archives, rows, stamp, trail := start.tree, start.archives, start.rows, start.stamp, [];
    }

    /** Every state since those in t meets the claim. */
    ghost predicate Kept(t: seq<Store>, c: Claim)
      reads this
    {
      t <= trail && (forall i :: |t| <= i < |trail| ==> Meets(trail[i], c)) && Meets(Now(), c)
    }

    method Note()
      modifies this`trail
      ensures trail == old(trail) + [Now()]
    {
      trail := trail + [Store(tree, archives, rows, stamp)];
    }

    /** Set one archive file. */
    method Put(n: string, a: Archive, ghost t: seq<Store>, ghost c: Claim)
      modifies this`archives, this`trail
      ensures archives == old(archives)[n := a] && trail == old(trail) + [Now()]
      ensures old(Kept(t, c)) && Meets(Now(), c) ==> Kept(t, c)
    {
      archives := archives[n := a];
      Note();
    }

    /** os.Remove on an archive file. */
    method Remove(n: string, ok: bool, ghost t: seq<Store>, ghost c: Claim)
      modifies this`archives, this`trail
      ensures archives == if ok then old(archives) - {n} else old(archives)
      ensures trail == old(trail) + [Now()]
      ensures old(Kept(t, c)) && Meets(Now(), c) ==> Kept(t, c)
    {
      if ok { archives := archives - {n}; }
      Note();
    }

    /** The site goes on writing. */
    method Serve(ws: seq<SiteWrite>, ghost t: seq<Store>, ghost c: Claim)
      modifies this`tree, this`trail
      ensures tree == Applied(old(tree), ws, |ws|) && trail == old(trail) + [Now()]
      ensures old(Kept(t, c)) && Meets(Now(), c) ==> Kept(t, c)
    {
      tree := Applied(tree, ws, |ws|);
      Note();
    }

    /** Give up the reserved name. */
    method Discard(n: string, ok: bool, ghost t: seq<Store>, ghost c: Claim)
      requires n == c.e.name && n !in c.start.archives && Extends(c.start.archives, archives)
      requires archives.Keys <= c.start.archives.Keys + {n} && (n in archives ==> archives[n].finished <= c.e.finished)
      requires rows == c.start.rows && stamp == c.start.stamp
      requires Kept(t, c) && (c.covered ==> Covered(c.start.(tree := tree)))
      modifies this`archives, this`trail
      ensures Extends(c.start.archives, archives) && archives.Keys <= old(archives.Keys)
      ensures (n in archives ==> archives[n] == old(archives)[n])
      ensures Kept(t, c)
    {
      hide Covered, Meets, FileBackups.Kept;
      Remove(n, ok, t, c);
      Growing(Now(), c);
    }

    /** Reserve a name, build the archive while the site keeps writing, and verify it. */
    method MakeArchive(e: BackupEnv, full: bool) returns (made: Made)
      requires Timely(Now(), e) && (full || stamp.Some?)
      modifies this`archives, this`tree, this`trail
      ensures Kept(old(trail), Claim(old(Now()), e, Covered(old(Now()))))
      ensures tree == if e.reserveOk then Applied(old(tree), e.ws, |e.ws|) else old(tree)
      ensures Extends(old(archives), archives) && archives.Keys <= old(archives.Keys) + {e.name}
      ensures made == Broken <==> !Archivable(old(Now()), e, full)
      ensures made == Nothing <==> Archivable(old(Now()), e, full) && NothingNew(old(Now()), e, full)
      ensures made == Archived ==>
          e.name in archives && archives[e.name].full == full && archives[e.name].finished == e.finished
      ensures made == Archived && full ==> archives[e.name].contents == FullContents(old(tree), e.ws, e.reading)
      ensures (made != Broken ==> tree == Applied(old(tree), e.ws, |e.ws|))
      ensures made != Broken && !full ==> AllReadable(old(tree), e.ws, e.scan, e.reading, stamp.value)
      ensures made == Nothing ==> IncrementalContents(old(tree), e.ws, e.scan, e.reading, stamp.value) == map[]
      ensures made == Archived && !full ==>
        archives[e.name].contents == IncrementalContents(old(tree), e.ws, e.scan, e.reading, stamp.value)
      ensures e.name in archives ==> archives[e.name].finished <= e.finished
    {
      hide Covered, Meets, FullContents, IncrementalContents, Newer, Applied, AllReadable;
      ghost var t, c := trail, Claim(Now(), e, Covered(Now()));
      Growing(Now(), c);
      assert Kept(t, c);
      hide FileBackups.Kept;
      if !e.reserveOk { return Broken; }
      Put(e.name, Archive(full, e.cutoff, map[]), t, c);
      Growing(Now(), c);
      var seen := tree;
      Serve(e.ws, t, c);
      if c.covered { CoveredAfterWrites(c.start, e.ws); }
      Growing(Now(), c);
      var contents: Tree;
      if full {
        if !e.archiveOk {
          Discard(e.name, e.removeOk, t, c);
          return Broken;
        }
        contents := FullContents(seen, e.ws, e.reading);
      } else {
        if !e.uploadsExist || !e.scanOk {
          Discard(e.name, e.removeOk, t, c);
          return Broken;
        }
        if Newer(seen, e.ws, e.scan, stamp.value) == {} {
          NothingNewer(seen, e.ws, e.scan, e.reading, stamp.value);
          Discard(e.name, e.removeOk, t, c);
          return Nothing;
        }
        if !e.archiveOk || !AllReadable(seen, e.ws, e.scan, e.reading, stamp.value) {
          Discard(e.name, e.removeOk, t, c);
          return Broken;
        }
        contents := IncrementalContents(seen, e.ws, e.scan, e.reading, stamp.value);
      }
      Put(e.name, Archive(full, e.finished, contents), t, c);
      Growing(Now(), c);
      if !e.verifyOk {
        Discard(e.name, e.removeOk, t, c);
        return Broken;
      }
      made := Archived;
    }

    /** `cleanupSupersededFileBackupChainWithContext`: of the frozen list, remove what can be
        removed, remote copy first, then the archive, then its row. */
    method CleanChain(chain: seq<string>, clean: CleanEnv, ghost t: seq<Store>, ghost c: Claim) returns (aborted: bool)
      requires c.e.name !in chain && c.e.name in archives && stamp.Some?
      requires Complete(tree, archives[c.e.name], stamp.value) && Kept(t, c)
      modifies this`archives, this`rows, this`trail
      ensures Kept(t, c) && (aborted <==> clean.cancelAt < |chain|)
      ensures Cleaned(old(Now()), Now(), Reached(chain, clean), clean)
      ensures c.e.name in archives
    {
      hide Complete, Covered, Meets, Cleaned;
      ghost var n := c.e.name;
      CleanedNothing(Now(), clean);
      for i := 0 to |chain|
        invariant Kept(t, c) && n in archives && archives[n] == old(archives)[n] && i <= clean.cancelAt
        invariant Cleaned(old(Now()), Now(), chain[..i], clean)
      {
        if i >= clean.cancelAt { return true; }
        var m := chain[i];
        CleanedOne(old(Now()), Now(), chain, i, clean);
        if m in clean.remoteFails || m in clean.localFails { continue; }
        ghost var before := Now();
        Remove(m, true, t, c);
        Shrinking(before, Now(), c);
        if m !in clean.rowFails {
          rows := Without(rows, m);
          Shrinking(before, Now(), c);
          Note();
        }
      }
      assert chain[..|chain|] == chain;
      aborted := false;
    }

    /** `cleanOldBackups`: remove the oldest full archives beyond `keep`; incremental ones stay. */
    method CleanOld(keep: nat, clean: CleanEnv, ghost t: seq<Store>, ghost c: Claim)
      requires keep >= 1
      requires c.e.name in archives && stamp.Some? && Complete(tree, archives[c.e.name], stamp.value) && Kept(t, c)
      requires archives[c.e.name].full
      requires forall m :: m in archives && m != c.e.name ==> archives[m].finished < archives[c.e.name].finished
      modifies this`archives, this`rows, this`trail
      ensures Kept(t, c) && c.e.name in archives && (c.e.name in old(rows) ==> c.e.name in rows)
      ensures clean.listOk ==> exists order :: Rotated(old(Now()), Now(), order, keep, clean)
      ensures !clean.listOk ==> archives == old(archives) && rows == old(rows)
    {
      if !clean.listOk { return; }
      ghost var was := Now();
      var order := ByAge();
      NewestIsLast(archives, order, c.e.name);
      var excess := Excess(order, keep);
      var _ := CleanChain(excess, clean.(remoteFails := {}, cancelAt := |excess|), t, c);
      assert Rotated(was, Now(), order, keep, clean);
    }

    /** The full archives, oldest first. */
    method ByAge() returns (order: seq<string>)
      ensures Aged(archives, order)
    {
      order := [];
      var todo := set m | m in archives && archives[m].full;
      while todo != {}
        invariant todo <= archives.Keys && forall m :: m in archives && archives[m].full <==> m in todo || m in order
        invariant forall m :: m in order ==> m in archives && m !in todo
        invariant forall i, j ::
            0 <= i < j < |order| ==> order[i] != order[j] && archives[order[i]].finished <= archives[order[j]].finished
        invariant forall m, q :: m in order && q in todo ==> archives[m].finished <= archives[q].finished
        decreases |todo|
      {
        var m := TakeOldest(todo);
        order, todo := order + [m], todo - {m};
      }
    }

    method TakeOldest(names: set<string>) returns (n: string)
      requires names != {} && names <= archives.Keys
      ensures Oldest(archives, names, n)
    {
      OldestExists(archives, names);
      n :| n in names && forall m :: m in names ==> archives[n].finished <= archives[m].finished;
    }

    /** Remove what a new full archive n supersedes. */
    method Supersede(e: BackupEnv, chain: seq<string>, ghost t: seq<Store>, ghost c: Claim) returns (aborted: bool)
      requires c.e == e && e.name !in chain && e.name in archives && stamp.Some?
      requires Complete(tree, archives[e.name], stamp.value) && Kept(t, c)
      requires archives[e.name].full
      requires forall m :: m in archives && m != e.name ==> archives[m].finished < archives[e.name].finished
      modifies this`archives, this`rows, this`trail
      ensures Kept(t, c) && e.name in archives && (e.name in old(rows) ==> e.name in rows)
      ensures Superseded(old(Now()), Now(), e, chain)
      ensures aborted <==> e.remote && e.clean.cancelAt < |chain|
    {
      aborted := false;
      if e.remote {
        aborted := CleanChain(chain, e.clean, t, c);
      } else {
        CleanOld(if e.keep <= 0 then 3 else e.keep, e.clean, t, c);
      }
    }

    /** `writeBackupStamp`: the stamp moves in one rename. */
    method SetStamp(e: BackupEnv, ghost t: seq<Store>, ghost c: Claim) returns (ok: bool)
      requires c.e == e && Kept(t, c) && (c.covered ==> Covered(Now().(stamp := Some(e.cutoff))))
      modifies this`stamp, this`trail
      ensures ok == e.stampOk && stamp == if ok then Some(e.cutoff) else old(stamp)
      ensures Kept(t, c)
    {
      if !e.stampOk { return false; }
      stamp := Some(e.cutoff);
      Note();
      ok := true;
    }

    /** Record the archive, sync it and advance the stamp. */
    method Publish(e: BackupEnv, ghost t: seq<Store>, ghost c: Claim) returns (ok: bool)
      requires c.e == e && e.name in archives && Kept(t, c)
      requires c.covered ==> Covered(Now().(stamp := Some(e.cutoff)))
      modifies this`rows, this`stamp, this`trail
      ensures stamp == if ok then Some(e.cutoff) else old(stamp)
      ensures rows == if e.cancelled || e.recorded == Lost then old(rows) else old(rows) + [e.name]
      ensures ok <==> Publishable(e)
      ensures Kept(t, c)
    {
      if e.cancelled { return false; }
      if e.recorded != Lost {
        rows := rows + [e.name];
        Note();
      }
      if e.recorded != Acked || e.cancelledLate || (e.remote && !e.syncOk) { return false; }
      if c.covered { CoveredRows(Now().(stamp := Some(e.cutoff)), old(rows)); }
      ok := SetStamp(e, t, c);
    }

    /** From a verified archive to the end of the run. */
    method Conclude(e: BackupEnv, full: bool, chain: seq<string>, ghost t: seq<Store>, ghost c: Claim)
      returns (r: Result)
      requires c.e == e && Kept(t, c) && (c.covered ==> Covered(Now().(stamp := Some(e.cutoff))))
      requires e.name in archives && archives[e.name].full == full && e.name !in chain
      requires full ==> Complete(tree, archives[e.name], e.cutoff)
      requires full ==> forall m :: m in archives && m != e.name ==> archives[m].finished < archives[e.name].finished
      modifies this`archives, this`rows, this`stamp, this`trail
      ensures Kept(t, c) && e.name in archives && archives[e.name] == old(archives)[e.name]
      ensures r == if !Publishable(e) then Failed
        else if full && e.remote && e.clean.cancelAt < |chain| then CleanupAborted else Completed
      ensures stamp == if r == Failed then old(stamp) else Some(e.cutoff)
      ensures r != Failed ==> e.name in rows && Outcome(old(Now()), Now(), e, full, chain)
      ensures r == Failed ==> archives == old(archives)
    {
      hide Covered, Complete, Meets, FileBackups.Kept;
      var ok := Publish(e, t, c);
      if !ok { return Failed; }
      var aborted := false;
      if full {
        aborted := Supersede(e, chain, t, c);
      }
      r := if aborted then CleanupAborted else Completed;
    }

    /** A run whose kind is decided: archive, publish, supersede. */
    method CarryOut(e: BackupEnv, full: bool, chain: seq<string>) returns (r: Result)
      requires Timely(Now(), e) && (full || stamp.Some?) && e.name !in chain
      modifies this
      ensures Kept(old(trail), Claim(old(Now()), e, Covered(old(Now()))))
      ensures r == if !Archivable(old(Now()), e, full) then Failed
        else if NothingNew(old(Now()), e, full) then (if e.stampOk then Skipped else Failed)
        else if !Publishable(e) then Failed
        else if full && e.remote && e.clean.cancelAt < |chain| then CleanupAborted else Completed
      ensures r in {Completed, CleanupAborted} ==>
        && e.name in archives && archives[e.name].full == full && e.name in rows
        && (full ==> Complete(tree, archives[e.name], e.cutoff))
        && Outcome(old(Now()).(archives := old(archives)[e.name := archives[e.name]]), Now(), e, full, chain)
      ensures stamp == if r == Failed then old(stamp) else Some(e.cutoff)
      ensures r != Failed ==> tree == Applied(old(tree), e.ws, |e.ws|)
      ensures r in {Skipped, Failed} ==> Extends(old(archives), archives)
      ensures r == Skipped ==> rows == old(rows) && archives.Keys <= old(archives.Keys) + {e.name}
    {
      hide Covered, Complete, FullContents, IncrementalContents, AllReadable, Applied, Meets, Newer, Outcome,
          Archivable, Publishable;
      ghost var before, t := Now(), trail;
      ghost var c := Claim(before, e, Covered(before));
      hide FileBackups.Kept;
      var made := MakeArchive(e, full);
      if made == Broken { return Failed; }
      if full {
        FullCovers(before.tree, e.ws, e.reading, e.cutoff, archives, e.name, rows);
      } else if Covered(before) {
        IncrementalCovers(before, e.ws, e.scan, e.reading, e.cutoff, archives);
      }
      if made == Nothing {
        var ok := SetStamp(e, t, c);
        return (if ok then Skipped else Failed);
      }
      ghost var mid := Now();
      r := Conclude(e, full, chain, t, c);
      if r != Failed { OutcomeOf(before, mid, Now(), e, full, chain); }
    }

    /** `executeFileBackupContext`. */
    method Backup(e: BackupEnv) returns (r: Result)
      requires Timely(Now(), e)
      modifies this
      ensures Kept(old(trail), Claim(old(Now()), e, Covered(old(Now()))))
      ensures r != Failed <==> Succeeds(old(Now()), e)
      ensures r == Skipped <==> Succeeds(old(Now()), e) && NothingNew(old(Now()), e, IsFull(old(Now()), e))
      ensures r == CleanupAborted ==>
        IsFull(old(Now()), e) && e.remote && e.clean.cancelAt < |Only(old(rows), e.visible)|
      ensures r == Completed ==>
        IsFull(old(Now()), e) && e.remote ==> e.clean.cancelAt >= |Only(old(rows), e.visible)|
      ensures r in {Completed, CleanupAborted} ==>
        && e.name in archives && e.name in rows
        && (archives[e.name].full <==> IsFull(old(Now()), e))
        && (archives[e.name].full ==> Complete(tree, archives[e.name], e.cutoff))
        && Outcome(old(Now()).(archives := old(archives)[e.name := archives[e.name]]), Now(), e, archives[e.name].full,
          Only(old(rows), e.visible))
      ensures stamp == if r == Failed then old(stamp) else Some(e.cutoff)
      ensures r != Failed ==> tree == Applied(old(tree), e.ws, |e.ws|)
      ensures r in {Skipped, Failed} ==> Extends(old(archives), archives)
      ensures r == Skipped ==> rows == old(rows) && archives.Keys <= old(archives.Keys) + {e.name}
    {
      hide Covered, Complete, Applied, Meets, Newer;
      r := Failed;
      Growing(Now(), Claim(Now(), e, Covered(Now())));
      assert Kept(trail, Claim(Now(), e, Covered(Now())));
      hide FileBackups.Kept;
      if !e.ready { return; }
      var full := e.full || stamp == None;
      if !full && e.remote {
        if e.probe == Unconfirmed { return; }
        full := e.probe == NoBaseline;
      }
      r := CarryOut(e, full, if full then Only(rows, e.visible) else []);
    }

    /** The process dies at the k-th state of the trail. */
    method Crash(k: nat)
      requires k < |trail|
      modifies this
      ensures Now() == old(trail)[k]
    {
      tree, archives, rows, stamp := trail[k].tree, trail[k].archives, trail[k].rows, trail[k].stamp;
    }

    /** Over any sequence of site writes and backups, with failures of any step and crashes
        at any state, every wanted file last written at or before the stamp stays held. */
    method Live(steps: seq<Step>, clock: int)
      requires Covered(Now()) && Settled(Now(), clock) && NewNames(Now(), steps, 0)
      requires forall i :: 0 <= i < |steps| ==> Possible(steps[i], Start(steps, i, clock))
      modifies this
      ensures Covered(Now())
    {
      hide Covered, Meets, Settled, NewNames, Possible;
      for i := 0 to |steps|
        invariant Covered(Now()) && Settled(Now(), Start(steps, i, clock)) && NewNames(Now(), steps, i)
      {
        ghost var from := Start(steps, i, clock);
        match steps[i] {
          case Quiet(ws, end) =>
            QuietStep(Now(), steps, i, from);
            tree := Applied(tree, ws, |ws|);
          case Run(e, crash, end) =>
            RunTimely(Now(), steps, i, from);
            ghost var t, c := trail, Claim(Now(), e, true);
            var k := |trail|;
            var _ := Backup(e);
            AnyState(t, c);
            var at := if crash.Some? then k + crash.value else |trail|;
            if at < |trail| { Crash(at); }
            MeetsSettled(Now(), c, steps, i, from);
        }
      }
    }

    lemma AnyState(t: seq<Store>, c: Claim)
      requires Kept(t, c)
      ensures |t| <= |trail| && Meets(Now(), c) && forall i :: |t| <= i < |trail| ==> Meets(trail[i], c)
    {
    }
  }
}
