/** The two ways the scanner computes a report, and why they give the same one. */
module IntegrityReport {
  import opened Common
  import opened Paths
  import opened Permutations
  import opened IntegrityCompare

  // ----- sorting -----

  function Rank(e: Event): int {
    match e case Added => 0 case Deleted => 1 case LinkChanged => 2 case Modified => 3
  }

  /** The order reports are sorted by: plain path strings, then the name of the event. */
  predicate Earlier(x: Difference, y: Difference) {
    if x.path == y.path then Rank(x.event) < Rank(y.event) else StrLess(x.path, y.path)
  }

  ghost predicate InReportOrder(ds: seq<Difference>) {
    forall i, j :: 0 <= i < j < |ds| ==> !Earlier(ds[j], ds[i])
  }

  ghost predicate DistinctPaths(ds: seq<Difference>) {
    forall i, j :: 0 <= i < j < |ds| ==> ds[i].path != ds[j].path
  }

  ghost predicate SameElements(xs: seq<Difference>, ys: seq<Difference>) {
    forall d :: d in xs <==> d in ys
  }

  lemma EarlierTransitive(x: Difference, y: Difference, z: Difference)
    requires !Earlier(y, x) && !Earlier(z, y)
    ensures !Earlier(z, x)
  {
    StrLessTotal(x.path, y.path);
    StrLessTotal(y.path, z.path);
    StrLessTotal(x.path, z.path);
    if StrLess(x.path, y.path) && StrLess(y.path, z.path) { StrLessTransitive(x.path, y.path, z.path); }
  }

  lemma EarlierAsymmetric(x: Difference, y: Difference)
    requires Earlier(x, y)
    ensures !Earlier(y, x)
  {
    StrLessTotal(x.path, y.path);
  }

  /** Insert into a sorted list, after everything that is not later. */
  method InsertDifference(ds: seq<Difference>, d: Difference) returns (out: seq<Difference>)
    requires InReportOrder(ds)
    ensures InReportOrder(out) && multiset(out) == multiset(ds) + multiset{d}
  {
    hide Earlier;
    var k := |ds|;
    while k > 0 && Earlier(d, ds[k - 1])
      invariant 0 <= k <= |ds|
      invariant forall i :: k <= i < |ds| ==> Earlier(d, ds[i])
    {
      k := k - 1;
    }
    forall i | 0 <= i < k ensures !Earlier(d, ds[i]) {
      if i < k - 1 { EarlierTransitive(ds[i], ds[k - 1], d); }
    }
    forall i | k <= i < |ds| ensures !Earlier(ds[i], d) { EarlierAsymmetric(d, ds[i]); }
    assert ds == ds[..k] + ds[k..];
    out := ds[..k] + [d] + ds[k..];
  }

  method SortDifferences(ds: seq<Difference>) returns (out: seq<Difference>)
    ensures InReportOrder(out) && multiset(out) == multiset(ds)
  {
    hide InReportOrder;
    out := [];
    NothingSorted();
    for n := 0 to |ds|
      invariant InReportOrder(out) && multiset(out) == multiset(ds[..n])
    {
      out := InsertDifference(out, ds[n]);
      assert ds[..n + 1] == ds[..n] + [ds[n]];
    }
    assert ds[..|ds|] == ds;
  }

  lemma NothingSorted()
    ensures InReportOrder([])
  {
  }

  /** A report is determined by what it contains. */
  lemma {:induction false} ReportUnique(xs: seq<Difference>, ys: seq<Difference>)
    requires InReportOrder(xs) && InReportOrder(ys) && DistinctPaths(xs) && DistinctPaths(ys) && SameElements(xs, ys)
    ensures xs == ys
    decreases |xs|
  {
    if xs != [] { assert xs[0] in ys; }
    if ys != [] { assert ys[0] in xs; }
    if xs != [] {
      var i :| 0 <= i < |ys| && ys[i] == xs[0];
      var j :| 0 <= j < |xs| && xs[j] == ys[0];
      StrLessTotal(xs[0].path, ys[0].path);
      assert xs[0] == ys[0];
      forall d ensures d in xs[1..] <==> d in ys[1..] {
        assert d in xs <==> d == xs[0] || d in xs[1..];
        assert d in ys <==> d == ys[0] || d in ys[1..];
      }
      ReportUnique(xs[1..], ys[1..]);
    }
  }

  // ----- through maps -----

  function Get(m: map<string, Entry>, path: string): Option<Entry> {
    if path in m then Some(m[path]) else None
  }

  ghost predicate Keyed(m: map<string, Entry>) {
    forall p :: p in m ==> m[p].path == p
  }

  /** Exactly the differences between two maps, each path once, in report order. */
  ghost predicate Reports(ds: seq<Difference>, before: map<string, Entry>, after: map<string, Entry>)
    requires Keyed(before) && Keyed(after)
  {
    && InReportOrder(ds) && DistinctPaths(ds)
    && forall d :: d in ds <==> d in At(Get(before, d.path), Get(after, d.path))
  }

  /** `compareFileIntegrity`: visit both maps in any order, then sort. */
  method CompareMaps(before: map<string, Entry>, after: map<string, Entry>) returns (ds: seq<Difference>)
    requires Keyed(before) && Keyed(after)
    ensures Reports(ds, before, after)
  {
    ds := [];
    var todo := after.Keys;
    while todo != {}
      invariant todo <= after.Keys && DistinctPaths(ds)
      invariant forall d :: d in ds <==> d.path in after.Keys - todo && d in At(Get(before, d.path), Get(after, d.path))
      decreases todo
    {
      var path :| path in todo;
      if path !in before {
        ds := ds + [MakeDifference(Added, path, None, Some(after[path]))];
      } else if before[path] != after[path] && (before[path].kind == Symlink || after[path].kind == Symlink) {
        ds := ds + [MakeDifference(LinkChanged, path, Some(before[path]), Some(after[path]))];
      } else if before[path] != after[path] {
        ds := ds + [MakeDifference(Modified, path, Some(before[path]), Some(after[path]))];
      }
      todo := todo - {path};
    }
    todo := before.Keys;
    while todo != {}
      invariant todo <= before.Keys && DistinctPaths(ds)
      invariant forall d ::
          d in ds
          <==> (d.path in after || d.path in before.Keys - todo) && d in At(Get(before, d.path), Get(after, d.path))
      decreases todo
    {
      var path :| path in todo;
      if path !in after {
        ds := ds + [MakeDifference(Deleted, path, Some(before[path]), None)];
      }
      todo := todo - {path};
    }
    ghost var found := ds;
    ds := SortDifferences(ds);
    PermutedReport(found, ds);
  }

  lemma PermutedReport(xs: seq<Difference>, ys: seq<Difference>)
    requires multiset(xs) == multiset(ys) && DistinctPaths(xs)
    ensures SameElements(xs, ys) && DistinctPaths(ys)
  {
    forall d ensures d in xs <==> d in ys {
      assert d in multiset(xs) <==> d in multiset(ys);
    }
    forall i, j | 0 <= i < j < |ys| && ys[i].path == ys[j].path ensures false {
      assert ys[i] in xs && ys[j] in xs;
      if ys[i] == ys[j] {
        TwiceInMultiset(ys, i, j);
        Once(xs, ys[i]);
      }
    }
  }

  lemma {:induction false} Once(xs: seq<Difference>, d: Difference)
    requires DistinctPaths(xs)
    ensures multiset(xs)[d] <= 1
  {
    if xs != [] {
      var n := |xs| - 1;
      assert xs == xs[..n] + [xs[n]];
      Once(xs[..n], d);
      if d == xs[n] { assert d !in xs[..n]; }
    }
  }

  // ----- through the merge -----

  datatype Header = Missing | Malformed | Foreign | Matching

  datatype Line = Good(entry: Entry) | Bad

  datatype Manifest = Manifest(header: Header, lines: seq<Line>)

  datatype Comparison = Differences(ds: seq<Difference>) | HeaderError(header: Header) | EntryError

  predicate GoodTo(lines: seq<Line>, n: nat)
    requires n <= |lines|
  {
    forall i :: 0 <= i < n ==> lines[i].Good?
  }

  predicate AllGood(lines: seq<Line>) { GoodTo(lines, |lines|) }

  lemma GoodLine(lines: seq<Line>, i: nat)
    requires i < |lines| && GoodTo(lines, i + 1)
    ensures lines[i].Good?
  {
  }

  function Entries(lines: seq<Line>): (es: seq<Entry>)
    requires AllGood(lines)
    ensures |es| == |lines| && forall i :: 0 <= i < |lines| ==> es[i] == lines[i].entry
  {
    seq(|lines|, i requires 0 <= i < |lines| => lines[i].entry)
  }

  /** The manifest read into a map, later entries replacing earlier ones. */
  function ToMap(es: seq<Entry>): map<string, Entry> {
    if es == [] then map[] else ToMap(es[..|es| - 1])[es[|es| - 1].path := es[|es| - 1]]
  }

  lemma {:induction false} ToMapKeyed(es: seq<Entry>)
    ensures Keyed(ToMap(es))
  {
    if es != [] { ToMapKeyed(es[..|es| - 1]); }
  }

  lemma {:induction false} ToMapIndex(es: seq<Entry>, i: nat)
    requires Sorted(es) && i < |es|
    ensures Get(ToMap(es), es[i].path) == Some(es[i])
  {
    var n := |es| - 1;
    if i < n {
      ToMapIndex(es[..n], i);
      PathLessTotal(es[i].path, es[n].path);
    }
  }

  lemma {:induction false} ToMapMember(es: seq<Entry>, p: string)
    requires p in ToMap(es)
    ensures exists i :: 0 <= i < |es| && es[i].path == p
  {
    var n := |es| - 1;
    if es[n].path != p { ToMapMember(es[..n], p); }
  }

  lemma {:induction false} FindIndex(es: seq<Entry>, i: nat)
    requires Sorted(es) && i < |es|
    ensures Find(es, es[i].path) == Some(es[i])
  {
    if i > 0 {
      PathLessTotal(es[0].path, es[i].path);
      FindIndex(es[1..], i - 1);
    }
  }

  lemma MapFinds(es: seq<Entry>, p: string)
    requires Sorted(es)
    ensures Get(ToMap(es), p) == Find(es, p)
  {
    FindPath(es, p);
    if p in ToMap(es) {
      ToMapMember(es, p);
      var i :| 0 <= i < |es| && es[i].path == p;
      ToMapIndex(es, i);
      FindIndex(es, i);
    } else if Find(es, p).Some? {
      var i :| 0 <= i < |es| && es[i] == Find(es, p).value;
      ToMapIndex(es, i);
    }
  }

  lemma AscendingDistinct(ds: seq<Difference>)
    requires Ascending(ds)
    ensures DistinctPaths(ds)
  {
    forall i, j | 0 <= i < j < |ds| ensures ds[i].path != ds[j].path {
      PathLessTotal(ds[i].path, ds[j].path);
    }
  }

  /** Sorting the merge of two sorted manifests gives the report of their maps. */
  lemma MergeReports(before: seq<Entry>, after: seq<Entry>, ds: seq<Difference>)
    requires Sorted(before) && Sorted(after)
    requires InReportOrder(ds) && multiset(ds) == multiset(Merge(before, after))
    ensures Keyed(ToMap(before)) && Keyed(ToMap(after)) && Reports(ds, ToMap(before), ToMap(after))
  {
    ToMapKeyed(before);
    ToMapKeyed(after);
    MergeAscending(before, after, "");
    AscendingDistinct(Merge(before, after));
    PermutedReport(Merge(before, after), ds);
    forall d ensures d in ds <==> d in At(Get(ToMap(before), d.path), Get(ToMap(after), d.path)) {
      MergeExact(before, after, d);
      MapFinds(before, d.path);
      MapFinds(after, d.path);
    }
  }

  /** The streaming comparison and the comparison through maps return the same sequence. */
  lemma StreamingAgreesWithMaps(before: seq<Entry>, after: seq<Entry>, streamed: seq<Difference>,
      mapped: seq<Difference>)
    requires Sorted(before) && Sorted(after)
    requires InReportOrder(streamed) && multiset(streamed) == multiset(Merge(before, after))
    requires Keyed(ToMap(before)) && Keyed(ToMap(after)) && Reports(mapped, ToMap(before), ToMap(after))
    ensures streamed == mapped
  {
    MergeReports(before, after, streamed);
    ReportUnique(streamed, mapped);
  }

  lemma DashBeforeSlash()
    ensures StrLess("a-b", "a/b") && PathLess("a/b", "a-b")
  {
    hide Split;
    SplitPlain("a-b");
    SplitPlain("a");
    SplitAppend("a", "b");
    assert "a/b" == "a" + "/" + "b";
    PartingUnique(["a", "b"], ["a-b"], 0);
    PartingUnique("a", "a-b", 1);
    PartingUnique("a-b", "a/b", 1);
  }

  /** The order matters: two manifests in plain string order for which the merge
      reports an unchanged path both as added and as deleted. */
  lemma PlainOrderIsNotEnough(x: Entry, y: Entry)
    requires x.path == "a-b" && y.path == "a/b"
    ensures StrLess(x.path, y.path) && !Sorted([x, y])
    ensures MakeDifference(Added, y.path, None, Some(y)) in Merge([x, y], [y])
    ensures MakeDifference(Deleted, y.path, Some(y), None) in Merge([x, y], [y])
  {
    hide PathLess, StrLess;
    DashBeforeSlash();
    PathLessTotal(x.path, y.path);
    assert !PathLess([x, y][0].path, [x, y][1].path);
    var xy, ys := [x, y], [y];
    assert xy[1..] == ys && ys[1..] == [];
    assert Merge(xy, ys) == [MakeDifference(Added, y.path, None, Some(y))] + Merge(xy, []);
    assert Merge(xy, []) == [MakeDifference(Deleted, x.path, Some(x), None)] + Merge(ys, []);
    assert Merge(ys, []) == [MakeDifference(Deleted, y.path, Some(y), None)] + Merge([], []);
  }

  /** Decode line i, if there is one. */
  method Next(lines: seq<Line>, i: nat) returns (has: bool, bad: bool)
    requires i <= |lines| && GoodTo(lines, i)
    ensures bad ==> !AllGood(lines)
    ensures !bad ==> (has <==> i < |lines|) && (if has then GoodTo(lines, i + 1) else AllGood(lines))
  {
    has := i < |lines| && lines[i].Good?;
    bad := i < |lines| && lines[i].Bad?;
  }

  /** What is still to be reported when i and j lines have been consumed. */
  ghost function Remaining(xs: seq<Line>, ys: seq<Line>, i: nat, j: nat): seq<Difference>
    requires AllGood(xs) && AllGood(ys) && i <= |xs| && j <= |ys|
  {
    Merge(Entries(xs)[i..], Entries(ys)[j..])
  }

  lemma RemainingEnds(xs: seq<Line>, ys: seq<Line>)
    requires AllGood(xs) && AllGood(ys)
    ensures Remaining(xs, ys, |xs|, |ys|) == [] && Remaining(xs, ys, 0, 0) == Merge(Entries(xs), Entries(ys))
  {
    assert Entries(xs)[0..] == Entries(xs) && Entries(ys)[0..] == Entries(ys);
  }

  /** One turn of the merge loop. */
  lemma MergeTurn(xs: seq<Line>, ys: seq<Line>, i: nat, j: nat)
    requires AllGood(xs) && AllGood(ys) && i <= |xs| && j <= |ys| && (i < |xs| || j < |ys|)
    ensures Remaining(xs, ys, i, j) ==
      if i == |xs| || (j < |ys| && PathLess(ys[j].entry.path, xs[i].entry.path)) then
        [MakeDifference(Added, ys[j].entry.path, None, Some(ys[j].entry))] + Remaining(xs, ys, i, j + 1)
      else if j == |ys| || PathLess(xs[i].entry.path, ys[j].entry.path) then
        [MakeDifference(Deleted, xs[i].entry.path, Some(xs[i].entry), None)] + Remaining(xs, ys, i + 1, j)
      else Change(xs[i].entry, ys[j].entry) + Remaining(xs, ys, i + 1, j + 1)
  {
    hide PathLess;
    if i < |xs| { assert Entries(xs)[i..][1..] == Entries(xs)[i + 1..]; }
    if j < |ys| { assert Entries(ys)[j..][1..] == Entries(ys)[j + 1..]; }
  }

  /** The cursors of the merge: how many lines are consumed, and whether the next one is decoded. */
  ghost predicate Cursor(lines: seq<Line>, i: nat, has: bool) {
    i <= |lines| && (has <==> i < |lines|) && if has then GoodTo(lines, i + 1) else AllGood(lines)
  }

  /** One turn: what is reported, and where the cursors then stand. */
  method Turn(xs: seq<Line>, ys: seq<Line>, i: nat, j: nat, hasX: bool, hasY: bool)
    returns (step: seq<Difference>, k: nat, l: nat, moreX: bool, moreY: bool, bad: bool)
    requires Cursor(xs, i, hasX) && Cursor(ys, j, hasY) && (hasX || hasY)
    ensures bad ==> !(AllGood(xs) && AllGood(ys))
    ensures !bad ==> Cursor(xs, k, moreX) && Cursor(ys, l, moreY) && k >= i && l >= j && k + l > i + j
    ensures !bad && AllGood(xs) && AllGood(ys) ==> Remaining(xs, ys, i, j) == step + Remaining(xs, ys, k, l)
  {
    hide Merge, PathLess, Change, MakeDifference, Entries, Remaining, AllGood, GoodTo;
    if hasX { GoodLine(xs, i); }
    if hasY { GoodLine(ys, j); }
    if AllGood(xs) && AllGood(ys) { MergeTurn(xs, ys, i, j); }
    k, l, moreX, moreY, bad := i, j, hasX, hasY, false;
    if !hasX || (hasY && PathLess(ys[j].entry.path, xs[i].entry.path)) {
      step := [MakeDifference(Added, ys[j].entry.path, None, Some(ys[j].entry))];
      l := j + 1;
      moreY, bad := Next(ys, l);
    } else if !hasY || PathLess(xs[i].entry.path, ys[j].entry.path) {
      step := [MakeDifference(Deleted, xs[i].entry.path, Some(xs[i].entry), None)];
      k := i + 1;
      moreX, bad := Next(xs, k);
    } else {
      step := Change(xs[i].entry, ys[j].entry);
      k, l := i + 1, j + 1;
      moreX, bad := Next(xs, k);
      if !bad { moreY, bad := Next(ys, l); }
    }
  }

  /** The merge loop: read both files line by line, once. */
  method MergeLines(xs: seq<Line>, ys: seq<Line>) returns (ok: bool, ds: seq<Difference>)
    ensures ok <==> AllGood(xs) && AllGood(ys)
    ensures ok ==> ds == Merge(Entries(xs), Entries(ys))
  {
    ghost var clean := AllGood(xs) && AllGood(ys);
    if clean { RemainingEnds(xs, ys); }
    ghost var whole := if clean then Remaining(xs, ys, 0, 0) else [];
    hide Merge, Entries, Remaining;
    var i, j := 0, 0;
    ds := [];
    var hasX, bad := Next(xs, i);
    if bad { return false, ds; }
    var hasY;
    hasY, bad := Next(ys, j);
    if bad { return false, ds; }
    hide AllGood, GoodTo;
    while hasX || hasY
      invariant Cursor(xs, i, hasX) && Cursor(ys, j, hasY)
      invariant clean ==> ds + Remaining(xs, ys, i, j) == whole
      decreases |xs| - i + |ys| - j
    {
      var step;
      ghost var before := ds;
      step, i, j, hasX, hasY, bad := Turn(xs, ys, i, j, hasX, hasY);
      if bad { return false, ds; }
      ds := ds + step;
      if clean { Reassociate(before, step, Remaining(xs, ys, i, j)); }
    }
    ok := true;
    assert ds + [] == ds;
  }

  /** `compareFileIntegrityManifestFiles`. */
  method CompareManifests(before: Manifest, after: Manifest) returns (c: Comparison)
    ensures before.header != Matching ==> c == HeaderError(before.header)
    ensures before.header == Matching && after.header != Matching ==> c == HeaderError(after.header)
    ensures before.header == after.header == Matching ==>
      if AllGood(before.lines) && AllGood(after.lines) then
        && c.Differences? && InReportOrder(c.ds)
        && multiset(c.ds) == multiset(Merge(Entries(before.lines), Entries(after.lines)))
      else c == EntryError
  {
    if before.header != Matching { return HeaderError(before.header); }
    if after.header != Matching { return HeaderError(after.header); }
    var ok, ds := MergeLines(before.lines, after.lines);
    if !ok { return EntryError; }
    ds := SortDifferences(ds);
    c := Differences(ds);
  }
}
