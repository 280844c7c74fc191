/** The bounded walk as it runs, and a whole scan: two walks and their comparison. */
module IntegrityScan {
  import opened Common
  import opened Paths
  import opened IntegrityCompare
  import opened IntegrityReport
  import opened IntegrityWalk

  const MAX_ENTRIES := 250000
  const MAX_BYTES := 20 * 1024 * 1024 * 1024

  function Bytes(es: seq<Entry>): int {
    if es == [] then 0 else Bytes(es[..|es| - 1]) + es[|es| - 1].size
  }

  lemma {:induction false} BytesAppend(xs: seq<Entry>, ys: seq<Entry>)
    ensures Bytes(xs + ys) == Bytes(xs) + Bytes(ys)
  {
    if ys == [] {
      assert xs + ys == xs;
    } else {
      var n := |ys| - 1;
      assert (xs + ys)[..|xs + ys| - 1] == xs + ys[..n];
      BytesAppend(xs, ys[..n]);
    }
  }

  /** The three parts of a step of the walk: the first child, what is below it, its later siblings. */
  function Self(prefix: seq<string>, c: Child): seq<Entry> {
    var parts := prefix + [c.name];
    if InScope(parts, c.node.Folder?) then [EntryOf(parts, c.node)] else []
  }

  function Inner(prefix: seq<string>, c: Child): seq<Entry> {
    var parts := prefix + [c.name];
    if c.node.Folder? && Scope(parts, true).1 then PrunedWalk(parts, c.node.children) else []
  }

  /** Whether the walk goes into a child, and whether it reads anything of it. */
  predicate Entered(prefix: seq<string>, c: Child) { c.node.Folder? && Scope(prefix + [c.name], true).1 }

  predicate Reads(prefix: seq<string>, c: Child) {
    InScope(prefix + [c.name], c.node.Folder?) && (c.node.Leaf? || Entered(prefix, c))
  }

  /** Everything the walk reads can be read; `bad`: the paths that cannot. */
  predicate AllRead(prefix: seq<string>, cs: seq<Child>, bad: set<string>)
    decreases cs
  {
    cs == [] || (
      && (Reads(prefix, cs[0]) ==> Join(prefix + [cs[0].name]) !in bad)
      && (Entered(prefix, cs[0]) ==> AllRead(prefix + [cs[0].name], cs[0].node.children, bad))
      && AllRead(prefix, cs[1..], bad))
  }

  predicate ChildRead(prefix: seq<string>, c: Child, bad: set<string>) {
    && (Reads(prefix, c) ==> Join(prefix + [c.name]) !in bad)
    && (Entered(prefix, c) ==> AllRead(prefix + [c.name], c.node.children, bad))
  }

  /** How many files and directories the walk looks at. */
  function Visits(prefix: seq<string>, cs: seq<Child>): nat
    decreases cs
  {
    if cs == [] then 0
    else
      var inner := if Entered(prefix, cs[0]) then Visits(prefix + [cs[0].name], cs[0].node.children) else 0;
      1 + inner + Visits(prefix, cs[1..])
  }

  function VisitsOf(prefix: seq<string>, c: Child): nat {
    1 + if Entered(prefix, c) then Visits(prefix + [c.name], c.node.children) else 0
  }

  lemma {:induction false} StepParts(prefix: seq<string>, cs: seq<Child>)
    requires cs != []
    ensures PrunedWalk(prefix, cs) == Self(prefix, cs[0]) + Inner(prefix, cs[0]) + PrunedWalk(prefix, cs[1..])
    ensures Bytes(PrunedWalk(prefix, cs)) ==
        Bytes(Self(prefix, cs[0])) + Bytes(Inner(prefix, cs[0])) + Bytes(PrunedWalk(prefix, cs[1..]))
    ensures Bytes(Self(prefix, cs[0])) == if Self(prefix, cs[0]) == [] then 0 else Self(prefix, cs[0])[0].size
    ensures Bytes(Inner(prefix, cs[0])) >= 0 && Bytes(PrunedWalk(prefix, cs[1..])) >= 0
    decreases cs
  {
    hide Scope, EntryOf;
    BytesAppend(Self(prefix, cs[0]) + Inner(prefix, cs[0]), PrunedWalk(prefix, cs[1..]));
    BytesAppend(Self(prefix, cs[0]), Inner(prefix, cs[0]));
    if cs[0].node.Folder? && cs[0].node.children != [] { StepParts(prefix + [cs[0].name], cs[0].node.children); }
    if cs[1..] != [] { StepParts(prefix, cs[1..]); }
  }

  /** What the walk lists of one child. */
  function Of(prefix: seq<string>, c: Child): seq<Entry> { Self(prefix, c) + Inner(prefix, c) }

  /** One walk; `bad`: the paths that cannot be read; `patience`: after how many visits it is
      cancelled or out of time; `lines`: how many lines the manifest takes. */
  class Walker {
    const bad: set<string>
    const patience: nat
    const lines: nat
    var emitted: seq<Entry>
    var count: nat
    var total: int
    var visited: nat

    ghost predicate Within()
      reads this
    {
      && count == |emitted| <= MAX_ENTRIES && |emitted| <= lines && total == Bytes(emitted) <= MAX_BYTES
      && visited <= patience
    }

    /** So many more entries, bytes and visits fit the limits. */
    ghost predicate Fits(entries: nat, bytes: int, visits: nat)
      reads this
    {
      && count + entries <= MAX_ENTRIES && count + entries <= lines && total + bytes <= MAX_BYTES
      && visited + visits <= patience
    }

    /** The walk moved on by what it lists and so many visits. */
    twostate predicate Moved(listed: seq<Entry>, bytes: int, visits: nat)
      reads this
    {
      && Within() && emitted == old(emitted) + listed
      && count == old(count) + |listed| && total == old(total) + bytes && visited == old(visited) + visits
    }

    constructor (bad: set<string>, patience: nat, lines: nat)
      ensures this.bad == bad && this.patience == patience && this.lines == lines && emitted == [] && visited == 0
      ensures Within()
    {
      this.bad, this.patience, this.lines := bad, patience, lines;
      emitted, count, total, visited := [], 0, 0, 0;
    }

    /** Count, read and emit one entry in scope, unless a limit is hit; `read`: it must be read for that. */
    method Emit(e: Entry, read: bool) returns (ok: bool)
      requires Within() && e.size >= 0
      modifies this`emitted, this`count, this`total
      ensures ok
        <==>
          && old(count) + 1 <= MAX_ENTRIES && old(count) + 1 <= lines && old(total) + e.size <= MAX_BYTES
          && (read ==> e.path !in bad)
      ensures ok ==> Within() && emitted == old(emitted) + [e] && total == old(total) + e.size
    {
      count := count + 1;
      if count > MAX_ENTRIES { return false; }
      if total > MAX_BYTES - e.size { return false; }
      total := total + e.size;
      if read && e.path in bad { return false; }
      if |emitted| == lines { return false; }
      BytesAppend(emitted, [e]);
      emitted := emitted + [e];
      ok := true;
    }

    /** One child and what is below it. */
    method WalkChild(prefix: seq<string>, c: Child) returns (ok: bool)
      requires Within() && Bytes(Inner(prefix, c)) >= 0
      modifies this
      ensures ok <==> ChildRead(prefix, c, bad) && old(Fits(|Of(prefix, c)|, Bytes(Of(prefix, c)), VisitsOf(prefix, c)))
      ensures ok ==> Moved(Of(prefix, c), Bytes(Of(prefix, c)), VisitsOf(prefix, c))
      decreases c
    {
      ChildParts(prefix, c, bad);
      hide Scope, EntryOf, PrunedWalk, Join, Of, Bytes, Visits, VisitsOf, AllRead, ChildRead, Inner;
      if visited == patience { return false; }
      visited := visited + 1;
      var parts := prefix + [c.name];
      var (wanted, descend) := Scope(parts, c.node.Folder?);
      Reassociate(emitted, if wanted then [EntryOf(parts, c.node)] else [], Inner(prefix, c));
      if wanted {
        ok := Emit(EntryOf(parts, c.node), c.node.Leaf? || descend);
        if !ok { return; }
      }
      ok := true;
      if c.node.Folder? && descend {
        ok := Walk(parts, c.node.children);
      }
    }

    /** The scan of a site: what it lists are exactly the entries of the tree whose paths are
        code, in the order the merge needs. */
    method Scan(tree: seq<Child>) returns (ok: bool)
      requires Within() && emitted == [] && Listed(tree)
      modifies this
      ensures ok ==> Sorted(emitted)
      ensures ok ==> forall e :: e in emitted <==>
        CodePath(e.path) && FactAt(tree, e.path) == Some(Fact(e.kind, e.size, e.digest))
      ensures ok <==> AllRead([], tree, bad)
                      && old(Fits(|PrunedWalk([], tree)|, Bytes(PrunedWalk([], tree)), Visits([], tree)))
    {
      hide PrunedWalk, Listed, AllRead, Visits, CodePath, FactAt, Sorted;
      ok := Walk([], tree);
      if ok {
        assert emitted == PrunedWalk([], tree);
        PrunedWalkSorted(tree);
        forall e
          ensures e in emitted <==> CodePath(e.path) && FactAt(tree, e.path) == Some(Fact(e.kind, e.size, e.digest))
        {
          ListedFact(tree, e);
        }
      }
    }

    /** The walk succeeds exactly when everything it lists fits the limits, everything it
        reads can be read, every line can be written, and it is over in time; and then it
        lists `PrunedWalk`. */
    method Walk(prefix: seq<string>, cs: seq<Child>) returns (ok: bool)
      requires Within()
      modifies this
      ensures ok
        <==>
          && AllRead(prefix, cs, bad)
          && old(Fits(|PrunedWalk(prefix, cs)|, Bytes(PrunedWalk(prefix, cs)), Visits(prefix, cs)))
      ensures ok ==> Moved(PrunedWalk(prefix, cs), Bytes(PrunedWalk(prefix, cs)), Visits(prefix, cs))
      decreases cs
    {
      if cs == [] { return true; }
      StepOf(prefix, cs);
      StepRead(prefix, cs, bad);
      hide PrunedWalk, Bytes, Self, Inner, Of, AllRead, ChildRead, Visits, VisitsOf, Scope, InScope, EntryOf, Entered,
          Reads, Join;
      Reassociate(emitted, Of(prefix, cs[0]), PrunedWalk(prefix, cs[1..]));
      ghost var rest := PrunedWalk(prefix, cs[1..]);
      ghost var fits := Fits(|PrunedWalk(prefix, cs)|, Bytes(PrunedWalk(prefix, cs)), Visits(prefix, cs));
      ok := WalkChild(prefix, cs[0]);
      if !ok { return; }
      assert fits <==> Fits(|rest|, Bytes(rest), Visits(prefix, cs[1..]));
      hide Walker.Fits;
      ghost var before := emitted;
      ok := Walk(prefix, cs[1..]);
      assert ok ==> emitted == before + rest;
    }
  }

  /** What one child amounts to. */
  lemma ChildParts(prefix: seq<string>, c: Child, bad: set<string>)
    ensures
      var parts := prefix + [c.name]; var (wanted, descend), e := Scope(parts, c.node.Folder?), EntryOf(parts, c.node);
      var inner := if c.node.Folder? && descend then PrunedWalk(parts, c.node.children) else [];
      && Inner(prefix, c) == inner && Bytes([]) == 0
      && e.path == Join(parts) && Of(prefix, c) == (if wanted then [e] else []) + inner
      && Bytes(Of(prefix, c)) == (if wanted then e.size else 0) + Bytes(inner)
      && VisitsOf(prefix, c) == 1 + (if c.node.Folder? && descend then Visits(parts, c.node.children) else 0)
      && (ChildRead(prefix, c, bad) <==>
            && (wanted && (c.node.Leaf? || descend) ==> e.path !in bad)
            && (c.node.Folder? && descend ==> AllRead(parts, c.node.children, bad)))
  {
    hide Scope, PrunedWalk, Visits, AllRead, Join;
    BytesAppend(Self(prefix, c), Inner(prefix, c));
  }

  lemma StepOf(prefix: seq<string>, cs: seq<Child>)
    requires cs != []
    ensures PrunedWalk(prefix, cs) == Of(prefix, cs[0]) + PrunedWalk(prefix, cs[1..])
    ensures |PrunedWalk(prefix, cs)| == |Of(prefix, cs[0])| + |PrunedWalk(prefix, cs[1..])|
    ensures Bytes(PrunedWalk(prefix, cs)) == Bytes(Of(prefix, cs[0])) + Bytes(PrunedWalk(prefix, cs[1..]))
    ensures Bytes(Of(prefix, cs[0])) >= 0 && Bytes(PrunedWalk(prefix, cs[1..])) >= 0 && Bytes(Inner(prefix, cs[0])) >= 0
  {
    StepParts(prefix, cs);
    hide PrunedWalk, Inner, EntryOf, Scope;
    BytesAppend(Self(prefix, cs[0]), Inner(prefix, cs[0]));
  }

  lemma StepRead(prefix: seq<string>, cs: seq<Child>, bad: set<string>)
    requires cs != []
    ensures AllRead(prefix, cs, bad) <==> ChildRead(prefix, cs[0], bad) && AllRead(prefix, cs[1..], bad)
    ensures Visits(prefix, cs) == VisitsOf(prefix, cs[0]) + Visits(prefix, cs[1..])
  {
    hide Scope, Reads, Entered;
  }

  lemma {:induction false} FoundIfIn(es: seq<Entry>, e: Entry)
    requires Sorted(es)
    ensures e in es <==> Find(es, e.path) == Some(e)
  {
    FindPath(es, e.path);
    if e in es {
      var i :| 0 <= i < |es| && es[i] == e;
      FindIndex(es, i);
    }
  }

  lemma ListedFact(tree: seq<Child>, e: Entry)
    requires Listed(tree)
    ensures
      e in PrunedWalk([], tree) <==> CodePath(e.path) && FactAt(tree, e.path) == Some(Fact(e.kind, e.size, e.digest))
  {
    hide CodePath, FactAt, PrunedWalk, Find, Sorted;
    PrunedWalkSorted(tree);
    FoundIfIn(PrunedWalk([], tree), e);
    PrunedFinds(tree, e.path);
  }

  /** What a walk says about a path: what the tree holds there, if the path is code. */
  lemma PrunedFinds(tree: seq<Child>, path: string)
    requires Listed(tree)
    ensures Find(PrunedWalk([], tree), path) ==
      if !CodePath(path) then None
      else match FactAt(tree, path)
        case None => None
        case Some(f) => Some(Entry(path, f.kind, f.size, f.digest))
  {
    hide CodePath;
    PrunedWalkIsFilteredWalk([], tree);
    FindFilter(FullWalk([], tree), path);
    WalkFinds(tree, path);
  }

  function KindAndDigest(f: Option<Fact>): Option<(Kind, string)> {
    match f case None => None case Some(x) => Some((x.kind, x.digest))
  }

  /** What must be reported about a path at which the two trees differ. */
  ghost predicate Tells(d: Difference, before: Option<Fact>, after: Option<Fact>) {
    && before != after
    && d.event == (if before == None then Added else if after == None then Deleted
                   else if before.value.kind == Symlink || after.value.kind == Symlink then LinkChanged else Modified)
    && d.size == (if after == None then 0 else after.value.size)
    && d.before == KindAndDigest(before) && d.after == KindAndDigest(after)
  }

  /** A whole scan: whatever the two trees, sorting the merge of the two walks reports a path
      if and only if it is code and what the trees hold there differs; once; and it tells what
      has become of it. */
  lemma ScanReportsEveryChange(oldTree: seq<Child>, newTree: seq<Child>, ds: seq<Difference>, d: Difference)
    requires Listed(oldTree) && Listed(newTree)
    requires InReportOrder(ds) && multiset(ds) == multiset(Merge(PrunedWalk([], oldTree), PrunedWalk([], newTree)))
    ensures DistinctPaths(ds)
    ensures d in ds <==> CodePath(d.path) && Tells(d, FactAt(oldTree, d.path), FactAt(newTree, d.path))
    ensures (exists x :: x in ds && x.path == d.path)
      <==> CodePath(d.path) && FactAt(oldTree, d.path) != FactAt(newTree, d.path)
  {
    hide CodePath, FactAt, PrunedWalk, Merge, Sorted;
    var before, after := PrunedWalk([], oldTree), PrunedWalk([], newTree);
    PrunedWalkSorted(oldTree);
    PrunedWalkSorted(newTree);
    MergeReports(before, after, ds);
    forall x ensures x in ds <==> x in AtPath(before, after, x.path) {
      assert x in multiset(ds) <==> x in multiset(Merge(before, after));
      MergeExact(before, after, x);
    }
    AtTells(oldTree, newTree, d);
    if CodePath(d.path) && FactAt(oldTree, d.path) != FactAt(newTree, d.path) {
      var x := AtPath(before, after, d.path)[0];
      AtTells(oldTree, newTree, x);
      assert x in ds && x.path == d.path;
    }
    forall x | x in ds && x.path == d.path
      ensures CodePath(d.path) && FactAt(oldTree, d.path) != FactAt(newTree, d.path)
    {
      AtTells(oldTree, newTree, x);
    }
  }

  lemma AtTells(oldTree: seq<Child>, newTree: seq<Child>, d: Difference)
    requires Listed(oldTree) && Listed(newTree)
    ensures var at := AtPath(PrunedWalk([], oldTree), PrunedWalk([], newTree), d.path);
      && (d in at <==> CodePath(d.path) && Tells(d, FactAt(oldTree, d.path), FactAt(newTree, d.path)))
      && (CodePath(d.path) && FactAt(oldTree, d.path) != FactAt(newTree, d.path) ==> at != [] && at[0].path == d.path)
  {
    hide CodePath, FactAt, PrunedWalk, Find;
    PrunedFinds(oldTree, d.path);
    PrunedFinds(newTree, d.path);
  }
}
