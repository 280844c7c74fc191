/**
 The walk that lists a site's code: a pre-order walk that prunes directories out of
 scope.  It visits exactly what a full walk filtered by the scope would, and it
 emits paths in the component order the merge needs.
 */
module IntegrityWalk {
  import opened Common
  import opened Paths
  import opened IntegrityCompare

  datatype Node = Leaf(kind: Kind, size: nat, digest: string) | Folder(children: seq<Child>)

  datatype Child = Child(name: string, node: Node)

  /** Names are single path components, and `WalkDir` lists each directory in string order. */
  ghost predicate Listed(cs: seq<Child>)
    decreases cs
  {
    && (forall i, j :: 0 <= i < j < |cs| ==> StrLess(cs[i].name, cs[j].name))
    && (forall i :: 0 <= i < |cs| ==> Plain(cs[i].name) && cs[i].name != "")
    && (forall i :: 0 <= i < |cs| ==> match cs[i].node
          case Leaf(kind, _, _) => kind != Directory
          case Folder(children) => Listed(children))
  }

  // ----- scope -----

  /** `fileIntegrityScope` on the components of a path: whether to list it, and whether to look below it. */
  function Scope(p: seq<string>, isDir: bool): (bool, bool)
    requires |p| >= 1
  {
    if |p| == 1 then
      if !isDir then (true, false)
      else if p[0] == "wp-admin" || p[0] == "wp-includes" || p[0] == "wp-content" then (true, true)
      else (true, false)
    else if p[0] == "wp-admin" || p[0] == "wp-includes" then (true, true)
    else if p[0] != "wp-content" then (false, false)
    else if |p| == 2 then
      if !isDir then (true, false)
      else if p[1] == "plugins" || p[1] == "themes" || p[1] == "mu-plugins" then (true, true)
      else (true, false)
    else (p[1] == "plugins" || p[1] == "themes" || p[1] == "mu-plugins", true)
  }

  predicate InScope(p: seq<string>, isDir: bool)
    requires |p| >= 1
  {
    Scope(p, isDir).0
  }

  /** Nothing below a directory the walk does not enter is in scope. */
  lemma PrunedHoldsNothing(dir: seq<string>, below: seq<string>, isDir: bool)
    requires 1 <= |dir| < |below| && dir <= below && !Scope(dir, true).1
    ensures !InScope(below, isDir)
  {
    assert below[0] == dir[0];
    if |dir| >= 2 { assert below[1] == dir[1]; }
  }

  // ----- scope, on the paths as strings -----

  /** The code of a site: everything at the top, all of wp-admin and wp-includes, the entries
      of wp-content, and all of its plugins, themes and mu-plugins. */
  predicate CodePath(path: string) {
    || '/' !in path
    || "wp-admin/" <= path || "wp-includes/" <= path
    || ("wp-content/" <= path && '/' !in path[11..])
    || "wp-content/plugins/" <= path || "wp-content/themes/" <= path || "wp-content/mu-plugins/" <= path
  }

  lemma OneMoreComponent(path: string, a: string)
    requires Plain(a)
    ensures a + "/" <= path && '/' !in path[|a| + 1..] <==> |Split(path)| == 2 && Split(path)[0] == a
  {
    hide Split, Plain;
    SplitBegins(path, a);
    if a + "/" <= path { SplitSingle(path[|a| + 1..]); }
  }

  lemma Begins(path: string, a: string, begin: string)
    requires Plain(a) && begin == a + "/"
    ensures begin <= path <==> |Split(path)| >= 2 && Split(path)[0] == a
  {
    SplitBegins(path, a);
  }

  lemma BeginsTwice(path: string, b: string, begin: string)
    requires Plain(b) && begin == "wp-content/" + (b + "/")
    ensures begin <= path <==> |Split(path)| >= 3 && Split(path)[0] == "wp-content" && Split(path)[1] == b
  {
    hide Split;
    assert "wp-content" + "/" == "wp-content/";
    TwoComponents(path, "wp-content", b);
  }

  /** What is in scope is exactly the code of the site. */
  lemma ScopeIsCode(path: string, isDir: bool)
    ensures InScope(Split(path), isDir) <==> CodePath(path)
  {
    hide Split;
    SplitSingle(path);
    Begins(path, "wp-admin", "wp-admin/");
    Begins(path, "wp-includes", "wp-includes/");
    Begins(path, "wp-content", "wp-content/");
    OneMoreComponent(path, "wp-content");
    BeginsTwice(path, "plugins", "wp-content/plugins/");
    BeginsTwice(path, "themes", "wp-content/themes/");
    BeginsTwice(path, "mu-plugins", "wp-content/mu-plugins/");
  }

  /** The directories the walk goes into. */
  predicate CodeFolder(path: string) {
    || path == "wp-admin" || path == "wp-includes" || path == "wp-content"
    || "wp-admin/" <= path || "wp-includes/" <= path
    || path == "wp-content/plugins" || path == "wp-content/themes" || path == "wp-content/mu-plugins"
    || "wp-content/plugins/" <= path || "wp-content/themes/" <= path || "wp-content/mu-plugins/" <= path
  }

  lemma SplitIs(path: string, parts: seq<string>, whole: string)
    requires AllPlain(parts) && parts != [] && whole == Join(parts)
    ensures path == whole <==> Split(path) == parts
  {
    SplitOfJoin(parts);
    JoinOfSplit(path);
  }

  lemma JoinPair(a: string, b: string)
    ensures Join([a, b]) == a + "/" + b
  {
    assert [a, b][..1] == [a];
  }

  lemma IsPair(path: string, b: string, whole: string)
    requires Plain(b) && whole == "wp-content" + "/" + b
    ensures path == whole <==> Split(path) == ["wp-content", b]
  {
    JoinPair("wp-content", b);
    SplitIs(path, ["wp-content", b], whole);
  }

  /** The walk goes into a directory of the site's code exactly if it may hold more code. */
  lemma EntersCode(path: string)
    ensures InScope(Split(path), true) && Scope(Split(path), true).1 <==> CodeFolder(path)
  {
    hide Split, Join;
    SplitIsOne(path, "wp-admin");
    SplitIsOne(path, "wp-includes");
    SplitIsOne(path, "wp-content");
    Begins(path, "wp-admin", "wp-admin/");
    Begins(path, "wp-includes", "wp-includes/");
    IsPair(path, "plugins", "wp-content/plugins");
    IsPair(path, "themes", "wp-content/themes");
    IsPair(path, "mu-plugins", "wp-content/mu-plugins");
    BeginsTwice(path, "plugins", "wp-content/plugins/");
    BeginsTwice(path, "themes", "wp-content/themes/");
    BeginsTwice(path, "mu-plugins", "wp-content/mu-plugins/");
  }

  lemma SplitIsOne(path: string, a: string)
    requires Plain(a)
    ensures path == a <==> Split(path) == [a]
  {
    SplitIs(path, [a], a);
  }

  // ----- the two walks -----

  function EntryOf(parts: seq<string>, node: Node): (e: Entry)
    ensures e.size >= 0
  {
    match node
    case Leaf(kind, size, digest) =>
      Entry(Join(parts), kind, if kind == Regular then size else 0, if kind == Special then "" else digest)
    case Folder(_) => Entry(Join(parts), Directory, 0, "")
  }

  /** Every entry below `prefix`, without pruning. */
  function FullWalk(prefix: seq<string>, cs: seq<Child>): seq<Entry>
    decreases cs
  {
    if cs == [] then []
    else
      var parts := prefix + [cs[0].name];
      var inner := match cs[0].node case Leaf(_, _, _) => [] case Folder(children) => FullWalk(parts, children);
      [EntryOf(parts, cs[0].node)] + inner + FullWalk(prefix, cs[1..])
  }

  /** The walk of the scanner: a directory it must not enter is listed, if in scope, and skipped. */
  function PrunedWalk(prefix: seq<string>, cs: seq<Child>): seq<Entry>
    decreases cs
  {
    if cs == [] then []
    else
      var parts := prefix + [cs[0].name];
      var (wanted, descend) := Scope(parts, cs[0].node.Folder?);
      var self := if wanted then [EntryOf(parts, cs[0].node)] else [];
      var inner := match cs[0].node
        case Leaf(_, _, _) => []
        case Folder(children) => if descend then PrunedWalk(parts, children) else [];
      self + inner + PrunedWalk(prefix, cs[1..])
  }

  predicate Wanted(e: Entry) { InScope(Split(e.path), e.kind == Directory) }

  function Filter(es: seq<Entry>): seq<Entry> {
    if es == [] then [] else (if Wanted(es[0]) then [es[0]] else []) + Filter(es[1..])
  }

  lemma {:induction false} FilterAppend(xs: seq<Entry>, ys: seq<Entry>)
    ensures Filter(xs + ys) == Filter(xs) + Filter(ys)
  {
    hide Wanted;
    if xs == [] {
      assert xs + ys == ys;
    } else {
      FilterAppend(xs[1..], ys);
      assert (xs + ys)[1..] == xs[1..] + ys;
      Reassociate(if Wanted(xs[0]) then [xs[0]] else [], Filter(xs[1..]), Filter(ys));
    }
  }

  lemma {:induction false} FilterNothing(es: seq<Entry>)
    requires forall i :: 0 <= i < |es| ==> !Wanted(es[i])
    ensures Filter(es) == []
  {
    if es != [] { FilterNothing(es[1..]); }
  }

  ghost predicate Under(e: Entry, parts: seq<string>) {
    |parts| < |Split(e.path)| && parts <= Split(e.path)
  }

  lemma PathOfEntry(parts: seq<string>, node: Node)
    requires |parts| >= 1 && AllPlain(parts) && (node.Leaf? ==> node.kind != Directory)
    ensures Split(EntryOf(parts, node).path) == parts
    ensures Wanted(EntryOf(parts, node)) <==> InScope(parts, node.Folder?)
  {
    SplitOfJoin(parts);
  }

  /** Every entry of a walk lies strictly below its prefix. */
  lemma {:induction false} WalkUnder(prefix: seq<string>, cs: seq<Child>)
    requires AllPlain(prefix) && Listed(cs)
    ensures forall i :: 0 <= i < |FullWalk(prefix, cs)| ==> Under(FullWalk(prefix, cs)[i], prefix)
    decreases cs
  {
    hide Split, EntryOf;
    if cs != [] {
      var parts := prefix + [cs[0].name];
      PathOfEntry(parts, cs[0].node);
      if cs[0].node.Folder? {
        WalkUnder(parts, cs[0].node.children);
      }
      WalkUnder(prefix, cs[1..]);
    }
  }

  /** Pruning drops nothing in scope: the scanner's walk is the full walk, filtered. */
  lemma {:induction false} PrunedWalkIsFilteredWalk(prefix: seq<string>, cs: seq<Child>)
    requires AllPlain(prefix) && Listed(cs)
    ensures PrunedWalk(prefix, cs) == Filter(FullWalk(prefix, cs))
    decreases cs
  {
    if cs != [] {
      var parts := prefix + [cs[0].name];
      var self := [EntryOf(parts, cs[0].node)];
      PathOfEntry(parts, cs[0].node);
      PrunedWalkIsFilteredWalk(prefix, cs[1..]);
      if cs[0].node.Folder? {
        var inner := FullWalk(parts, cs[0].node.children);
        FilterAppend(self + inner, FullWalk(prefix, cs[1..]));
        FilterAppend(self, inner);
        if Scope(parts, true).1 {
          PrunedWalkIsFilteredWalk(parts, cs[0].node.children);
        } else {
          WalkUnder(parts, cs[0].node.children);
          forall i | 0 <= i < |inner| ensures !Wanted(inner[i]) {
            PrunedHoldsNothing(parts, Split(inner[i].path), inner[i].kind == Directory);
          }
          FilterNothing(inner);
        }
      } else {
        FilterAppend(self + [], FullWalk(prefix, cs[1..]));
        assert self + [] == self;
      }
    }
  }

  // ----- order -----

  /** Every entry of the walk over cs lies at or below one of the listed names. */
  lemma {:induction false} WalkBelowNames(prefix: seq<string>, cs: seq<Child>, k: nat)
    requires AllPlain(prefix) && Listed(cs) && k < |FullWalk(prefix, cs)|
    ensures exists i :: 0 <= i < |cs| && prefix + [cs[i].name] <= Split(FullWalk(prefix, cs)[k].path)
    decreases cs
  {
    var parts := prefix + [cs[0].name];
    var inner := match cs[0].node case Leaf(_, _, _) => [] case Folder(children) => FullWalk(parts, children);
    PathOfEntry(parts, cs[0].node);
    if k == 0 {
    } else if k < 1 + |inner| {
      WalkUnder(parts, cs[0].node.children);
      assert FullWalk(prefix, cs)[k] == inner[k - 1];
    } else {
      var rest := k - 1 - |inner|;
      assert FullWalk(prefix, cs)[k] == FullWalk(prefix, cs[1..])[rest];
      WalkBelowNames(prefix, cs[1..], rest);
      var i :| 0 <= i < |cs[1..]| && prefix + [cs[1..][i].name] <= Split(FullWalk(prefix, cs[1..])[rest].path);
      assert cs[i + 1] == cs[1..][i];
    }
  }

  /** The walk emits paths in strict component order, so each path once. */
  lemma {:induction false} WalkSorted(prefix: seq<string>, cs: seq<Child>)
    requires AllPlain(prefix) && Listed(cs)
    ensures Sorted(FullWalk(prefix, cs))
    decreases cs
  {
    hide Split, PartsLess, StrLess, EntryOf;
    if cs != [] {
      var parts := prefix + [cs[0].name];
      var self := EntryOf(parts, cs[0].node);
      var inner := match cs[0].node case Leaf(_, _, _) => [] case Folder(children) => FullWalk(parts, children);
      var rest := FullWalk(prefix, cs[1..]);
      PathOfEntry(parts, cs[0].node);
      if cs[0].node.Folder? {
        WalkSorted(parts, cs[0].node.children);
        WalkUnder(parts, cs[0].node.children);
      }
      WalkSorted(prefix, cs[1..]);
      forall e, k | (e == self || e in inner) && 0 <= k < |rest| ensures PathLess(e.path, rest[k].path) {
        WalkBelowNames(prefix, cs[1..], k);
        var i :| 0 <= i < |cs[1..]| && prefix + [cs[1..][i].name] <= Split(rest[k].path);
        assert cs[1..][i] == cs[i + 1];
        SiblingsLess(prefix, cs[0].name, cs[i + 1].name, Split(e.path), Split(rest[k].path));
      }
      forall k | 0 <= k < |inner| ensures PathLess(self.path, inner[k].path) {
        PrefixLess(parts, Split(inner[k].path));
      }
      SortedJoin(self, inner, rest);
    }
  }

  lemma SortedJoin(self: Entry, inner: seq<Entry>, rest: seq<Entry>)
    requires Sorted(inner) && Sorted(rest)
    requires forall k :: 0 <= k < |inner| ==> PathLess(self.path, inner[k].path)
    requires forall e, k :: (e == self || e in inner) && 0 <= k < |rest| ==> PathLess(e.path, rest[k].path)
    ensures Sorted([self] + inner + rest)
  {
    hide PathLess;
    var all, n := [self] + inner + rest, |inner|;
    forall i, j | 0 <= i < j < |all| ensures PathLess(all[i].path, all[j].path) {
      if i > n {
        assert all[i] == rest[i - 1 - n] && all[j] == rest[j - 1 - n];
      } else if j > n {
        assert all[j] == rest[j - 1 - n];
        if i > 0 { assert all[i] == inner[i - 1]; }
      } else {
        assert all[j] == inner[j - 1];
        if i > 0 { assert all[i] == inner[i - 1]; }
      }
    }
  }

  lemma {:induction false} FilterIn(es: seq<Entry>, e: Entry)
    ensures e in Filter(es) <==> e in es && Wanted(e)
  {
    if es != [] { FilterIn(es[1..], e); }
  }

  lemma {:induction false} FilterSorted(es: seq<Entry>)
    requires Sorted(es)
    ensures Sorted(Filter(es))
  {
    if es != [] {
      FilterSorted(es[1..]);
      forall k | 0 <= k < |Filter(es[1..])| ensures PathLess(es[0].path, Filter(es[1..])[k].path) {
        FilterIn(es[1..], Filter(es[1..])[k]);
      }
    }
  }

  /** What the scanner writes to a manifest is in the order the merge relies on. */
  lemma PrunedWalkSorted(cs: seq<Child>)
    requires Listed(cs)
    ensures Sorted(PrunedWalk([], cs))
  {
    PrunedWalkIsFilteredWalk([], cs);
    WalkSorted([], cs);
    FilterSorted(FullWalk([], cs));
  }

  /** A path is listed exactly when the full walk finds it and it is in scope. */
  lemma PrunedWalkComplete(cs: seq<Child>, e: Entry)
    requires Listed(cs)
    ensures e in PrunedWalk([], cs) <==> e in FullWalk([], cs) && InScope(Split(e.path), e.kind == Directory)
  {
    PrunedWalkIsFilteredWalk([], cs);
    FilterIn(FullWalk([], cs), e);
  }

  /** An entry is listed exactly when the full walk finds it and its path is code. */
  lemma ListedIffCode(cs: seq<Child>, e: Entry)
    requires Listed(cs)
    ensures e in PrunedWalk([], cs) <==> e in FullWalk([], cs) && CodePath(e.path)
  {
    PrunedWalkComplete(cs, e);
    ScopeIsCode(e.path, e.kind == Directory);
  }

  // ----- the tree itself -----

  function ChildNamed(cs: seq<Child>, name: string): Option<Node> {
    if cs == [] then None else if cs[0].name == name then Some(cs[0].node) else ChildNamed(cs[1..], name)
  }

  /** What lies at a path of the tree. */
  function NodeAt(cs: seq<Child>, parts: seq<string>): Option<Node>
    requires parts != []
    decreases |parts|
  {
    match ChildNamed(cs, parts[0])
    case None => None
    case Some(node) =>
      if |parts| == 1 then Some(node) else if node.Folder? then NodeAt(node.children, parts[1..]) else None
  }

  /** What a manifest records of it: the kind, the size of a file, and a digest of what a file
      or a link holds. */
  datatype Fact = Fact(kind: Kind, size: int, digest: string)

  function FactAt(cs: seq<Child>, path: string): Option<Fact> {
    match NodeAt(cs, Split(path))
    case None => None
    case Some(Folder(_)) => Some(Fact(Directory, 0, ""))
    case Some(Leaf(Special, _, _)) => Some(Fact(Special, 0, ""))
    case Some(Leaf(Regular, size, digest)) => Some(Fact(Regular, size, digest))
    case Some(Leaf(kind, _, digest)) => Some(Fact(kind, 0, digest))
  }

  /** The full walk lists exactly what the tree holds. */
  lemma {:induction false} WalkHas(prefix: seq<string>, cs: seq<Child>, e: Entry, parts: seq<string>)
    requires AllPlain(prefix) && Listed(cs) && parts != [] && Split(e.path) == prefix + parts
    ensures e in FullWalk(prefix, cs)
      <==> NodeAt(cs, parts).Some? && e == EntryOf(prefix + parts, NodeAt(cs, parts).value)
    decreases cs
  {
    hide Split, EntryOf, StrLess;
    if cs != [] {
      var here := prefix + [cs[0].name];
      var inner := match cs[0].node case Leaf(_, _, _) => [] case Folder(children) => FullWalk(here, children);
      PathOfEntry(here, cs[0].node);
      if cs[0].node.Folder? { WalkUnder(here, cs[0].node.children); }
      if parts[0] == cs[0].name {
        NotBesides(prefix, cs, e);
        assert here + parts[1..] == prefix + parts;
        assert e in inner ==> |here| < |Split(e.path)|;
        if |parts| == 1 {
          assert here == prefix + parts;
        } else if cs[0].node.Folder? {
          WalkHas(here, cs[0].node.children, e, parts[1..]);
        }
      } else {
        assert (prefix + parts)[|prefix|] == parts[0];
        assert here[|prefix|] == cs[0].name;
        assert e in inner ==> here <= Split(e.path);
        WalkHas(prefix, cs[1..], e, parts);
      }
    }
  }

  lemma LaterNames(cs: seq<Child>)
    requires Listed(cs) && cs != []
    ensures Listed(cs[1..]) && forall i :: 0 <= i < |cs[1..]| ==> cs[1..][i].name != cs[0].name
  {
    hide StrLess;
    forall i | 0 <= i < |cs[1..]| ensures cs[1..][i].name != cs[0].name {
      assert StrLess(cs[0].name, cs[i + 1].name);
      StrLessIrreflexive(cs[0].name);
    }
  }

  /** What lies at or below the first child is not listed with its siblings. */
  lemma NotBesides(prefix: seq<string>, cs: seq<Child>, e: Entry)
    requires AllPlain(prefix) && Listed(cs) && cs != []
    requires |Split(e.path)| > |prefix| && Split(e.path)[|prefix|] == cs[0].name
    ensures e !in FullWalk(prefix, cs[1..])
  {
    hide Split, EntryOf, StrLess, Listed, FullWalk, AllPlain;
    LaterNames(cs);
    var walk := FullWalk(prefix, cs[1..]);
    forall k | 0 <= k < |walk| ensures walk[k] != e {
      WalkBelowNames(prefix, cs[1..], k);
      var i :| 0 <= i < |cs[1..]| && prefix + [cs[1..][i].name] <= Split(walk[k].path);
      var below := prefix + [cs[1..][i].name];
      assert |Split(walk[k].path)| > |prefix| && Split(walk[k].path)[|prefix|] == below[|prefix|];
    }
  }

  lemma {:induction false} NotFoundAnywhere(es: seq<Entry>, path: string)
    requires Find(es, path) == None
    ensures forall e :: e in es ==> e.path != path
  {
    if es != [] { NotFoundAnywhere(es[1..], path); }
  }

  /** What the full walk says about a path is what the tree holds there. */
  lemma WalkFinds(cs: seq<Child>, path: string)
    requires Listed(cs)
    ensures Find(FullWalk([], cs), path) ==
      match FactAt(cs, path)
      case None => None
      case Some(f) => Some(Entry(path, f.kind, f.size, f.digest))
  {
    hide FullWalk, Find, Split;
    var walk, parts := FullWalk([], cs), Split(path);
    JoinOfSplit(path);
    assert [] + parts == parts;
    FindPath(walk, path);
    if Find(walk, path).Some? {
      WalkHas([], cs, Find(walk, path).value, parts);
    } else if NodeAt(cs, parts).Some? {
      NotFoundAnywhere(walk, path);
      WalkHas([], cs, EntryOf(parts, NodeAt(cs, parts).value), parts);
    }
    NodeKinds(cs, parts);
  }

  /** A leaf of a listing is no directory. */
  lemma {:induction false} NodeKinds(cs: seq<Child>, parts: seq<string>)
    requires Listed(cs) && parts != []
    ensures NodeAt(cs, parts).Some? && NodeAt(cs, parts).value.Leaf? ==> NodeAt(cs, parts).value.kind != Directory
    decreases |parts|
  {
    ChildKinds(cs, parts[0]);
    if |parts| > 1 && ChildNamed(cs, parts[0]).Some? && ChildNamed(cs, parts[0]).value.Folder? {
      NodeKinds(ChildNamed(cs, parts[0]).value.children, parts[1..]);
    }
  }

  lemma {:induction false} ChildKinds(cs: seq<Child>, name: string)
    requires Listed(cs)
    ensures match ChildNamed(cs, name)
      case None => true
      case Some(Leaf(kind, _, _)) => kind != Directory
      case Some(Folder(children)) => Listed(children)
  {
    if cs != [] && cs[0].name != name { ChildKinds(cs[1..], name); }
  }

  lemma {:induction false} FindFilter(es: seq<Entry>, path: string)
    ensures Find(Filter(es), path) == if CodePath(path) then Find(es, path) else None
  {
    hide Wanted, CodePath;
    if es != [] {
      FindFilter(es[1..], path);
      WantedIsCode(es[0]);
      var rest := Filter(es[1..]);
      assert ([es[0]] + rest)[1..] == rest && [] + rest == rest;
    }
  }

  lemma WantedIsCode(e: Entry)
    ensures Wanted(e) <==> CodePath(e.path)
  {
    ScopeIsCode(e.path, e.kind == Directory);
  }
}
