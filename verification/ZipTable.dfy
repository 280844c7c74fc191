/**
 The names in a ZIP archive: which raw names are accepted, and which lists of names can
 be extracted side by side.  Names are strings of bytes.
 */
module ZipTable {
  import opened Common
  import opened Paths

  datatype Code =
    | InvalidZip | TooManyEntries | PathInvalid | EncodingInvalid | DuplicatePath | TypeForbidden
    | EntryTooLarge | TotalTooLarge | RatioExceeded | HeaderMismatch

  datatype Name = Name(path: string, isDir: bool)

  // ----- one name -----

  ghost predicate Forbidden(c: char) { c as int < 0x20 || c as int == 0x7f || c == '\\' }

  ghost predicate GoodSegment(part: string) { part != "" && part != "." && part != ".." }

  function Trimmed(name: string): string {
    if name != "" && name[|name| - 1] == '/' then name[..|name| - 1] else name
  }

  ghost predicate WellFormed(name: string) {
    && name != "" && name[0] != '~' && !(|name| >= 2 && name[1] == ':')
    && (forall i :: 0 <= i < |name| ==> !Forbidden(name[i]))
    && (var parts := Split(Trimmed(name)); forall i :: 0 <= i < |parts| ==> GoodSegment(parts[i]))
  }

  /** `normalizeZIPName`; `utf8`: the name is valid UTF-8, or the policy does not ask for it.
      The tests for a leading slash, for two slashes in a row and for a path that cleaning
      would change are those for a segment that is empty or made of dots. */
  method NormalizeName(name: string, utf8: bool) returns (r: Option<Name>, code: Code)
    ensures r.Some? <==> utf8 && WellFormed(name)
    ensures r.Some? ==> r.value.path + (if r.value.isDir then "/" else "") == name
    ensures r.Some? ==> name != "" && r.value.path == Trimmed(name)
    ensures r.None? ==> code == if name != "" && !utf8 then EncodingInvalid else PathInvalid
  {
    code := PathInvalid;
    if name == "" { return None, PathInvalid; }
    if !utf8 { return None, EncodingInvalid; }
    for i := 0 to |name|
      invariant forall j :: 0 <= j < i ==> !Forbidden(name[j])
    {
      var c := name[i];
      if c as int < 0x20 || c as int == 0x7f || c == '\\' { return None, PathInvalid; }
    }
    if name[0] == '~' || (|name| >= 2 && name[1] == ':') { return None, PathInvalid; }
    var parts := Split(Trimmed(name));
    for i := 0 to |parts|
      invariant forall j :: 0 <= j < i ==> GoodSegment(parts[j])
    {
      if parts[i] == "" || parts[i] == "." || parts[i] == ".." { return None, PathInvalid; }
    }
    r := Some(Name(Trimmed(name), name[|name| - 1] == '/'));
  }

  // ----- a list of names -----

  /** Path a lies strictly above path b. */
  ghost predicate Above(a: string, b: string) {
    |Split(a)| < |Split(b)| && Split(b)[..|Split(a)|] == Split(a)
  }

  /** Nothing is named twice, and no file lies above another entry. */
  ghost predicate Compatible(names: seq<Name>) {
    && (forall i, j :: 0 <= i < j < |names| ==> names[i].path != names[j].path)
    && (forall i, j :: 0 <= i < |names| && 0 <= j < |names| && !names[i].isDir ==> !Above(names[i].path, names[j].path))
  }

  /** p is the join of one of the beginnings of parts that are shorter than n. */
  ghost predicate JoinBelow(p: string, parts: seq<string>, n: nat)
    requires n <= |parts|
  {
    exists i :: 1 <= i < n && p == Join(parts[..i])
  }

  lemma JoinBelowStep(p: string, parts: seq<string>, n: nat)
    requires 1 <= n < |parts|
    ensures JoinBelow(p, parts, n + 1) <==> JoinBelow(p, parts, n) || p == Join(parts[..n])
  {
  }

  lemma NoneBelowOne(p: string, parts: seq<string>)
    requires |parts| >= 1
    ensures !JoinBelow(p, parts, 1)
  {
  }

  /** The parents of a path are the joins of the beginnings of its components. */
  lemma ParentsAreJoins(a: string, b: string)
    ensures Above(a, b) <==> JoinBelow(a, Split(b), |Split(b)|)
  {
    JoinOfSplit(a);
    JoinOfSplit(b);
    if Above(a, b) {
      assert a == Join(Split(b)[..|Split(a)|]);
    }
    if i :| 1 <= i < |Split(b)| && a == Join(Split(b)[..i]) {
      SplitOfJoin(Split(b)[..i]);
    }
  }

  lemma NotAboveItself(p: string)
    ensures !Above(p, p)
  {
  }

  ghost predicate Named(names: seq<Name>, p: string) { exists i :: 0 <= i < |names| && names[i].path == p }

  ghost predicate Parent(names: seq<Name>, p: string) { exists i :: 0 <= i < |names| && Above(p, names[i].path) }

  ghost predicate FileAbove(names: seq<Name>, p: string) {
    exists i :: 0 <= i < |names| && !names[i].isDir && Above(names[i].path, p)
  }

  /** What one more entry must not clash with. */
  lemma CompatibleAppend(names: seq<Name>, n: Name)
    ensures Compatible(names + [n]) <==>
      Compatible(names) && !Named(names, n.path) && !FileAbove(names, n.path) && (n.isDir || !Parent(names, n.path))
  {
    hide Above;
    var all, k := names + [n], |names|;
    assert !Above(n.path, n.path) by { NotAboveItself(n.path); }
    assert forall i :: 0 <= i < k ==> all[i] == names[i];
    assert all[k] == n;
  }

  lemma NamedAppend(names: seq<Name>, n: Name, p: string)
    ensures Named(names + [n], p) <==> Named(names, p) || p == n.path
    ensures Parent(names + [n], p) <==> Parent(names, p) || Above(p, n.path)
  {
    hide Above;
    var all := names + [n];
    assert all[|names|] == n;
    assert forall i :: 0 <= i < |names| ==> all[i] == names[i];
    if Named(names, p) {
      var i :| 0 <= i < |names| && names[i].path == p;
      assert all[i].path == p;
    }
    if Parent(names, p) {
      var i :| 0 <= i < |names| && Above(p, names[i].path);
      assert Above(p, all[i].path);
    }
  }

  class PathTable {
    var types: map<string, bool>
    var usedAsParent: set<string>
    ghost var seen: seq<Name>

    /** The maps say what has been seen. */
    ghost predicate Valid()
      reads this
    {
      && (forall p :: p in types <==> Named(seen, p))
      && (forall i :: 0 <= i < |seen| ==> seen[i].path in types && types[seen[i].path] == seen[i].isDir)
      && (forall p :: p in usedAsParent <==> Parent(seen, p))
      && Compatible(seen)
    }

    constructor ()
      ensures Valid() && seen == []
    {
      types, usedAsParent, seen := map[], {}, [];
    }

    /** `validatePathConflicts`. */
    method Conflicts(name: string, isDir: bool) returns (bad: bool)
      requires Valid()
      ensures bad <==> FileAbove(seen, name) || (!isDir && Parent(seen, name))
    {
      var parts := Split(name);
      for i := 1 to |parts|
        invariant forall j :: 1 <= j < i ==> !(Join(parts[..j]) in types && !types[Join(parts[..j])])
      {
        var parent := Join(parts[..i]);
        if parent in types && !types[parent] {
          ParentsAreJoins(parent, name);
          ghost var k :| 0 <= k < |seen| && seen[k].path == parent;
          assert !seen[k].isDir;
          return true;
        }
      }
      forall i | 0 <= i < |seen| && !seen[i].isDir ensures !Above(seen[i].path, name) {
        ParentsAreJoins(seen[i].path, name);
      }
      bad := !isDir && name in usedAsParent;
    }

    /** `rememberParentPaths`. */
    method RememberParents(name: string)
      modifies this`usedAsParent
      ensures forall p :: p in usedAsParent <==> p in old(usedAsParent) || Above(p, name)
    {
      var parts := Split(name);
      forall p ensures Above(p, name) <==> JoinBelow(p, parts, |parts|) { ParentsAreJoins(p, name); }
      hide Above, JoinBelow;
      forall p ensures !JoinBelow(p, parts, 1) { NoneBelowOne(p, parts); }
      for i := 1 to |parts|
        invariant forall p :: p in usedAsParent <==> p in old(usedAsParent) || JoinBelow(p, parts, i)
      {
        forall p
          ensures JoinBelow(p, parts, i + 1) <==> JoinBelow(p, parts, i) || p == Join(parts[..i])
        {
          JoinBelowStep(p, parts, i);
        }
        usedAsParent := usedAsParent + {Join(parts[..i])};
      }
    }

    /** Accept one more entry exactly when the list stays compatible. */
    method Add(n: Name) returns (ok: bool)
      requires Valid()
      modifies this
      ensures ok <==> Compatible(old(seen) + [n])
      ensures Valid() && seen == if ok then old(seen) + [n] else old(seen)
    {
      hide Above, Named, Parent, FileAbove, Compatible;
      CompatibleAppend(seen, n);
      if n.path in types { return false; }
      var bad := Conflicts(n.path, n.isDir);
      if bad { return false; }
      types := types[n.path := n.isDir];
      RememberParents(n.path);
      seen := seen + [n];
      assert seen == old(seen) + [n];
      forall p ensures Named(seen, p) <==> Named(old(seen), p) || p == n.path { NamedAppend(old(seen), n, p); }
      forall p ensures Parent(seen, p) <==> Parent(old(seen), p) || Above(p, n.path) { NamedAppend(old(seen), n, p); }
      assert forall i :: 0 <= i < |old(seen)| ==> seen[i] == old(seen)[i];
      ok := true;
    }
  }
}
