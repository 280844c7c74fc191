/**
 Comparing two manifests of a site's code: a streaming merge of two sorted lists,
 and the comparison through maps that it must agree with.
 */
module IntegrityCompare {
  import opened Common
  import opened Paths

  datatype Kind = Directory | Regular | Symlink | Special

  datatype Entry = Entry(path: string, kind: Kind, size: int, digest: string)

  datatype Event = Added | Modified | Deleted | LinkChanged

  /** `before` and `after` are what the signature of a difference is computed from. */
  datatype Difference = Difference(event: Event, path: string, size: int, before: Option<(Kind, string)>,
      after: Option<(Kind, string)>)

  function Mark(e: Option<Entry>): Option<(Kind, string)> {
    match e case None => None case Some(x) => Some((x.kind, x.digest))
  }

  function MakeDifference(event: Event, path: string, before: Option<Entry>, after: Option<Entry>): Difference {
    Difference(event, path, if after.Some? then after.value.size else 0, Mark(before), Mark(after))
  }

  function Change(before: Entry, after: Entry): seq<Difference> {
    if before == after then []
    else
      var event := if before.kind == Symlink || after.kind == Symlink then LinkChanged else Modified;
      [MakeDifference(event, before.path, Some(before), Some(after))]
  }

  // ----- the streaming merge -----

  /** The merge before sorting: always consume the smaller head, by component order. */
  function Merge(before: seq<Entry>, after: seq<Entry>): seq<Difference>
    decreases |before| + |after|
  {
    if before == [] && after == [] then []
    else if before == [] || (after != [] && PathLess(after[0].path, before[0].path)) then
      [MakeDifference(Added, after[0].path, None, Some(after[0]))] + Merge(before, after[1..])
    else if after == [] || PathLess(before[0].path, after[0].path) then
      [MakeDifference(Deleted, before[0].path, Some(before[0]), None)] + Merge(before[1..], after)
    else Change(before[0], after[0]) + Merge(before[1..], after[1..])
  }

  // ----- what a comparison must report -----

  /** What a manifest says about one path. */
  function Find(es: seq<Entry>, path: string): Option<Entry> {
    if es == [] then None
    else if es[0].path == path then Some(es[0])
    else Find(es[1..], path)
  }

  /** The difference at one path, if any. */
  function At(before: Option<Entry>, after: Option<Entry>): seq<Difference>
    requires before.Some? && after.Some? ==> before.value.path == after.value.path
  {
    match (before, after)
    case (None, None) => []
    case (None, Some(a)) => [MakeDifference(Added, a.path, None, after)]
    case (Some(b), None) => [MakeDifference(Deleted, b.path, before, None)]
    case (Some(b), Some(a)) => Change(b, a)
  }

  lemma {:induction false} FindPath(es: seq<Entry>, path: string)
    ensures Find(es, path).Some? ==> Find(es, path).value.path == path && Find(es, path).value in es
  {
    if es != [] { FindPath(es[1..], path); }
  }

  function AtPath(before: seq<Entry>, after: seq<Entry>, path: string): seq<Difference> {
    FindPath(before, path);
    FindPath(after, path);
    At(Find(before, path), Find(after, path))
  }

  /** The manifest is in strict component order. */
  ghost predicate Sorted(es: seq<Entry>) {
    forall i, j :: 0 <= i < j < |es| ==> PathLess(es[i].path, es[j].path)
  }

  /** Every path of the manifest comes after p, so p is not in it. */
  ghost predicate AllAfter(p: string, es: seq<Entry>) {
    forall i :: 0 <= i < |es| ==> PathLess(p, es[i].path)
  }

  lemma {:induction false} NotFound(p: string, es: seq<Entry>)
    requires AllAfter(p, es)
    ensures Find(es, p) == None
  {
    if es != [] {
      PathLessTotal(p, es[0].path);
      NotFound(p, es[1..]);
    }
  }

  lemma TailSorted(es: seq<Entry>)
    requires Sorted(es) && es != []
    ensures Sorted(es[1..]) && AllAfter(es[0].path, es[1..])
  {
  }

  lemma HeadFirst(p: string, es: seq<Entry>)
    requires Sorted(es) && (es != [] ==> PathLess(p, es[0].path))
    ensures AllAfter(p, es)
  {
    forall i | 0 <= i < |es| ensures PathLess(p, es[i].path) {
      if i > 0 { PathLessTransitive(p, es[0].path, es[i].path); }
    }
  }

  /** The merge reports, at every path, exactly the difference at that path. */
  lemma {:induction false} MergeExact(before: seq<Entry>, after: seq<Entry>, d: Difference)
    requires Sorted(before) && Sorted(after)
    ensures d in Merge(before, after) <==> d in AtPath(before, after, d.path)
    decreases |before| + |after|
  {
    if before == [] && after == [] {
    } else if before == [] || (after != [] && PathLess(after[0].path, before[0].path)) {
      HeadFirst(after[0].path, before);
      TailSorted(after);
      NotFound(after[0].path, before);
      NotFound(after[0].path, after[1..]);
      MergeExact(before, after[1..], d);
    } else if after == [] || PathLess(before[0].path, after[0].path) {
      HeadFirst(before[0].path, after);
      TailSorted(before);
      NotFound(before[0].path, after);
      NotFound(before[0].path, before[1..]);
      MergeExact(before[1..], after, d);
    } else {
      PathLessTotal(before[0].path, after[0].path);
      TailSorted(before);
      TailSorted(after);
      NotFound(before[0].path, before[1..]);
      NotFound(before[0].path, after[1..]);
      MergeExact(before[1..], after[1..], d);
    }
  }

  /** No path is reported twice, and the merge works in component order. */
  ghost predicate Ascending(ds: seq<Difference>) {
    forall i, j :: 0 <= i < j < |ds| ==> PathLess(ds[i].path, ds[j].path)
  }

  lemma {:induction false} MergeAscending(before: seq<Entry>, after: seq<Entry>, p: string)
    requires Sorted(before) && Sorted(after)
    ensures Ascending(Merge(before, after))
    ensures AllAfter(p, before) && AllAfter(p, after) ==>
            forall i :: 0 <= i < |Merge(before, after)| ==> PathLess(p, Merge(before, after)[i].path)
    decreases |before| + |after|
  {
    hide PathLess;
    if before == [] && after == [] {
    } else if before == [] || (after != [] && PathLess(after[0].path, before[0].path)) {
      TailSorted(after);
      HeadFirst(after[0].path, before);
      MergeAscending(before, after[1..], after[0].path);
      MergeAscending(before, after[1..], p);
    } else if after == [] || PathLess(before[0].path, after[0].path) {
      TailSorted(before);
      HeadFirst(before[0].path, after);
      MergeAscending(before[1..], after, before[0].path);
      MergeAscending(before[1..], after, p);
    } else {
      PathLessTotal(before[0].path, after[0].path);
      TailSorted(before);
      TailSorted(after);
      MergeAscending(before[1..], after[1..], before[0].path);
      MergeAscending(before[1..], after[1..], p);
    }
  }
}
